/** Which operations of the real catalogue the apply protocol can carry (src/administrator-handoff.ts):
    exactly those the catalogue marks, since their state requirements can be met. */
module AdministratorOperations {
  import opened AdministratorApply
  import opened AdministratorCatalogue
  import opened AdministratorState
  import opened Text
  import opened Wrappers
  import AP = AdministratorPlan
  import K = KeyedLists

  // ----- Key order -----

  predicate IsLowerLetter(c: CodeUnit) { 0x61 <= c <= 0x7a }

  /** Two texts that first differ in lower-case letters, in this order. */
  ghost predicate LetterLess(a: Text, b: Text) {
    exists k :: 0 <= k < |a| && k < |b| && DiffersAt(a, b, k)
  }

  predicate DiffersAt(a: Text, b: Text, k: nat)
    requires k < |a| && k < |b|
  {
    a[..k] == b[..k] && IsLowerLetter(a[k]) && IsLowerLetter(b[k]) && a[k] < b[k]
  }

  /** The one fact about localeCompare the catalogue's order of keys depends on. */
  ghost predicate LettersDecide(keyLeq: (Text, Text) -> bool) {
    forall a, b :: LetterLess(a, b) ==> keyLeq(a, b)
  }

  lemma {:induction false} CodeUnitsDecide(a: Text, b: Text, k: nat)
    requires k < |a| && k < |b| && DiffersAt(a, b, k)
    ensures Leq(a, b)
  {
    if k > 0 {
      assert a[..k][0] == b[..k][0];
      assert a[1..][..k - 1] == a[..k][1..] && b[1..][..k - 1] == b[..k][1..];
      CodeUnitsDecide(a[1..], b[1..], k - 1);
    }
  }

  /** Code-unit order is such an order, so the hypothesis can be met. */
  lemma CodeUnitOrderDecides()
    ensures LettersDecide(Leq)
  {
    forall a, b | LetterLess(a, b) ensures Leq(a, b) {
      var k :| 0 <= k < |a| && k < |b| && DiffersAt(a, b, k);
      CodeUnitsDecide(a, b, k);
    }
  }

  lemma SameArea(area: string, m: string, n: string)
    requires m != "" && n != "" && 'a' <= m[0] < n[0] <= 'z'
    ensures LetterLess(StateKey(area, m), StateKey(area, n))
  {
    var k := |area| + 1;
    assert StateKey(area, m)[..k] == OfString(area + ".") == StateKey(area, n)[..k];
    assert DiffersAt(StateKey(area, m), StateKey(area, n), k);
  }

  lemma OtherArea(a: string, m: string, b: string, n: string)
    requires a != "" && b != "" && 'a' <= a[0] < b[0] <= 'z'
    ensures LetterLess(StateKey(a, m), StateKey(b, n))
  {
    assert DiffersAt(StateKey(a, m), StateKey(b, n), 0);
  }

  lemma SecondLetter(a: string, m: string, b: string, n: string)
    requires |a| > 1 && |b| > 1 && a[0] == b[0] && 'a' <= a[1] < b[1] <= 'z'
    ensures LetterLess(StateKey(a, m), StateKey(b, n))
  {
    assert DiffersAt(StateKey(a, m), StateKey(b, n), 1);
  }

  ghost predicate KeysOrdered(requirements: seq<Requirement>) {
    forall i, j :: 0 <= i < j < |requirements| ==> LetterLess(requirements[i].key, requirements[j].key)
  }

  /** Keys in one area or in different ones, told apart by an early letter. */
  predicate KeysApart(a: (string, string), b: (string, string)) {
    || (a.0 == b.0 && a.1 != "" && b.1 != "" && 'a' <= a.1[0] < b.1[0] <= 'z')
    || (a.0 != "" && b.0 != "" && 'a' <= a.0[0] < b.0[0] <= 'z')
    || (|a.0| > 1 && |b.0| > 1 && a.0[0] == b.0[0] && 'a' <= a.0[1] < b.0[1] <= 'z')
  }

  lemma ApartMeansLess(a: (string, string), b: (string, string))
    requires KeysApart(a, b)
    ensures LetterLess(StateKey(a.0, a.1), StateKey(b.0, b.1))
  {
    if a.0 == b.0 && a.1 != "" && b.1 != "" && 'a' <= a.1[0] < b.1[0] <= 'z' {
      SameArea(a.0, a.1, b.1);
    } else if a.0 != "" && b.0 != "" && 'a' <= a.0[0] < b.0[0] <= 'z' {
      OtherArea(a.0, a.1, b.0, b.1);
    } else {
      SecondLetter(a.0, a.1, b.0, b.1);
    }
  }

  lemma LongListsApart(c: ControlId, i: nat, j: nat)
    requires c == BackupRestoreAndDisabledRecovery || c == GhasAndCodeql || c == ProviderBillingBudgetsAndUsage
    requires i < j < |SwitchesOf(c)|
    ensures KeysApart(SwitchesOf(c)[i], SwitchesOf(c)[j])
  {
    match c
    case BackupRestoreAndDisabledRecovery =>
    case GhasAndCodeql =>
    case ProviderBillingBudgetsAndUsage =>
  }

  lemma PairsApart(c: ControlId)
    requires |SwitchesOf(c)| == 2
    ensures KeysApart(SwitchesOf(c)[0], SwitchesOf(c)[1])
  {
  }

  lemma LongLists(c: ControlId)
    requires |SwitchesOf(c)| > 2
    ensures c == BackupRestoreAndDisabledRecovery || c == GhasAndCodeql || c == ProviderBillingBudgetsAndUsage
  {
  }

  lemma SwitchesApart(c: ControlId, i: nat, j: nat)
    requires i < j < |SwitchesOf(c)|
    ensures KeysApart(SwitchesOf(c)[i], SwitchesOf(c)[j])
  {
    hide SwitchesOf;
    hide KeysApart;
    if |SwitchesOf(c)| > 2 {
      LongLists(c);
      LongListsApart(c, i, j);
    } else {
      PairsApart(c);
    }
  }

  lemma SwitchesOrdered(c: ControlId)
    ensures KeysOrdered(AllOn(SwitchesOf(c)))
  {
    hide LetterLess;
    hide KeysApart;
    hide SwitchesOf;
    hide StateKey;
    var switches := SwitchesOf(c);
    forall i, j | 0 <= i < j < |switches| ensures LetterLess(AllOn(switches)[i].key, AllOn(switches)[j].key) {
      SwitchesApart(c, i, j);
      ApartMeansLess(switches[i], switches[j]);
    }
  }

  /** The catalogue lists the keys of every control in order. */
  lemma RequirementsOrdered(c: ControlId)
    ensures KeysOrdered(Requirements(c))
  {
    hide LetterLess;
    hide StateKey;
    hide SwitchesOf;
    SwitchesOrdered(c);
    match c
    case MainRulesetAndRequiredChecks => OtherArea("checks", "required", "ruleset", "main");
    case ActionsPolicy =>
      SameArea("actions", "allowlist", "reviewPermission");
      SameArea("actions", "allowlist", "shaPinning");
      SameArea("actions", "reviewPermission", "shaPinning");
    case LogsArtifactsAndDataRetention =>
      SameArea("retention", "artifacts", "data");
      SameArea("retention", "artifacts", "logs");
      SameArea("retention", "data", "logs");
    case _ =>
  }

  // ----- A state that meets the requirements -----

  /** A value of the domain that may be both current and desired. */
  function SampleValue(requirement: Requirement): Scalar {
    if requirement.requiredDesiredValue.Some? then requirement.requiredDesiredValue.value
    else match requirement.valueType
      case BooleanValue => Flag(true)
      case IntegerValue => Whole(1)
      case StringValue => Words([])
  }

  function SampleEntries(requirements: seq<Requirement>): (entries: seq<StateEntry>)
    ensures |entries| == |requirements|
    ensures forall i :: 0 <= i < |entries| ==> entries[i] == StateEntry(requirements[i].key, SampleValue(requirements[i]))
  {
    seq(|requirements|, i requires 0 <= i < |requirements| => StateEntry(requirements[i].key, SampleValue(requirements[i])))
  }

  function SampleState(c: ControlId): StateSet { StateSet(|Requirements(c)|, SampleEntries(Requirements(c))) }

  predicate SampleFits(requirement: Requirement) { InDomain(SampleValue(requirement), requirement.valueType) }

  lemma SamplesFit(c: ControlId)
    ensures |Requirements(c)| <= 4
    ensures forall i :: 0 <= i < |Requirements(c)| ==> SampleFits(Requirements(c)[i])
  {
    hide StateKey;
    hide SwitchesOf;
  }

  lemma SampleMeets(c: ControlId)
    ensures RequirementsMet(Requirements(c), SampleState(c).values, SampleState(c).values)
  {
    hide Requirements;
    SamplesFit(c);
    var requirements, values := Requirements(c), SampleState(c).values;
    assert K.Keys(values, EntryKey) == K.Keys(requirements, RequirementKey);
  }

  lemma LetterLessDiffers(a: Text, b: Text)
    requires LetterLess(a, b)
    ensures a != b
  {
  }

  lemma SampleValid(e: Encoding, c: ControlId)
    requires LettersDecide(e.keyLeq)
    ensures StateSetValid(e, SampleState(c))
  {
    hide Requirements;
    hide LetterLess;
    RequirementsOrdered(c);
    SamplesFit(c);
    var requirements, values := Requirements(c), SampleState(c).values;
    forall i, j | 0 <= i < j < |values| ensures values[i].key != values[j].key && EntryLeq(e)(values[i], values[j]) {
      LetterLessDiffers(requirements[i].key, requirements[j].key);
    }
    forall entry | entry in values ensures WellFormedEntry(entry) {
      var i :| 0 <= i < |values| && values[i] == entry;
      assert SampleFits(requirements[i]);
    }
  }

  /** A target with every binding. */
  const FULL_TARGET := ExactTarget(
    Some(Account(2, "b", "b")), Account(1, "a", "a"), AP.Repository(1, "r", "a", "r", "a/r"),
    Some(ProjectRef("p", 1, "i", "f")), Some(EnvironmentRef(1, "e", "e")), Some(RulesetRef(1, "m", BranchRefs)),
    Some(AppRef(1, "a")), Some(InstallationRef(1, 1, "a")), Some("b"))

  lemma FullTargetCoherent(env: Env, c: ControlId)
    requires env.lower("a") != env.lower("b")
    ensures TargetCoherent(env, c, FULL_TARGET)
  {
    assert "a" + "/" + "r" == "a/r";
    assert "b" != "a";
    forall b | b in Bindings(c) ensures BindingPresent(FULL_TARGET, b) {}
  }

  function SampleIntent(c: ControlId, handoffPlanDigest: string, generatedAt: int, expiresAt: int): Intent {
    Intent(handoffPlanDigest, c, generatedAt, expiresAt, FULL_TARGET, SampleState(c), SampleState(c))
  }

  /** A control admits a valid apply intent exactly when the catalogue asks for an apply plan; so the
      protocol, which carries every valid intent through, can be completed for all of these and for
      no human decision, final readback or canary. */
  lemma ApplicableExactly(env: Env, c: ControlId)
    requires LettersDecide(env.encoding.keyLeq) && env.lower("a") != env.lower("b")
    ensures (exists intent: Intent :: intent.operationId == c && IntentValid(env, intent)) <==> ApplyPlanRequired(c)
  {
    hide StateSetValid;
    hide RequirementsMet;
    hide TargetCoherent;
    if ApplyPlanRequired(c) {
      SampleValid(env.encoding, c);
      SampleMeets(c);
      FullTargetCoherent(env, c);
      assert IntentValid(env, SampleIntent(c, "", 0, 1));
    }
  }
}
