/** What a run of reconcileIssueTaxonomy (scripts/reconcile-issue-taxonomy.ts) means for the labels of
    its issues, in terms of the configuration and of what was read and written alone. */
module TaxonomyOutcome {
  import opened IssueTaxonomy
  import opened Ordering
  import opened TaxonomyReconciler
  import opened TaxonomyRepository
  import opened TaxonomyRun
  import opened Wrappers

  predicate IsTypeName(k: string) {
    k == "type: customer-evaluation" || k == "type: maintainer-development" || k == "type: synthetic-demo"
  }

  lemma TypeNames(k: string)
    ensures IsTypeName(k) <==> IsTaxKey(k)
  {
    hide LabelName;
    LabelNamesSpelled();
  }

  // ----- Settled labels -----

  /** The label of the class once, no other spelling or type beside it, and the labels that are none of
      the three as often as before. */
  ghost predicate OneTypeLabel(env: Env, c: Class, before: seq<string>, after: seq<string>) {
    && multiset(after)[LabelName(c)] == 1
    && (forall name :: name in after && IsTypeName(env.lower(name)) ==> name == LabelName(c))
    && (forall name :: !IsTypeName(env.lower(name)) ==> multiset(after)[name] == multiset(before)[name])
  }

  lemma {:induction false} KeepCounts<T(!new)>(p: T -> bool, xs: seq<T>, x: T)
    ensures multiset(Keep(p, xs))[x] == if p(x) then multiset(xs)[x] else 0
  {
    if xs != [] {
      KeepCounts(p, xs[1..], x);
      assert xs == [xs[0]] + xs[1..];
    }
  }

  lemma {:induction false} AllTheSame<T(!new)>(xs: seq<T>, x: T)
    requires forall y :: y in xs ==> y == x
    ensures multiset(xs)[x] == |xs|
  {
    if xs != [] {
      assert xs == [xs[0]] + xs[1..] && xs[0] in xs;
      forall y | y in xs[1..] ensures y == x { assert y in xs; }
      AllTheSame(xs[1..], x);
    }
  }

  lemma KeptOnce(p: string -> bool, xs: seq<string>, x: string)
    requires p(x)
    ensures Keep(p, xs) == [x] <==> multiset(xs)[x] == 1 && forall y :: y in xs && p(y) ==> y == x
  {
    var kept := Keep(p, xs);
    KeepCounts(p, xs, x);
    if kept == [x] {
      assert multiset(kept) == multiset{x};
      forall y | y in xs && p(y) ensures y == x { assert y in kept; }
    }
    if multiset(xs)[x] == 1 && forall y :: y in xs && p(y) ==> y == x { AllTheSame(kept, x); }
  }

  lemma KeptAlike(p: string -> bool, xs: seq<string>, ys: seq<string>)
    ensures multiset(Keep(p, xs)) == multiset(Keep(p, ys)) <==> forall x :: p(x) ==> multiset(xs)[x] == multiset(ys)[x]
  {
    forall x
      ensures multiset(Keep(p, xs))[x] == if p(x) then multiset(xs)[x] else 0
      ensures multiset(Keep(p, ys))[x] == if p(x) then multiset(ys)[x] else 0
    {
      KeepCounts(p, xs, x);
      KeepCounts(p, ys, x);
    }
    if forall x :: p(x) ==> multiset(xs)[x] == multiset(ys)[x] {
      assert forall x :: multiset(Keep(p, xs))[x] == multiset(Keep(p, ys))[x];
    }
  }

  lemma NamesAreTypes(env: Env, config: Config, name: string)
    requires ConfigValid(env, config) && EnvSound(env)
    ensures env.lower(name) in TaxonomyNames(env, config) <==> IsTypeName(env.lower(name))
  {
    TaxonomyNamesExactly(env, config, env.lower(name));
    TypeNames(env.lower(name));
  }

  /** The readback check, spelled out. */
  lemma SettledExactly(env: Env, config: Config, c: Class, before: seq<string>, after: seq<string>)
    requires ConfigValid(env, config) && EnvSound(env)
    ensures Settled(env, TaxonomyNames(env, config), LabelName(c), before, after) <==> OneTypeLabel(env, c, before, after)
  {
    hide ConfigValid;
    hide EnvSound;
    hide LabelName;
    hide IsTypeName;
    hide TaxonomyNames;
    var names := TaxonomyNames(env, config);
    LowerLabel(env, c);
    forall name ensures env.lower(name) in names <==> IsTypeName(env.lower(name)) { NamesAreTypes(env, config, name); }
    KeptOnce(Taxonomic(env, names), after, LabelName(c));
    KeptAlike(Unrelated(env, names), after, before);
  }

  lemma LowerLabel(env: Env, c: Class)
    requires EnvSound(env)
    ensures env.lower(LabelName(c)) == LabelName(c) && IsTypeName(LabelName(c))
  {
    hide TotalOrder;
    LabelNamesSpelled();
  }

  // ----- What a run writes -----

  /** A name under which the desired label is already there. */
  predicate HasLabel(env: Env, labels: seq<string>, c: Class) {
    exists name :: name in labels && env.lower(name) == LabelName(c)
  }

  /** Between the two reads of an issue: every label of another type removed, the label of the class
      added where no spelling of it is there, and nothing else. */
  lemma IssueWritesExactly(env: Env, config: Config, number: int, c: Class, labels: seq<string>, e: Event)
    requires ConfigValid(env, config) && EnvSound(env)
    ensures e in IssueWrites(env, config, number, c, labels) <==>
      || (e == Added(number, LabelName(c)) && !HasLabel(env, labels, c))
      || (e.Removed? && e.issueNumber == number && e.labelName in labels
          && IsTypeName(env.lower(e.labelName)) && env.lower(e.labelName) != LabelName(c))
  {
    hide ConfigValid;
    hide LabelName;
    hide IsTypeName;
    LowerLabel(env, c);
    hide EnvSound;
    var removed := Keep(Conflicting(env, TaxonomyNames(env, config), LabelName(c)), labels);
    assert HasName(env, labels, LabelName(c)) <==> HasLabel(env, labels, c);
    forall name ensures name in removed <==>
        name in labels && IsTypeName(env.lower(name)) && env.lower(name) != LabelName(c)
    {
      AgainstExactly(env, config, c, name);
    }
    RemovalMember(number, removed, e);
  }

  lemma RemovalMember(number: int, names: seq<string>, e: Event)
    ensures e in Removals(number, names) <==> e.Removed? && e.issueNumber == number && e.labelName in names
  {
    if e.Removed? && e.issueNumber == number && e.labelName in names {
      var i :| 0 <= i < |names| && names[i] == e.labelName;
      assert Removals(number, names)[i] == e;
    }
  }

  lemma AgainstExactly(env: Env, config: Config, c: Class, name: string)
    requires ConfigValid(env, config) && EnvSound(env)
    ensures Conflicting(env, TaxonomyNames(env, config), LabelName(c))(name) <==>
      IsTypeName(env.lower(name)) && env.lower(name) != LabelName(c)
  {
    hide LabelName;
    hide IsTypeName;
    TaxonomyNamesExactly(env, config, env.lower(name));
    TypeNames(env.lower(name));
  }

  /** What any write of any run may be, whatever the repository answers. */
  lemma PermittedWrites(env: Env, config: Config, planned: seq<Issue>, e: Event)
    requires ConfigValid(env, config) && EnvSound(env) && AllMapped(config, planned)
    requires Permitted(env, config, planned, e) && IsWrite(e)
    ensures e.Created? || e.Updated? ==> e.wanted in config.labels
    ensures e.Added? || e.Removed? ==>
      exists issue, c :: issue in planned && issue.number == e.issueNumber && Decided(config, issue.number, issue.title, c)
        && if e.Added? then e.labelName == LabelName(c)
           else IsTypeName(env.lower(e.labelName)) && env.lower(e.labelName) != LabelName(c)
  {
    hide ConfigValid;
    hide EnvSound;
    hide LabelName;
    hide IsTypeName;
    hide ClassifyIssue;
    hide Decided;
    if e.Added? || e.Removed? {
      var issue :| issue in planned && IssueEvent(env, config, issue.number, ClassOf(config, issue), e);
      var i :| 0 <= i < |planned| && planned[i] == issue;
      assert Mapped(config, planned[i]);
      ClassifyExactly(env, config, issue.number, issue.title);
      AgainstExactly(env, config, ClassOf(config, issue), e.labelName);
      assert Decided(config, issue.number, issue.title, ClassOf(config, issue));
    }
  }

  // ----- What a run reads in the end -----

  /** The issue is the planned one, and open. */
  predicate SameIssue(planned: Issue, seen: Issue) {
    seen == planned.(labels := seen.labels, open := true)
  }

  /** After a normal return the last two reads of each planned issue show the issue that was planned,
      and the last one the label of the class the configuration decides on. */
  lemma RunShowsOneTypeLabel(env: Env, config: Config, target: Option<EventIssue>, planned: seq<Issue>, trace: seq<Event>,
    i: nat, c: Class)
    requires ConfigValid(env, config) && EnvSound(env) && RunTrace(env, config, target, planned, trace)
    requires i < |planned| && LastOf(planned, i) && Decided(config, planned[i].number, planned[i].title, c)
    ensures var seen := ReadsOf(trace, planned[i].number);
      && |seen| >= 2 && SameIssue(planned[i], seen[|seen| - 2]) && SameIssue(planned[i], seen[|seen| - 1])
      && OneTypeLabel(env, c, seen[|seen| - 2].labels, seen[|seen| - 1].labels)
  {
    hide ConfigValid;
    hide EnvSound;
    hide RunTrace;
    hide Decided;
    hide ClassifyIssue;
    hide OneTypeLabel;
    hide Settled;
    hide ReadsOf;
    RunShowsSettled(env, config, target, planned, trace, i);
    ClassifyExactly(env, config, planned[i].number, planned[i].title);
    var seen := ReadsOf(trace, planned[i].number);
    SettledExactly(env, config, c, seen[|seen| - 2].labels, seen[|seen| - 1].labels);
  }

  /** A label as the configuration wants it. */
  predicate AsWanted(env: Env, wanted: TaxonomyLabel, found: Label) {
    found == Label(wanted.name, found.color, wanted.description) && env.upper(found.color) == wanted.color
  }

  /** A label is created when it is not found, updated under its present name when it is not as
      wanted, and left alone when it is. */
  lemma LabelWritesExactly(env: Env, wanted: TaxonomyLabel, found: Option<Label>)
    ensures found == None ==> LabelWrites(env, wanted, found) == [Created(wanted)]
    ensures found.Some? && AsWanted(env, wanted, found.value) ==> LabelWrites(env, wanted, found) == []
    ensures found.Some? && !AsWanted(env, wanted, found.value) ==>
      LabelWrites(env, wanted, found) == [Updated(found.value.name, wanted)]
  {
  }

  ghost predicate ReadAsWanted(env: Env, wanted: TaxonomyLabel, trace: seq<Event>) {
    exists found :: AsWanted(env, wanted, found) && ReadLabel(wanted.name, Some(found)) in trace
  }

  lemma LabelReadAsWanted(env: Env, wanted: TaxonomyLabel, trace: seq<Event>)
    requires LabelTrace(env, wanted, trace)
    ensures ReadAsWanted(env, wanted, trace)
  {
    var last := trace[|trace| - 1];
    assert last in trace && last == ReadLabel(wanted.name, Some(last.found.value));
    assert AsWanted(env, wanted, last.found.value);
  }

  lemma ReadInPart(env: Env, wanted: TaxonomyLabel, trace: seq<Event>, j: nat, k: nat)
    requires j <= k <= |trace| && ReadAsWanted(env, wanted, trace[j..k])
    ensures ReadAsWanted(env, wanted, trace)
  {
    var found :| AsWanted(env, wanted, found) && ReadLabel(wanted.name, Some(found)) in trace[j..k];
    assert ReadLabel(wanted.name, Some(found)) in trace;
  }

  lemma {:induction false} LabelsReadAsWanted(env: Env, labels: seq<TaxonomyLabel>, trace: seq<Event>, i: nat)
    requires LabelsTrace(env, labels, trace) && i < |labels|
    ensures ReadAsWanted(env, labels[i], trace)
    decreases |labels|
  {
    hide LabelTrace;
    hide ReadAsWanted;
    var m := |labels| - 1;
    var k :| 0 <= k <= |trace| && LabelsTrace(env, labels[..m], trace[..k]) && LabelTrace(env, labels[m], trace[k..]);
    if i < m {
      LabelsReadAsWanted(env, labels[..m], trace[..k], i);
      assert trace[..k] == trace[0..k];
      ReadInPart(env, labels[i], trace, 0, k);
    } else {
      LabelReadAsWanted(env, labels[m], trace[k..]);
      assert trace[k..] == trace[k..|trace|];
      ReadInPart(env, labels[m], trace, k, |trace|);
    }
  }

  /** After a normal return every configured label has been read back as wanted. */
  lemma RunShowsLabels(env: Env, config: Config, target: Option<EventIssue>, planned: seq<Issue>, trace: seq<Event>, i: nat)
    requires RunTrace(env, config, target, planned, trace) && i < |config.labels|
    ensures ReadAsWanted(env, config.labels[i], trace)
  {
    hide LabelsTrace;
    hide IssuesTrace;
    hide ReadAsWanted;
    var k :| 1 <= k <= |trace| && LabelsTrace(env, config.labels, trace[1..k]);
    LabelsReadAsWanted(env, config.labels, trace[1..k], i);
    ReadInPart(env, config.labels[i], trace, 1, k);
  }

  // ----- Honest runs -----

  /** The class the configuration decides on is the one an honest run leaves: as only key of the three
      on the issue, and with every configured label as wanted. */
  lemma ReconciledAsDecided(env: Env, store: string -> string, config: Config, w: World, target: Option<EventIssue>,
    planned: seq<Issue>, i: nat, c: Class)
    requires HonestRun(env, store, config, w, target, planned) && i < |planned|
    requires Decided(config, planned[i].number, planned[i].title, c)
    ensures var after, n := Reconciled(env, store, config, w, planned), planned[i].number;
      && n in after.issues && LabelName(c) in after.issues[n].keys
      && (forall k :: k in after.issues[n].keys && IsTypeName(k) ==> k == LabelName(c))
      && n in w.issues
      && (forall k :: !IsTypeName(k) ==> multiset(after.issues[n].keys)[k] == multiset(w.issues[n].keys)[k])
  {
    hide LabelName;
    hide Reconciled;
    hide Decided;
    hide ClassifyIssue;
    hide IsTaxKey;
    hide IsTypeName;
    ReconciledSettles(env, store, config, w, target, planned, i);
    ClassifyExactly(env, config, planned[i].number, planned[i].title);
    var after, n := Reconciled(env, store, config, w, planned), planned[i].number;
    var keys := after.issues[n].keys;
    assert LabelName(c) in Keep(InTaxonomy(), keys);
    forall k | k in keys && IsTypeName(k) ensures k == LabelName(c) {
      TypeNames(k);
      assert k in Keep(InTaxonomy(), keys);
    }
    forall k | !IsTypeName(k) ensures multiset(keys)[k] == multiset(w.issues[n].keys)[k] {
      TypeNames(k);
      KeepCounts(OutsideTaxonomy(), keys, k);
      KeepCounts(OutsideTaxonomy(), w.issues[n].keys, k);
    }
  }

  lemma ReconciledLabelsAsWanted(env: Env, store: string -> string, config: Config, w: World, target: Option<EventIssue>,
    planned: seq<Issue>, i: nat)
    requires HonestRun(env, store, config, w, target, planned) && i < |config.labels|
    ensures var after, wanted := Reconciled(env, store, config, w, planned), config.labels[i];
      wanted.name in after.labels && AsWanted(env, wanted, after.labels[wanted.name])
  {
    hide Reconciled;
    ReconciledLabels(env, store, config, w, target, planned);
    assert InPlace(env, Reconciled(env, store, config, w, planned), config.labels[i]);
  }

  /** The open issues of a world can be planned exactly when there are few enough and each is mapped by
      its number or its title. */
  lemma PlannableByMapping(env: Env, config: Config, w: World)
    requires ConfigValid(env, config)
    ensures Plannable(config, w, None) <==>
      && |OpenNumbers(w)| <= config.maxOpenIssues
      && forall n :: n in w.issues && w.issues[n].open ==> MappedByNumber(config, n) || MappedByTitle(config, w.issues[n].title)
  {
    hide ConfigValid;
    hide ClassifyIssue;
    forall n | n in w.issues
      ensures StoredClass(config, w, n).Some? <==> MappedByNumber(config, n) || MappedByTitle(config, w.issues[n].title)
    {
      ClassifyExactly(env, config, n, w.issues[n].title);
    }
  }
}
