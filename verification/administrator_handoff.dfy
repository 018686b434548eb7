/** compareAdministratorHandoffReadback (src/administrator-handoff.ts) over any catalogue, and what a
    valid readback guarantees about the controls it calls satisfied. */
module AdministratorHandoff {
  import opened AdministratorCatalogue
  import opened Freshness
  import opened KeyedLists
  import opened Ordering
  import opened Wrappers
  import HP = AdministratorHandoffPlan

  datatype Origin = SyntheticFixture | AuthenticatedLiveCurrent

  datatype Provenance = SyntheticProvenance | TrustedAdapterAuthenticated

  datatype Status = Satisfied | RepositoryEvidenceOnly | BlockedHumanAction | Unavailable

  datatype Reason =
    | ObservedCompliant | SyntheticOnly | MissingIdentity | MissingProtection | ConfigurationDrift
    | HumanDecisionRequired | LiveEvidenceUnavailable

  datatype Stage = Blocked | HumanReviewReached

  datatype ControlReadback<C> = ControlReadback(
    controlId: C, status: Status, reasonCode: Reason, observationDigest: Option<string>)

  datatype Evidence<C> = Evidence(controlId: C, terms: Terms, observationDigest: string)

  /** The target digests, null for a binding that was not observed. */
  type Target = map<Binding, Option<string>>

  datatype Readback<C> = Readback(
    observedAt: int, planDigest: string, source: Origin, provenance: Provenance, snapshotDigest: string,
    target: Target, controls: seq<ControlReadback<C>>, satisfiedEvidence: seq<Evidence<C>>,
    appBackedSandbox: Stage, evidenceOnly: bool)

  /** Digests of the plan's parts and of a readback's snapshot. */
  datatype Env<!C> = Env(digests: HP.Digests<C>, snapshot: Readback<C> -> string)

  /** Where in the readback an issue lies. */
  datatype Issue =
    | PlanIssue | PlanDigestIssue | FreshnessIssue | ProvenanceIssue | TargetIssue | AuthorityIssue | SnapshotIssue
    | ControlsIssue | EvidenceIssue | ReadinessIssue

  // ----- Digests and bindings -----

  const ALL_BINDINGS: set<Binding> :=
    {Owner, Repository, SourceOwner, Project, Environment, Ruleset, App, Installation, BillingAccount}

  /** observedTargetBindingPresent */
  predicate Present(target: Target, binding: Binding) {
    && binding in target && target[binding].Some?
    && (binding == Owner || binding == Repository ==> HP.IsSha256(target[binding].value))
  }

  predicate TargetClosed(target: Target) {
    && target.Keys == ALL_BINDINGS
    && forall b :: b in target && target[b].Some? ==> HP.IsSha256(target[b].value)
  }

  function ControlKey<C>(): ControlReadback<C> -> C { (control: ControlReadback<C>) => control.controlId }

  function EvidenceKey<C>(): Evidence<C> -> C { (evidence: Evidence<C>) => evidence.controlId }

  function ObservedOf<C(==,!new)>(r: Readback<C>): map<C, ControlReadback<C>> { IndexBy(r.controls, ControlKey<C>()) }

  function EvidenceOf<C(==,!new)>(r: Readback<C>): map<C, Evidence<C>> { IndexBy(r.satisfiedEvidence, EvidenceKey<C>()) }

  predicate IsSatisfied<C(==,!new)>(r: Readback<C>, c: C) {
    c in ObservedOf(r) && ObservedOf(r)[c].status == Satisfied
  }

  // ----- What a valid readback is -----

  predicate EvidenceMatches<C(==,!new)>(catalogue: Catalogue<C>, r: Readback<C>, control: ControlReadback<C>) {
    && control.controlId in EvidenceOf(r)
    && EvidenceOf(r)[control.controlId].terms == catalogue.terms(control.controlId)
    && Some(EvidenceOf(r)[control.controlId].observationDigest) == control.observationDigest
  }

  /** What a control called satisfied must rest on. */
  predicate Supported<C(==,!new)>(catalogue: Catalogue<C>, r: Readback<C>, control: ControlReadback<C>) {
    && r.source == AuthenticatedLiveCurrent && control.reasonCode == ObservedCompliant
    && control.observationDigest.Some? && control.controlId in catalogue.order
    && EvidenceMatches(catalogue, r, control)
    && (forall b :: b in catalogue.bindings(control.controlId) ==> Present(r.target, b))
    && (forall p :: p in catalogue.prerequisites(control.controlId) ==> IsSatisfied(r, p))
  }

  predicate ControlValid<C(==,!new)>(catalogue: Catalogue<C>, r: Readback<C>, control: ControlReadback<C>) {
    && (control.observationDigest.Some? ==> HP.IsSha256(control.observationDigest.value))
    && (if control.status == Satisfied then Supported(catalogue, r, control)
        else control.controlId !in EvidenceOf(r) && control.reasonCode != ObservedCompliant)
    && (control.status == RepositoryEvidenceOnly ==> control.reasonCode == SyntheticOnly)
    && EvidenceOf(r).Keys <= ObservedOf(r).Keys
  }

  function AppBackedRequired<C(==,!new)>(catalogue: Catalogue<C>, ids: seq<C>): (required: seq<C>)
    ensures forall c :: c in required <==> c in ids && c !in catalogue.appBackedExcluded
  {
    if ids == [] then []
    else
      (if ids[0] in catalogue.appBackedExcluded then [] else [ids[0]]) + AppBackedRequired(catalogue, ids[1..])
  }

  /** What the scan behind a claim of human review asks of one control. */
  predicate ScanPasses<C(==,!new)>(catalogue: Catalogue<C>, r: Readback<C>, c: C) {
    IsSatisfied(r, c) && forall b :: b in catalogue.bindings(c) ==> Present(r.target, b)
  }

  ghost predicate HumanReviewSupported<C(!new)>(catalogue: Catalogue<C>, plan: HP.HandoffPlan<C>, r: Readback<C>) {
    && r.source == AuthenticatedLiveCurrent
    && forall c :: c in AppBackedRequired(catalogue, HP.Ids(plan.controls)) ==> ScanPasses(catalogue, r, c)
  }

  ghost predicate ControlsValid<C(!new)>(catalogue: Catalogue<C>, plan: HP.HandoffPlan<C>, r: Readback<C>) {
    && KeysDistinct(r.controls, ControlKey<C>()) && KeysDistinct(r.satisfiedEvidence, EvidenceKey<C>())
    && (forall c :: c in HP.Ids(plan.controls) ==> c in ObservedOf(r))
    && (forall control :: control in r.controls ==> control.controlId in catalogue.order)
    && (forall control :: control in r.controls ==> ControlValid(catalogue, r, control))
  }

  predicate BoundaryKept<C(!new)>(r: Readback<C>, env: Env<C>) {
    && (r.provenance == if r.source == SyntheticFixture then SyntheticProvenance else TrustedAdapterAuthenticated)
    && TargetClosed(r.target) && r.evidenceOnly && r.snapshotDigest == env.snapshot(r)
  }

  ghost predicate ReadbackValid<C(!new)>(catalogue: Catalogue<C>, plan: HP.HandoffPlan<C>, r: Readback<C>,
    window: Window, env: Env<C>)
  {
    && HP.PlanTrusted(catalogue, plan) && r.planDigest == env.digests.plan(plan) && ObservationFresh(r.observedAt, window)
    && BoundaryKept(r, env) && ControlsValid(catalogue, plan, r)
    && (r.appBackedSandbox == HumanReviewReached ==> HumanReviewSupported(catalogue, plan, r))
  }

  function Gaps<C(!new)>(controls: seq<ControlReadback<C>>): (gaps: seq<ControlReadback<C>>)
    ensures forall c :: c in gaps <==> c in controls && c.status != Satisfied
  {
    if controls == [] then []
    else (if controls[0].status != Satisfied then [controls[0]] else []) + Gaps(controls[1..])
  }

  // ----- The comparator -----

  method CheckControl<C(==,!new)>(catalogue: Catalogue<C>, r: Readback<C>, control: ControlReadback<C>,
    observed: map<C, ControlReadback<C>>, evidence: map<C, Evidence<C>>) returns (issues: seq<Issue>)
    requires observed == ObservedOf(r) && evidence == EvidenceOf(r)
    ensures issues == [] <==> ControlValid(catalogue, r, control)
  {
    issues := [];
    var id := control.controlId;
    if control.observationDigest.Some? && !HP.IsSha256(control.observationDigest.value) { issues := issues + [ControlsIssue]; }
    if control.status == Satisfied &&
       (r.source != AuthenticatedLiveCurrent || control.reasonCode != ObservedCompliant || control.observationDigest == None
        || id !in catalogue.order || id !in evidence || evidence[id].terms != catalogue.terms(id)
        || Some(evidence[id].observationDigest) != control.observationDigest
        || (exists b :: b in catalogue.bindings(id) && !Present(r.target, b))
        || (exists p :: p in catalogue.prerequisites(id) && !(p in observed && observed[p].status == Satisfied)))
    {
      issues := issues + [ControlsIssue];
    }
    if control.status != Satisfied && id in evidence { issues := issues + [EvidenceIssue]; }
    if control.status == RepositoryEvidenceOnly && control.reasonCode != SyntheticOnly { issues := issues + [ControlsIssue]; }
    if !(evidence.Keys <= observed.Keys) { issues := issues + [EvidenceIssue]; }
    if control.status != Satisfied && control.reasonCode == ObservedCompliant { issues := issues + [ControlsIssue]; }
  }

  method CheckCoverage<C(==,!new)>(catalogue: Catalogue<C>, plan: HP.HandoffPlan<C>, r: Readback<C>,
    observed: map<C, ControlReadback<C>>) returns (issues: seq<Issue>)
    requires observed == ObservedOf(r)
    ensures issues == [] <==>
      && (forall c :: c in HP.Ids(plan.controls) ==> c in ObservedOf(r))
      && (forall control :: control in r.controls ==> control.controlId in catalogue.order)
  {
    issues := [];
    var planned := HP.Ids(plan.controls);
    for i := 0 to |planned|
      invariant issues == [] <==> forall j :: 0 <= j < i ==> planned[j] in observed
    {
      if planned[i] !in observed { issues := issues + [ControlsIssue]; }
    }
    assert forall j :: 0 <= j < |planned| ==> planned[j] in planned;
    ghost var covered := issues == [];
    for i := 0 to |r.controls|
      invariant issues == [] <==> covered && forall j :: 0 <= j < i ==> r.controls[j].controlId in catalogue.order
    {
      if r.controls[i].controlId !in catalogue.order { issues := issues + [ControlsIssue]; }
    }
    assert forall j :: 0 <= j < |r.controls| ==> r.controls[j] in r.controls;
  }

  method CheckControls<C(==,!new)>(catalogue: Catalogue<C>, plan: HP.HandoffPlan<C>, r: Readback<C>) returns (issues: seq<Issue>)
    ensures issues == [] <==> ControlsValid(catalogue, plan, r)
  {
    hide ControlValid;
    issues := [];
    var duplicates := FindDuplicateKeys(r.controls, ControlKey<C>());
    if duplicates != [] { issues := issues + [ControlsIssue]; }
    var repeated := FindDuplicateKeys(r.satisfiedEvidence, EvidenceKey<C>());
    if repeated != [] { issues := issues + [EvidenceIssue]; }
    var observed, evidence := ObservedOf(r), EvidenceOf(r);
    var uncovered := CheckCoverage(catalogue, plan, r, observed);
    issues := issues + uncovered;
    ghost var before := issues == [];
    for i := 0 to |r.controls|
      invariant issues == [] <==> before && forall j :: 0 <= j < i ==> ControlValid(catalogue, r, r.controls[j])
    {
      var found := CheckControl(catalogue, r, r.controls[i], observed, evidence);
      issues := issues + found;
    }
    assert forall j :: 0 <= j < |r.controls| ==> r.controls[j] in r.controls;
  }

  method CheckHumanReview<C(==,!new)>(catalogue: Catalogue<C>, plan: HP.HandoffPlan<C>, r: Readback<C>) returns (issues: seq<Issue>)
    ensures issues == [] <==> (r.appBackedSandbox == HumanReviewReached ==> HumanReviewSupported(catalogue, plan, r))
  {
    issues := [];
    var required := AppBackedRequired(catalogue, HP.Ids(plan.controls));
    var observed := ObservedOf(r);
    if r.appBackedSandbox == HumanReviewReached &&
       (r.source != AuthenticatedLiveCurrent
        || (exists c :: c in required && !(c in observed && observed[c].status == Satisfied))
        || (exists c :: c in required && exists b :: b in catalogue.bindings(c) && !Present(r.target, b)))
    {
      issues := issues + [ReadinessIssue];
    }
    if r.appBackedSandbox != Blocked && r.source != AuthenticatedLiveCurrent { issues := issues + [ReadinessIssue]; }
    if issues == [] && r.appBackedSandbox == HumanReviewReached {
      forall c | c in required ensures ScanPasses(catalogue, r, c) {}
    }
  }

  method CheckBoundary<C(==,!new)>(r: Readback<C>, env: Env<C>) returns (issues: seq<Issue>)
    ensures issues == [] <==>
      BoundaryKept(r, env) && (r.source == SyntheticFixture ==> r.appBackedSandbox == Blocked)
  {
    issues := [];
    if r.provenance != if r.source == SyntheticFixture then SyntheticProvenance else TrustedAdapterAuthenticated {
      issues := issues + [ProvenanceIssue];
    }
    if r.source != AuthenticatedLiveCurrent && r.appBackedSandbox != Blocked { issues := issues + [ReadinessIssue]; }
    if !TargetClosed(r.target) { issues := issues + [TargetIssue]; }
    if !r.evidenceOnly { issues := issues + [AuthorityIssue]; }
    if r.snapshotDigest != env.snapshot(r) { issues := issues + [SnapshotIssue]; }
  }

  /** The gaps are reported only once plan, digest and freshness hold. */
  method CompareAdministratorHandoffReadback<C(==,!new)>(catalogue: Catalogue<C>, plan: HP.HandoffPlan<C>, r: Readback<C>,
    window: Window, env: Env<C>)
    returns (valid: bool, gaps: seq<ControlReadback<C>>, issues: seq<Issue>)
    requires HP.CollisionFree(env.digests)
    ensures valid <==> ReadbackValid(catalogue, plan, r, window, env)
    ensures valid <==> issues == []
    ensures gaps ==
      if HP.PlanTrusted(catalogue, plan) && r.planDigest == env.digests.plan(plan) && ObservationFresh(r.observedAt, window) then Gaps(r.controls) else []
  {
    hide BoundaryKept;
    hide ControlsValid;
    var planIssues := HP.ValidateAdministratorHandoffPlan(env.digests, catalogue, plan);
    if planIssues != [] { return false, [], [PlanIssue]; }
    if r.planDigest != env.digests.plan(plan) { return false, [], [PlanDigestIssue]; }
    if !ObservationFresh(r.observedAt, window) { return false, [], [FreshnessIssue]; }
    issues := CheckBoundary(r, env);
    var found := CheckControls(catalogue, plan, r);
    issues := issues + found;
    found := CheckHumanReview(catalogue, plan, r);
    issues := issues + found;
    return |issues| == 0, Gaps(r.controls), issues;
  }

  // ----- Main results -----

  function SatisfiedSet<C(==,!new)>(r: Readback<C>): (s: set<C>)
    ensures forall c :: c in s <==> IsSatisfied(r, c)
  {
    set c | c in ObservedOf(r) && ObservedOf(r)[c].status == Satisfied
  }

  lemma SatisfiedIsSupported<C(!new)>(catalogue: Catalogue<C>, plan: HP.HandoffPlan<C>, r: Readback<C>, c: C)
    requires ControlsValid(catalogue, plan, r) && IsSatisfied(r, c)
    ensures Supported(catalogue, r, ObservedOf(r)[c]) && ObservedOf(r)[c].controlId == c
  {
    IndexFinds(r.controls, ControlKey<C>(), c);
    assert ControlValid(catalogue, r, ObservedOf(r)[c]);
  }

  /** What a valid readback says of one control: called satisfied, it was observed compliant live, with
      evidence on the catalogue's terms over the same observation, and every binding it needs was
      observed; otherwise no evidence claims it. */
  ghost predicate ControlMeans<C(!new)>(catalogue: Catalogue<C>, r: Readback<C>, control: ControlReadback<C>) {
    if control.status == Satisfied then
      && r.source == AuthenticatedLiveCurrent && r.provenance == TrustedAdapterAuthenticated
      && control.reasonCode == ObservedCompliant
      && control.observationDigest.Some? && HP.IsSha256(control.observationDigest.value)
      && Evidence(control.controlId, catalogue.terms(control.controlId), control.observationDigest.value) in r.satisfiedEvidence
      && forall b :: b in catalogue.bindings(control.controlId) ==>
           b in r.target && r.target[b].Some? && HP.IsSha256(r.target[b].value)
    else
      && control.reasonCode != ObservedCompliant
      && (control.status == RepositoryEvidenceOnly ==> control.reasonCode == SyntheticOnly)
      && forall e :: e in r.satisfiedEvidence ==> e.controlId != control.controlId
  }

  lemma ControlMeaning<C(!new)>(catalogue: Catalogue<C>, plan: HP.HandoffPlan<C>, r: Readback<C>, window: Window,
    env: Env<C>, control: ControlReadback<C>)
    requires ReadbackValid(catalogue, plan, r, window, env) && control in r.controls
    ensures ControlMeans(catalogue, r, control)
  {
    assert ControlValid(catalogue, r, control);
    IndexFinds(r.satisfiedEvidence, EvidenceKey<C>(), control.controlId);
    KeyListed(r.satisfiedEvidence, EvidenceKey<C>(), control.controlId);
    if control.status != Satisfied {
      forall e | e in r.satisfiedEvidence ensures e.controlId != control.controlId {
        assert EvidenceKey<C>()(e) == e.controlId;
      }
    }
  }

  /** A valid readback is fresh and bound, lists every control of the catalogue exactly once with the
      meaning its status has, and offers no more evidence than that; a synthetic one satisfies nothing
      and stays blocked. */
  lemma ReadbackMeans<C(!new)>(catalogue: Catalogue<C>, plan: HP.HandoffPlan<C>, r: Readback<C>, window: Window, env: Env<C>)
    requires ReadbackValid(catalogue, plan, r, window, env)
    ensures 0 <= window.now - r.observedAt <= window.maxAgeMs && r.planDigest == env.digests.plan(plan)
    ensures r.snapshotDigest == env.snapshot(r) && r.evidenceOnly
    ensures KeysDistinct(r.controls, ControlKey<C>())
    ensures forall c :: c in catalogue.order <==> exists control :: control in r.controls && control.controlId == c
    ensures forall control :: control in r.controls ==> ControlMeans(catalogue, r, control)
    ensures r.source == SyntheticFixture ==>
      r.provenance == SyntheticProvenance && r.appBackedSandbox == Blocked
      && forall control :: control in r.controls ==> control.status != Satisfied
  {
    hide ControlValid;
    HP.TrustedLists(catalogue, plan);
    forall control | control in r.controls ensures ControlMeans(catalogue, r, control) {
      ControlMeaning(catalogue, plan, r, window, env, control);
    }
    forall c ensures c in ObservedOf(r) <==> exists control :: control in r.controls && control.controlId == c {
      IndexFinds(r.controls, ControlKey<C>(), c);
      KeyListed(r.controls, ControlKey<C>(), c);
      assert forall control: ControlReadback<C> :: ControlKey<C>()(control) == control.controlId;
    }
  }

  /** Positions, in increasing order, of all unsatisfied controls, and those controls. */
  ghost predicate GapsAt<C(!new)>(controls: seq<ControlReadback<C>>, gaps: seq<ControlReadback<C>>, at: seq<nat>) {
    && |at| == |gaps| && (forall i, j :: 0 <= i < j < |at| ==> at[i] < at[j])
    && (forall i :: 0 <= i < |at| ==> at[i] < |controls| && controls[at[i]] == gaps[i])
    && forall k :: 0 <= k < |controls| && controls[k].status != Satisfied ==> k in at
  }

  function Moved(at: seq<nat>): (r: seq<nat>)
    ensures |r| == |at| && forall i :: 0 <= i < |at| ==> r[i] == at[i] + 1
    ensures forall k: nat :: k in at ==> k + 1 in r
  {
    var r := seq(|at|, i requires 0 <= i < |at| => at[i] + 1);
    assert forall i :: 0 <= i < |at| ==> r[i] in r;
    r
  }

  lemma GapsMoved<C(!new)>(first: ControlReadback<C>, controls: seq<ControlReadback<C>>, gaps: seq<ControlReadback<C>>, at: seq<nat>)
    requires GapsAt(controls, gaps, at) && first.status == Satisfied
    ensures GapsAt([first] + controls, gaps, Moved(at))
  {
    var all := [first] + controls;
    forall k | 0 <= k < |all| && all[k].status != Satisfied ensures k in Moved(at) {
      assert controls[k - 1] == all[k] && k - 1 in at;
    }
  }

  lemma GapsFirst<C(!new)>(first: ControlReadback<C>, controls: seq<ControlReadback<C>>, gaps: seq<ControlReadback<C>>, at: seq<nat>)
    requires GapsAt(controls, gaps, at) && first.status != Satisfied
    ensures GapsAt([first] + controls, [first] + gaps, [0] + Moved(at))
  {
    var all, moved := [first] + controls, Moved(at);
    var places := [0] + moved;
    forall i | 0 <= i < |places| ensures places[i] < |all| && all[places[i]] == ([first] + gaps)[i] {
      if i > 0 { assert places[i] == moved[i - 1] == at[i - 1] + 1; }
    }
    forall k | 0 <= k < |all| && all[k].status != Satisfied ensures k in places {
      if k > 0 { assert controls[k - 1] == all[k] && k - 1 in at && k in moved; }
    }
  }

  /** The gaps are the unsatisfied controls, in the order in which they are listed. */
  lemma {:induction false} GapsInOrder<C(!new)>(controls: seq<ControlReadback<C>>) returns (at: seq<nat>)
    ensures GapsAt(controls, Gaps(controls), at)
  {
    if controls == [] {
      at := [];
    } else {
      hide GapsAt;
      var rest := GapsInOrder(controls[1..]);
      var gaps := Gaps(controls[1..]);
      assert controls == [controls[0]] + controls[1..];
      if controls[0].status == Satisfied {
        GapsMoved(controls[0], controls[1..], gaps, rest);
        at := Moved(rest);
        assert [] + gaps == gaps;
      } else {
        GapsFirst(controls[0], controls[1..], gaps, rest);
        at := [0] + Moved(rest);
      }
    }
  }

  /** The controls a valid readback calls satisfied contain all prerequisites of each of them. */
  lemma SatisfiedClosed<C(!new)>(catalogue: Catalogue<C>, plan: HP.HandoffPlan<C>, r: Readback<C>, window: Window,
    env: Env<C>)
    requires ReadbackValid(catalogue, plan, r, window, env)
    ensures Closed(catalogue, SatisfiedSet(r))
  {
    forall c, p | c in SatisfiedSet(r) && p in catalogue.prerequisites(c) ensures p in SatisfiedSet(r) {
      SatisfiedIsSupported(catalogue, plan, r, c);
    }
  }

  /** A satisfied control has every transitive prerequisite satisfied, each on live evidence from
      the responsible owner, and the chain to it is no longer than the catalogue. */
  lemma SatisfiedTransitively<C(!new)>(catalogue: Catalogue<C>, plan: HP.HandoffPlan<C>, r: Readback<C>, window: Window,
    env: Env<C>, chain: seq<C>)
    requires ReadbackValid(catalogue, plan, r, window, env) && WellOrdered(catalogue)
    requires Chain(catalogue, chain) && IsSatisfied(r, chain[0])
    ensures |chain| <= |catalogue.order| && Distinct(chain)
    ensures forall k :: 0 <= k < |chain| ==> IsSatisfied(r, chain[k]) && Supported(catalogue, r, ObservedOf(r)[chain[k]])
  {
    SatisfiedClosed(catalogue, plan, r, window, env);
    ClosedAlongChain(catalogue, SatisfiedSet(r), chain);
    forall k | 0 <= k < |chain| ensures Supported(catalogue, r, ObservedOf(r)[chain[k]]) {
      SatisfiedIsSupported(catalogue, plan, r, chain[k]);
    }
    var i :| 0 <= i < |catalogue.order| && catalogue.order[i] == chain[0];
    ChainDescends(catalogue, chain, i);
    ChainDistinct(catalogue, chain);
  }

  lemma {:induction false} ChainDistinct<C(!new)>(catalogue: Catalogue<C>, chain: seq<C>)
    requires WellOrdered(catalogue) && Chain(catalogue, chain)
    ensures Distinct(chain)
    decreases |chain|
  {
    var i :| 0 <= i < |catalogue.order| && catalogue.order[i] == chain[0];
    ChainDescends(catalogue, chain, i);
    assert chain[0] !in catalogue.order[..i];
    if |chain| > 1 {
      var rest := chain[1..];
      assert rest[0] in catalogue.order[..i];
      assert Chain(catalogue, rest) by {
        forall k | 0 < k < |rest| ensures rest[k] in catalogue.prerequisites(rest[k - 1]) {
          assert chain[k + 1] in catalogue.prerequisites(chain[k]);
        }
      }
      ChainDistinct(catalogue, rest);
      forall a, b | 0 <= a < b < |chain| ensures chain[a] != chain[b] {
        if a > 0 { assert rest[a - 1] != rest[b - 1]; }
      }
    }
  }

  /** On the real catalogue, production readiness cannot be reported satisfied with any control but
      the open-source decision unsatisfied. */
  lemma ProductionNeedsEverything(plan: HP.HandoffPlan<ControlId>, r: Readback<ControlId>, window: Window,
    env: Env<ControlId>)
    requires ReadbackValid(RealCatalogue(), plan, r, window, env)
    requires IsSatisfied(r, ProductionReadiness)
    ensures forall c: ControlId :: c != OpenSourcePreflight ==> IsSatisfied(r, c)
  {
    SatisfiedClosed(RealCatalogue(), plan, r, window, env);
    ProductionForces(SatisfiedSet(r));
  }

  /** The canary alone passes the whole scan behind a claim of human review: all 24 required
      controls and every target binding, the source owner among them. */
  lemma CanaryPassesScan(plan: HP.HandoffPlan<ControlId>, r: Readback<ControlId>, window: Window,
    env: Env<ControlId>)
    requires ReadbackValid(RealCatalogue(), plan, r, window, env)
    requires IsSatisfied(r, AppBackedSandboxCanary)
    ensures HumanReviewSupported(RealCatalogue(), plan, r)
    ensures forall b :: b in ALL_BINDINGS ==> Present(r.target, b)
  {
    var catalogue := RealCatalogue();
    SatisfiedClosed(catalogue, plan, r, window, env);
    CanaryForces(SatisfiedSet(r));
    forall c | IsSatisfied(r, c) ensures ScanPasses(catalogue, r, c) && r.source == AuthenticatedLiveCurrent {
      SatisfiedIsSupported(catalogue, plan, r, c);
    }
    BindingsCovered(r);
  }

  lemma BindingsCovered(r: Readback<ControlId>)
    requires ScanPasses(RealCatalogue(), r, AppBackedSandboxCanary) && ScanPasses(RealCatalogue(), r, AppOwnershipTransfer)
    ensures forall b :: b in ALL_BINDINGS ==> Present(r.target, b)
  {
    hide IsSatisfied;
    hide DetailsOf;
    hide TermsOf;
    hide Prerequisites;
    hide Order;
    forall b | b in ALL_BINDINGS ensures Present(r.target, b) {
      if b == SourceOwner {
        assert SourceOwner in RealCatalogue().bindings(AppOwnershipTransfer);
      } else {
        InEveryLiveBinding(b);
        assert b in RealCatalogue().bindings(AppBackedSandboxCanary);
      }
    }
  }

  lemma InEveryLiveBinding(b: Binding)
    requires b != SourceOwner
    ensures b in EVERY_LIVE_BINDING
  {
    var all := EVERY_LIVE_BINDING;
    assert all[0] == Owner && all[1] == Repository && all[2] == Project && all[3] == Environment;
    assert all[4] == Ruleset && all[5] == App && all[6] == Installation && all[7] == BillingAccount;
  }

  lemma CanaryIsScanned(plan: HP.HandoffPlan<ControlId>, r: Readback<ControlId>)
    requires HumanReviewSupported(RealCatalogue(), plan, r) && AppBackedSandboxCanary in HP.Ids(plan.controls)
    ensures IsSatisfied(r, AppBackedSandboxCanary)
  {
    hide IsSatisfied;
    assert AppBackedSandboxCanary !in RealCatalogue().appBackedExcluded;
    assert ScanPasses(RealCatalogue(), r, AppBackedSandboxCanary);
  }

  /** A valid readback may claim human review exactly when it reports the canary satisfied. */
  lemma HumanReviewExactly(plan: HP.HandoffPlan<ControlId>, r: Readback<ControlId>, window: Window,
    env: Env<ControlId>)
    requires ReadbackValid(RealCatalogue(), plan, r, window, env)
    ensures HumanReviewSupported(RealCatalogue(), plan, r) <==> IsSatisfied(r, AppBackedSandboxCanary)
  {
    hide HumanReviewSupported;
    hide IsSatisfied;
    hide HP.PlanTrusted;
    hide BoundaryKept;
    hide ControlsValid;
    HP.TrustedLists(RealCatalogue(), plan);
    if IsSatisfied(r, AppBackedSandboxCanary) { CanaryPassesScan(plan, r, window, env); }
    if HumanReviewSupported(RealCatalogue(), plan, r) {
      OrderComplete();
      CanaryIsScanned(plan, r);
    }
  }

  lemma {:induction false} RequiredCount<C(!new)>(catalogue: Catalogue<C>, ids: seq<C>)
    requires Distinct(ids)
    ensures |AppBackedRequired(catalogue, ids)| == |ids| - |ToSet(ids) * catalogue.appBackedExcluded|
  {
    if ids != [] {
      var rest := ids[1..];
      RequiredCount(catalogue, rest);
      var excluded := catalogue.appBackedExcluded;
      assert ToSet(ids) == ToSet(rest) + {ids[0]} && ids[0] !in rest;
      if ids[0] in excluded {
        assert ToSet(ids) * excluded == ToSet(rest) * excluded + {ids[0]};
      } else {
        assert ToSet(ids) * excluded == ToSet(rest) * excluded;
      }
    }
  }

  lemma CountWhenListed<C(!new)>(catalogue: Catalogue<C>, ids: seq<C>)
    requires Distinct(ids) && forall c :: c in catalogue.appBackedExcluded ==> c in ids
    ensures |AppBackedRequired(catalogue, ids)| == |ids| - |catalogue.appBackedExcluded|
  {
    RequiredCount(catalogue, ids);
    assert ToSet(ids) * catalogue.appBackedExcluded == catalogue.appBackedExcluded;
  }

  lemma ThreeExcluded()
    ensures |RealCatalogue().appBackedExcluded| == 3
  {
  }

  /** The scan covers 24 controls. */
  lemma ScanCovers24()
    ensures |AppBackedRequired(RealCatalogue(), RealCatalogue().order)| == 24
  {
    hide AppBackedRequired;
    OrderComplete();
    CountWhenListed(RealCatalogue(), Order());
    ThreeExcluded();
  }
}
