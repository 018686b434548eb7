/** A whole run of reconcileIssueTaxonomy (scripts/reconcile-issue-taxonomy.ts). */
module TaxonomyRun {
  import opened IssueTaxonomy
  import opened Ordering
  import opened TaxonomyReconciler
  import opened TaxonomyRepository
  import opened Wrappers
  import K = KeyedLists

  /** The issue named by an issues.opened event. */
  datatype EventIssue = EventIssue(number: int, id: int, nodeId: string, repositoryUrl: string, title: string)

  function ExpectedIssue(t: EventIssue): Issue { Issue(t.number, t.id, t.nodeId, t.repositoryUrl, t.title, true, []) }

  // ----- The label phase -----

  function LabelsApplied(env: Env, store: string -> string, w: World, labels: seq<TaxonomyLabel>): World {
    if labels == [] then w
    else LabelStep(env, store, LabelsApplied(env, store, w, labels[..|labels| - 1]), labels[|labels| - 1])
  }

  predicate ColoursUpper(env: Env, labels: seq<TaxonomyLabel>) {
    forall i :: 0 <= i < |labels| ==> env.upper(labels[i].color) == labels[i].color
  }

  predicate AllInPlace(env: Env, w: World, labels: seq<TaxonomyLabel>) {
    forall i :: 0 <= i < |labels| ==> InPlace(env, w, labels[i])
  }

  /** Different names, each its own key. */
  ghost predicate NamesAreKeys(env: Env, labels: seq<TaxonomyLabel>) {
    && (forall i :: 0 <= i < |labels| ==> env.lower(labels[i].name) == labels[i].name)
    && (forall i, j :: 0 <= i < j < |labels| ==> labels[i].name != labels[j].name)
  }

  lemma ConfigNamesAreKeys(env: Env, config: Config)
    requires ConfigValid(env, config) && EnvSound(env)
    ensures NamesAreKeys(env, config.labels)
  {
    hide LabelName;
    var labels := config.labels;
    assert forall i :: 0 <= i < 3 ==> labels[i].name == LabelName(CLASSES[i]);
    forall i, j | 0 <= i < j < 3 ensures labels[i].name != labels[j].name {
      assert CLASSES[i] != CLASSES[j];
      LabelNamesDiffer(CLASSES[i], CLASSES[j]);
    }
  }

  lemma StepInPlace(env: Env, store: string -> string, w: World, wanted: TaxonomyLabel, k: string)
    requires env.lower(wanted.name) == wanted.name && env.upper(wanted.color) == wanted.color
    requires forall colour :: env.upper(store(colour)) == env.upper(colour)
    ensures var after := LabelStep(env, store, w, wanted);
      && InPlace(env, after, wanted) && after.issues == w.issues && w.labels.Keys <= after.labels.Keys
      && (k != wanted.name ==> (k in after.labels <==> k in w.labels) && (k in w.labels ==> after.labels[k] == w.labels[k]))
  {
    assert env.upper(store(wanted.color)) == env.upper(wanted.color);
  }

  /** Afterwards every configured label is in place, and no other label was touched. */
  lemma {:induction false} LabelsAppliedExactly(env: Env, store: string -> string, w: World, labels: seq<TaxonomyLabel>, k: string)
    requires NamesAreKeys(env, labels) && ColoursUpper(env, labels)
    requires forall colour :: env.upper(store(colour)) == env.upper(colour)
    ensures var after := LabelsApplied(env, store, w, labels);
      && AllInPlace(env, after, labels) && after.issues == w.issues && w.labels.Keys <= after.labels.Keys
      && ((forall i :: 0 <= i < |labels| ==> labels[i].name != k) ==>
            (k in after.labels <==> k in w.labels) && (k in w.labels ==> after.labels[k] == w.labels[k]))
    decreases |labels|
  {
    if labels != [] {
      var n := |labels| - 1;
      var front, last := labels[..n], labels[n];
      LabelsAppliedExactly(env, store, w, front, k);
      var before := LabelsApplied(env, store, w, front);
      StepInPlace(env, store, before, last, k);
      var after := LabelStep(env, store, before, last);
      forall i | 0 <= i < |labels| ensures InPlace(env, after, labels[i]) {
        if i < n {
          assert InPlace(env, before, front[i]) && front[i] == labels[i];
          StepInPlace(env, store, before, last, labels[i].name);
        }
      }
    }
  }

  lemma {:induction false} InPlaceStays(env: Env, store: string -> string, w: World, labels: seq<TaxonomyLabel>)
    requires AllInPlace(env, w, labels)
    ensures LabelsApplied(env, store, w, labels) == w
  {
    if labels != [] {
      var front := labels[..|labels| - 1];
      assert AllInPlace(env, w, front);
      InPlaceStays(env, store, w, front);
    }
  }

  /** The configured labels reconciled one after the other. */
  ghost predicate LabelsTrace(env: Env, labels: seq<TaxonomyLabel>, trace: seq<Event>)
    decreases |labels|
  {
    if labels == [] then trace == []
    else
      exists k :: 0 <= k <= |trace| &&
        LabelsTrace(env, labels[..|labels| - 1], trace[..k]) && LabelTrace(env, labels[|labels| - 1], trace[k..])
  }

  /** A label failed: those before it are done, those after it untouched. */
  ghost predicate LabelsStopped(env: Env, labels: seq<TaxonomyLabel>, trace: seq<Event>) {
    exists i, k :: 0 <= i < |labels| && 0 <= k <= |trace| &&
      LabelsTrace(env, labels[..i], trace[..k]) && LabelEvents(labels[i], trace[k..])
  }

  predicate SomeLabelEvent(labels: seq<TaxonomyLabel>, e: Event) { exists wanted :: wanted in labels && LabelEvent(wanted, e) }

  predicate LabelPhase(labels: seq<TaxonomyLabel>, trace: seq<Event>) { forall e :: e in trace ==> SomeLabelEvent(labels, e) }

  lemma NoLabelsYet(env: Env, labels: seq<TaxonomyLabel>, start: seq<Event>)
    ensures LabelsTrace(env, labels[..0], Since(start, start)) && LabelPhase(labels, Since(start, start))
  {
  }

  lemma MoreLabels(env: Env, labels: seq<TaxonomyLabel>, i: nat, start: seq<Event>, mid: seq<Event>, trace: seq<Event>)
    requires i < |labels| && start <= mid <= trace
    requires LabelPhase(labels, Since(mid, start)) && LabelEvents(labels[i], Since(trace, mid))
    ensures LabelPhase(labels, Since(trace, start))
    ensures LabelsTrace(env, labels[..i], Since(mid, start)) && LabelTrace(env, labels[i], Since(trace, mid)) ==>
      LabelsTrace(env, labels[..i + 1], Since(trace, start))
    ensures LabelsTrace(env, labels[..i], Since(mid, start)) ==> LabelsStopped(env, labels, Since(trace, start))
  {
    hide LabelTrace;
    hide LabelEvent;
    var all, k := Since(trace, start), |Since(mid, start)|;
    assert all[..k] == Since(mid, start) && all[k..] == Since(trace, mid);
    assert labels[..i + 1][..i] == labels[..i] && labels[i] in labels;
    forall e | e in all ensures SomeLabelEvent(labels, e) {
      var j :| 0 <= j < |all| && all[j] == e;
      if j < k { assert Since(mid, start)[j] == e; } else { assert Since(trace, mid)[j - k] == e; }
    }
  }

  /** An honest repository stands after the first i labels. */
  ghost predicate LabelsDone<S(!new)>(env: Env, h: Honesty<S>, session: Session<S>, w: World, labels: seq<TaxonomyLabel>, i: nat)
    requires i <= |labels|
    reads session
  {
    HonestAt(env, h, session, LabelsApplied(env, h.store, w, labels[..i])) && ColoursUpper(env, labels[..i])
  }

  method ReconcileNextLabel<S(!new)>(env: Env, session: Session<S>, labels: seq<TaxonomyLabel>, i: nat,
    ghost h: Honesty<S>, ghost w: World) returns (r: Result<(), Error>)
    requires EnvSound(env) && NamesAreKeys(env, labels) && i < |labels|
    modifies session`state, session`trace, session`writes
    ensures old(session.trace) <= session.trace && LabelEvents(labels[i], Since(session.trace, old(session.trace)))
    ensures r.Ok? ==> LabelTrace(env, labels[i], Since(session.trace, old(session.trace)))
    ensures old(LabelsDone(env, h, session, w, labels, i)) ==> (r.Ok? <==> env.upper(labels[i].color) == labels[i].color)
    ensures old(LabelsDone(env, h, session, w, labels, i)) && r.Ok? ==>
      LabelsDone(env, h, session, w, labels, i + 1) && (AllInPlace(env, w, labels) ==> session.writes == old(session.writes))
  {
    hide HonestAt;
    hide EnvSound;
    hide InPlace;
    hide LabelTrace;
    hide LabelEvents;
    hide Since;
    ghost var before := LabelsApplied(env, h.store, w, labels[..i]);
    assert labels[..i + 1][..i] == labels[..i];
    if AllInPlace(env, w, labels) {
      assert AllInPlace(env, w, labels[..i]);
      InPlaceStays(env, h.store, w, labels[..i]);
      assert InPlace(env, before, labels[i]);
    }
    r := ReconcileLabel(env, session, labels[i], h, before);
  }

  method ReconcileLabels<S(!new)>(env: Env, session: Session<S>, labels: seq<TaxonomyLabel>, ghost h: Honesty<S>, ghost w: World)
    returns (r: Result<(), Error>)
    requires EnvSound(env) && NamesAreKeys(env, labels)
    modifies session`state, session`trace, session`writes
    ensures old(session.trace) <= session.trace && LabelPhase(labels, Since(session.trace, old(session.trace)))
    ensures r.Ok? ==> LabelsTrace(env, labels, Since(session.trace, old(session.trace)))
    ensures r.Err? ==> LabelsStopped(env, labels, Since(session.trace, old(session.trace)))
    ensures old(HonestAt(env, h, session, w)) ==> (r.Ok? <==> ColoursUpper(env, labels))
    ensures old(HonestAt(env, h, session, w)) && r.Ok? ==> HonestAt(env, h, session, LabelsApplied(env, h.store, w, labels))
    ensures old(HonestAt(env, h, session, w)) && r.Ok? && AllInPlace(env, w, labels) ==> session.writes == old(session.writes)
  {
    hide HonestAt;
    hide EnvSound;
    hide NamesAreKeys;
    hide AllInPlace;
    hide LabelTrace;
    hide LabelsTrace;
    hide LabelsStopped;
    hide LabelEvents;
    hide LabelPhase;
    hide Since;
    ghost var honest, start := HonestAt(env, h, session, w), session.trace;
    NoLabelsYet(env, labels, start);
    for i := 0 to |labels|
      invariant start <= session.trace && LabelPhase(labels, Since(session.trace, start))
      invariant LabelsTrace(env, labels[..i], Since(session.trace, start))
      invariant honest ==> LabelsDone(env, h, session, w, labels, i)
      invariant honest && AllInPlace(env, w, labels) ==> session.writes == old(session.writes)
    {
      ghost var mid := session.trace;
      var done := ReconcileNextLabel(env, session, labels, i, h, w);
      MoreLabels(env, labels, i, start, mid, session.trace);
      if done.Err? { return done; }
    }
    assert labels[..|labels|] == labels;
    return Ok(());
  }

  // ----- The issue phase -----

  predicate Mapped(config: Config, issue: Issue) {
    issue.open && ClassifyIssue(config, issue.number, issue.title).Some?
  }

  /** What is said of the first issue that cannot be planned. */
  ghost predicate UnmappedError(config: Config, issues: seq<Issue>, error: Error) {
    exists i | 0 <= i < |issues| :: AllMapped(config, issues[..i]) && !Mapped(config, issues[i]) &&
      error == if issues[i].open then NoMapping else NotOpen
  }

  predicate AllMapped(config: Config, issues: seq<Issue>) {
    forall i :: 0 <= i < |issues| ==> Mapped(config, issues[i])
  }

  function ClassOf(config: Config, issue: Issue): Class {
    match ClassifyIssue(config, issue.number, issue.title)
    case Some(c) => c
    case None => CustomerEvaluation
  }

  function IssuesApplied(config: Config, w: World, planned: seq<Issue>): World {
    if planned == [] then w
    else
      var before, last := IssuesApplied(config, w, planned[..|planned| - 1]), planned[|planned| - 1];
      if last.number in before.issues then SettledWorld(before, last.number, ClassOf(config, last)) else before
  }

  lemma {:induction false} IssuesAppliedKeeps(config: Config, w: World, planned: seq<Issue>, n: int)
    ensures var after := IssuesApplied(config, w, planned);
      && after.labels == w.labels && after.issues.Keys == w.issues.Keys
      && (n in w.issues ==> after.issues[n] == w.issues[n].(keys := after.issues[n].keys))
      && (n in w.issues && (forall i :: 0 <= i < |planned| ==> planned[i].number != n) ==> after.issues[n] == w.issues[n])
    decreases |planned|
  {
    if planned != [] {
      var front := planned[..|planned| - 1];
      IssuesAppliedKeeps(config, w, front, n);
      assert forall i :: 0 <= i < |front| ==> front[i] == planned[i];
    }
  }

  ghost predicate AllPlannedIn(w: World, planned: seq<Issue>) {
    forall i :: 0 <= i < |planned| ==> PlannedIn(w, planned[i])
  }

  /** Each planned issue is settled once, from the keys it started with. */
  lemma {:induction false} IssuesAppliedExactly(config: Config, w: World, planned: seq<Issue>, i: nat)
    requires K.KeysDistinct(planned, Number()) && AllPlannedIn(w, planned) && i < |planned|
    ensures var n := planned[i].number;
      && n in w.issues && n in IssuesApplied(config, w, planned).issues
      && KeysOf(IssuesApplied(config, w, planned), n) == Settle(KeysOf(w, n), LabelName(ClassOf(config, planned[i])))
    decreases |planned|
  {
    hide Settle;
    var m := |planned| - 1;
    var front, last := planned[..m], planned[m];
    var n := planned[i].number;
    assert PlannedIn(w, planned[i]) && PlannedIn(w, last);
    assert K.Keys(front, Number()) == K.Keys(planned, Number())[..m];
    assert AllPlannedIn(w, front);
    assert forall j :: 0 <= j < m ==> K.Keys(planned, Number())[j] != K.Keys(planned, Number())[m];
    IssuesAppliedKeeps(config, w, front, last.number);
    if i < m {
      assert front[i] == planned[i];
      IssuesAppliedExactly(config, w, front, i);
      assert n != last.number;
    }
  }

  ghost predicate AllSettledIn(config: Config, w: World, planned: seq<Issue>) {
    forall i :: 0 <= i < |planned| ==>
      planned[i].number in w.issues &&
      Keep(InTaxonomy(), KeysOf(w, planned[i].number)) == [LabelName(ClassOf(config, planned[i]))]
  }

  lemma {:induction false} SettledIssuesStay(config: Config, w: World, planned: seq<Issue>)
    requires AllSettledIn(config, w, planned)
    ensures IssuesApplied(config, w, planned) == w
    decreases |planned|
  {
    hide Settle;
    if planned != [] {
      var last := planned[|planned| - 1];
      assert AllSettledIn(config, w, planned[..|planned| - 1]);
      SettledIssuesStay(config, w, planned[..|planned| - 1]);
      SettledStays(KeysOf(w, last.number), LabelName(ClassOf(config, last)));
    }
  }

  /** The planned issues reconciled one after the other. */
  ghost predicate IssuesTrace(env: Env, config: Config, planned: seq<Issue>, trace: seq<Event>)
    decreases |planned|
  {
    if planned == [] then trace == []
    else
      var last := planned[|planned| - 1];
      exists k :: 0 <= k <= |trace| &&
        IssuesTrace(env, config, planned[..|planned| - 1], trace[..k])
        && IssueTrace(env, config, last, ClassOf(config, last), trace[k..])
  }

  /** An issue failed: those before it are read back settled, those after it untouched. */
  ghost predicate IssuesStopped(env: Env, config: Config, planned: seq<Issue>, trace: seq<Event>) {
    exists i, k :: 0 <= i < |planned| && 0 <= k <= |trace| &&
      IssuesTrace(env, config, planned[..i], trace[..k])
      && IssueEvents(env, config, planned[i].number, ClassOf(config, planned[i]), trace[k..])
  }

  predicate PlannedEvent(env: Env, config: Config, planned: seq<Issue>, e: Event) {
    exists issue :: issue in planned && IssueEvent(env, config, issue.number, ClassOf(config, issue), e)
  }

  predicate IssuePhase(env: Env, config: Config, planned: seq<Issue>, trace: seq<Event>) {
    forall e :: e in trace ==> PlannedEvent(env, config, planned, e)
  }

  lemma NoIssuesYet(env: Env, config: Config, planned: seq<Issue>, start: seq<Event>)
    ensures IssuesTrace(env, config, planned[..0], Since(start, start)) && IssuePhase(env, config, planned, Since(start, start))
  {
  }

  lemma MoreIssues(env: Env, config: Config, planned: seq<Issue>, i: nat, start: seq<Event>, mid: seq<Event>, trace: seq<Event>)
    requires i < |planned| && start <= mid <= trace && IssuePhase(env, config, planned, Since(mid, start))
    requires IssueEvents(env, config, planned[i].number, ClassOf(config, planned[i]), Since(trace, mid))
    ensures IssuePhase(env, config, planned, Since(trace, start))
    ensures
      IssuesTrace(env, config, planned[..i], Since(mid, start))
      && IssueTrace(env, config, planned[i], ClassOf(config, planned[i]), Since(trace, mid)) ==>
      IssuesTrace(env, config, planned[..i + 1], Since(trace, start))
    ensures IssuesTrace(env, config, planned[..i], Since(mid, start)) ==> IssuesStopped(env, config, planned, Since(trace, start))
  {
    hide IssueTrace;
    hide IssueEvent;
    hide ClassOf;
    var all, k := Since(trace, start), |Since(mid, start)|;
    assert all[..k] == Since(mid, start) && all[k..] == Since(trace, mid);
    assert planned[..i + 1][..i] == planned[..i] && planned[i] in planned;
    forall e | e in all ensures PlannedEvent(env, config, planned, e) {
      var j :| 0 <= j < |all| && all[j] == e;
      if j < k { assert Since(mid, start)[j] == e; } else { assert Since(trace, mid)[j - k] == e; }
    }
  }

  ghost predicate IssuesReady<S(!new)>(env: Env, h: Honesty<S>, session: Session<S>, w: World, planned: seq<Issue>)
    reads session
  {
    HonestAt(env, h, session, w) && Labelled(w) && AllPlannedIn(w, planned)
  }

  lemma StillPlanned(config: Config, w: World, planned: seq<Issue>, i: nat)
    requires AllPlannedIn(w, planned) && i < |planned| && Labelled(w)
    ensures PlannedIn(IssuesApplied(config, w, planned[..i]), planned[i])
    ensures Labelled(IssuesApplied(config, w, planned[..i]))
  {
    assert PlannedIn(w, planned[i]);
    IssuesAppliedKeeps(config, w, planned[..i], planned[i].number);
  }

  lemma SettledSoFar(config: Config, w: World, planned: seq<Issue>, i: nat)
    requires AllSettledIn(config, w, planned) && i < |planned|
    ensures IssuesApplied(config, w, planned[..i]) == w && planned[i].number in w.issues
    ensures Keep(InTaxonomy(), KeysOf(w, planned[i].number)) == [LabelName(ClassOf(config, planned[i]))]
  {
    assert AllSettledIn(config, w, planned[..i]);
    SettledIssuesStay(config, w, planned[..i]);
  }

  /** An honest repository stands after the first i issues. */
  ghost predicate IssuesDone<S(!new)>(env: Env, config: Config, h: Honesty<S>, session: Session<S>, w: World, planned: seq<Issue>, i: nat)
    requires i <= |planned|
    reads session
  {
    HonestAt(env, h, session, IssuesApplied(config, w, planned[..i])) && Labelled(w) && AllPlannedIn(w, planned)
  }

  lemma DoneIsRun<S(!new)>(env: Env, config: Config, h: Honesty<S>, session: Session<S>, w: World, planned: seq<Issue>, i: nat)
    requires i < |planned| && IssuesDone(env, config, h, session, w, planned, i)
    ensures IssueRun(env, config, h, session, IssuesApplied(config, w, planned[..i]), planned[i])
  {
    StillPlanned(config, w, planned, i);
  }

  lemma RunIsDone<S(!new)>(env: Env, config: Config, h: Honesty<S>, session: Session<S>, w: World, planned: seq<Issue>, i: nat)
    requires i < |planned| && Labelled(w) && AllPlannedIn(w, planned)
    requires PlannedIn(IssuesApplied(config, w, planned[..i]), planned[i])
    requires HonestAt(env, h, session,
               SettledWorld(IssuesApplied(config, w, planned[..i]), planned[i].number, ClassOf(config, planned[i])))
    ensures IssuesDone(env, config, h, session, w, planned, i + 1)
  {
    StepApplies(config, w, planned, i);
  }

  method ReconcileNext<S(!new)>(env: Env, config: Config, session: Session<S>, planned: seq<Issue>, i: nat,
    ghost h: Honesty<S>, ghost w: World) returns (r: Result<(), Error>)
    requires ConfigValid(env, config) && EnvSound(env) && i < |planned|
    modifies session`state, session`trace, session`writes
    ensures old(session.trace) <= session.trace
    ensures IssueEvents(env, config, planned[i].number, ClassOf(config, planned[i]), Since(session.trace, old(session.trace)))
    ensures r.Ok? ==> IssueTrace(env, config, planned[i], ClassOf(config, planned[i]), Since(session.trace, old(session.trace)))
    ensures old(IssuesDone(env, config, h, session, w, planned, i)) ==>
      && r.Ok? && IssuesDone(env, config, h, session, w, planned, i + 1)
      && (AllSettledIn(config, w, planned) ==> session.writes == old(session.writes))
  {
    hide HonestAt;
    hide ConfigValid;
    hide EnvSound;
    hide PlannedIn;
    hide Labelled;
    hide LabelName;
    hide ClassOf;
    hide SettledWorld;
    hide IssueTrace;
    hide IssueEvents;
    ghost var honest := IssuesDone(env, config, h, session, w, planned, i);
    ghost var before := IssuesApplied(config, w, planned[..i]);
    if honest { DoneIsRun(env, config, h, session, w, planned, i); }
    if AllSettledIn(config, w, planned) { SettledSoFar(config, w, planned, i); }
    r := ReconcileIssue(env, config, session, planned[i], ClassOf(config, planned[i]), h, before);
    if honest { RunIsDone(env, config, h, session, w, planned, i); }
  }

  method ReconcileIssues<S(!new)>(env: Env, config: Config, session: Session<S>, planned: seq<Issue>,
    ghost h: Honesty<S>, ghost w: World) returns (r: Result<(), Error>)
    requires ConfigValid(env, config) && EnvSound(env)
    modifies session`state, session`trace, session`writes
    ensures old(session.trace) <= session.trace && IssuePhase(env, config, planned, Since(session.trace, old(session.trace)))
    ensures r.Ok? ==> IssuesTrace(env, config, planned, Since(session.trace, old(session.trace)))
    ensures r.Err? ==> IssuesStopped(env, config, planned, Since(session.trace, old(session.trace)))
    ensures old(IssuesReady(env, h, session, w, planned)) ==>
      && r.Ok? && HonestAt(env, h, session, IssuesApplied(config, w, planned))
      && (AllSettledIn(config, w, planned) ==> session.writes == old(session.writes))
  {
    hide HonestAt;
    hide ConfigValid;
    hide EnvSound;
    hide Labelled;
    hide AllPlannedIn;
    hide AllSettledIn;
    hide IssueTrace;
    hide IssuesTrace;
    hide IssuesStopped;
    hide IssueEvents;
    hide IssuePhase;
    hide Since;
    ghost var honest, start := IssuesReady(env, h, session, w, planned), session.trace;
    NoIssuesYet(env, config, planned, start);
    assert planned[..0] == [];
    for i := 0 to |planned|
      invariant start <= session.trace && IssuePhase(env, config, planned, Since(session.trace, start))
      invariant IssuesTrace(env, config, planned[..i], Since(session.trace, start))
      invariant honest ==> IssuesDone(env, config, h, session, w, planned, i)
      invariant honest && AllSettledIn(config, w, planned) ==> session.writes == old(session.writes)
    {
      ghost var mid := session.trace;
      var done := ReconcileNext(env, config, session, planned, i, h, w);
      MoreIssues(env, config, planned, i, start, mid, session.trace);
      if done.Err? { return done; }
    }
    assert planned[..|planned|] == planned;
    return Ok(());
  }

  lemma StepApplies(config: Config, w: World, planned: seq<Issue>, i: nat)
    requires i < |planned|
    ensures var before := IssuesApplied(config, w, planned[..i]);
      PlannedIn(before, planned[i]) ==>
      && planned[i].number in before.issues
      && IssuesApplied(config, w, planned[..i + 1]) == SettledWorld(before, planned[i].number, ClassOf(config, planned[i]))
  {
    assert planned[..i + 1][..i] == planned[..i];
  }

  // ----- The whole run -----

  function OpenNumbers(w: World): set<int> { set n | n in w.issues && w.issues[n].open }

  function StoredClass(config: Config, w: World, n: int): Option<Class>
    requires n in w.issues
  {
    ClassifyIssue(config, n, w.issues[n].title)
  }

  predicate TargetIn(w: World, t: EventIssue) { PlannedIn(w, ExpectedIssue(t)) }

  /** The issues to plan exist, are open, classified and few enough. */
  ghost predicate Plannable(config: Config, w: World, target: Option<EventIssue>) {
    match target
    case None =>
      |OpenNumbers(w)| <= config.maxOpenIssues && forall n :: n in OpenNumbers(w) ==> StoredClass(config, w, n).Some?
    case Some(t) =>
      TargetIn(w, t) && 1 <= config.maxOpenIssues && ClassifyIssue(config, t.number, t.title).Some?
  }

  /** What an honest repository answers to the first request. */
  ghost predicate ReadsPlan(w: World, target: Option<EventIssue>, planned: seq<Issue>) {
    match target
    case None => ListsOpen(w, planned)
    case Some(t) => TargetIn(w, t) && |planned| == 1 && Shows(w, planned[0]) && planned[0].number == t.number
  }

  lemma PlannedIsDistinct(w: World, target: Option<EventIssue>, planned: seq<Issue>)
    requires ReadsPlan(w, target, planned)
    ensures K.KeysDistinct(planned, Number()) && AllPlannedIn(w, planned)
  {
    forall i | 0 <= i < |planned| ensures PlannedIn(w, planned[i]) { assert planned[i] in planned; }
  }

  lemma ListCount(w: World, issues: seq<Issue>)
    requires ListsOpen(w, issues)
    ensures |issues| == |OpenNumbers(w)|
  {
    var numbers := K.Keys(issues, Number());
    SetSizeTellsDistinct(numbers);
    assert ToSet(numbers) == OpenNumbers(w) by {
      forall n ensures n in ToSet(numbers) <==> n in OpenNumbers(w) {
        K.KeyListed(issues, Number(), n);
        if i :| i in issues && Number()(i) == n { assert Shows(w, i); }
      }
    }
  }

  lemma PlannableExactly(config: Config, w: World, target: Option<EventIssue>, planned: seq<Issue>)
    requires ReadsPlan(w, target, planned)
    ensures Plannable(config, w, target) <==> |planned| <= config.maxOpenIssues && AllMapped(config, planned)
  {
    if target == None {
      ListCount(w, planned);
      if AllMapped(config, planned) {
        forall n | n in OpenNumbers(w) ensures StoredClass(config, w, n).Some? {
          K.KeyListed(planned, Number(), n);
          var issue :| issue in planned && Number()(issue) == n;
          var i :| 0 <= i < |planned| && planned[i] == issue;
          assert Mapped(config, planned[i]) && Shows(w, issue);
        }
      }
      if Plannable(config, w, target) {
        forall i | 0 <= i < |planned| ensures Mapped(config, planned[i]) {
          assert planned[i] in planned && Shows(w, planned[i]);
          assert planned[i].number in OpenNumbers(w);
        }
      }
    }
  }

  /** What the first request shows. */
  function FirstRead(target: Option<EventIssue>, planned: seq<Issue>): Event {
    if target.Some? && planned != [] then ReadIssue(target.value.number, planned[0]) else Listed(planned)
  }

  /** The first request: the open issues, or the one issue of the event. */
  method ReadTargets<S(!new)>(env: Env, session: Session<S>, target: Option<EventIssue>, ghost h: Honesty<S>, ghost w: World)
    returns (r: Result<seq<Issue>, Error>)
    modifies session`state, session`trace
    ensures old(session.trace) <= session.trace && forall e :: e in Since(session.trace, old(session.trace)) ==> !IsWrite(e)
    ensures r.Ok? ==> session.trace == old(session.trace) + [FirstRead(target, r.value)]
    ensures r.Ok? && target.Some? ==> |r.value| == 1 && Matches(ExpectedIssue(target.value), r.value[0])
    ensures old(HonestAt(env, h, session, w)) ==>
      (r.Ok? <==> (target.Some? ==> TargetIn(w, target.value)))
    ensures old(HonestAt(env, h, session, w)) && r.Ok? ==> HonestAt(env, h, session, w) && ReadsPlan(w, target, r.value)
  {
    hide WorldValid;
    if target == None {
      if HonestAt(env, h, session, w) { assert ListsHonestly(env, h, session.ops, session.state); }
      var listed := session.ListOpenIssues();
      return if listed.Some? then Ok(listed.value) else Err(RequestFailed);
    }
    var t := target.value;
    if HonestAt(env, h, session, w) { assert GetsIssueHonestly(env, h, session.ops, session.state, t.number); }
    var issue := session.GetIssue(t.number);
    if issue == None { return Err(RequestFailed); }
    if !Matches(ExpectedIssue(t), issue.value) { return Err(IssueChanged); }
    return Ok([issue.value]);
  }

  function Assignments(config: Config, planned: seq<Issue>): (r: seq<(int, Class)>)
    ensures |r| == |planned|
    ensures forall i :: 0 <= i < |planned| ==> r[i] == (planned[i].number, ClassOf(config, planned[i]))
  {
    seq(|planned|, i requires 0 <= i < |planned| => (planned[i].number, ClassOf(config, planned[i])))
  }

  /** Each planned issue in turn, with the class the configuration decides on. */
  ghost predicate AssignedAsDecided(config: Config, planned: seq<Issue>, classes: seq<(int, Class)>) {
    && |classes| == |planned|
    && forall i :: 0 <= i < |planned| ==>
      classes[i].0 == planned[i].number && Decided(config, planned[i].number, planned[i].title, classes[i].1)
  }

  lemma AssignmentsDecided(env: Env, config: Config, planned: seq<Issue>)
    requires ConfigValid(env, config) && AllMapped(config, planned)
    ensures AssignedAsDecided(config, planned, Assignments(config, planned))
  {
    hide ConfigValid;
    hide ClassifyIssue;
    hide Decided;
    forall i | 0 <= i < |planned| ensures Decided(config, planned[i].number, planned[i].title, ClassOf(config, planned[i])) {
      assert Mapped(config, planned[i]);
      ClassifyExactly(env, config, planned[i].number, planned[i].title);
    }
  }

  method PlanIssues(config: Config, issues: seq<Issue>) returns (r: Result<(), Error>)
    ensures r.Ok? <==> AllMapped(config, issues)
    ensures r.Err? ==> UnmappedError(config, issues, r.error)
  {
    for i := 0 to |issues|
      invariant AllMapped(config, issues[..i])
    {
      if !issues[i].open { return Err(NotOpen); }
      if ClassifyIssue(config, issues[i].number, issues[i].title) == None { return Err(NoMapping); }
      assert issues[..i + 1] == issues[..i] + [issues[i]];
    }
    assert issues[..|issues|] == issues;
    return Ok(());
  }

  /** Nothing is left to do: labels in place, every issue to plan already settled. */
  ghost predicate Quiet(env: Env, config: Config, w: World, target: Option<EventIssue>) {
    && AllInPlace(env, w, config.labels)
    && forall planned :: ReadsPlan(w, target, planned) ==> AllSettledIn(config, w, planned)
  }

  function Reconciled(env: Env, store: string -> string, config: Config, w: World, planned: seq<Issue>): World {
    IssuesApplied(config, LabelsApplied(env, store, w, config.labels), planned)
  }

  /** A whole run: the first read, the labels, the issues. */
  ghost predicate RunTrace(env: Env, config: Config, target: Option<EventIssue>, planned: seq<Issue>, trace: seq<Event>) {
    exists k :: 1 <= k <= |trace| &&
      trace[0] == FirstRead(target, planned)
      && LabelsTrace(env, config.labels, trace[1..k]) && IssuesTrace(env, config, planned, trace[k..])
  }

  /** A run that failed: nothing was written, or the labels stopped at one, or they are all done and
      the issues stopped at one. */
  ghost predicate RunStopped(env: Env, config: Config, target: Option<EventIssue>, planned: seq<Issue>, trace: seq<Event>) {
    || (forall e :: e in trace ==> !IsWrite(e))
    || (PlanRead(config, target, planned, trace) && LabelsStopped(env, config.labels, trace[1..]))
    || exists k :: 1 <= k <= |trace| && PlanRead(config, target, planned, trace)
         && LabelsTrace(env, config.labels, trace[1..k]) && IssuesStopped(env, config, planned, trace[k..])
  }

  /** The writes a run may ever make: a configured label created or updated, and on a planned issue
      its own taxonomy label added or another taxonomy label removed. */
  predicate Permitted(env: Env, config: Config, planned: seq<Issue>, e: Event) {
    IsWrite(e) ==> SomeLabelEvent(config.labels, e) || PlannedEvent(env, config, planned, e)
  }

  predicate AllPermitted(env: Env, config: Config, planned: seq<Issue>, trace: seq<Event>) {
    forall e :: e in trace ==> Permitted(env, config, planned, e)
  }

  /** The first read showed issues that can all be planned. */
  predicate PlanRead(config: Config, target: Option<EventIssue>, planned: seq<Issue>, trace: seq<Event>) {
    && AllMapped(config, planned) && |planned| <= config.maxOpenIssues
    && trace != [] && trace[0] == FirstRead(target, planned)
  }

  lemma PhasePermitted(env: Env, config: Config, planned: seq<Issue>, start: seq<Event>, mid: seq<Event>, trace: seq<Event>)
    requires start <= mid <= trace && AllPermitted(env, config, planned, Since(mid, start))
    requires LabelPhase(config.labels, Since(trace, mid)) || IssuePhase(env, config, planned, Since(trace, mid))
    ensures AllPermitted(env, config, planned, Since(trace, start))
  {
    hide SomeLabelEvent;
    hide PlannedEvent;
    var all, k := Since(trace, start), |Since(mid, start)|;
    forall e | e in all ensures Permitted(env, config, planned, e) {
      var j :| 0 <= j < |all| && all[j] == e;
      if j < k { assert Since(mid, start)[j] == e; } else { assert Since(trace, mid)[j - k] == e; }
    }
  }

  lemma RunDone(env: Env, config: Config, target: Option<EventIssue>, planned: seq<Issue>,
    start: seq<Event>, labelled: seq<Event>, trace: seq<Event>)
    requires var read := start + [FirstRead(target, planned)];
      && read <= labelled <= trace
      && LabelsTrace(env, config.labels, Since(labelled, read)) && IssuesTrace(env, config, planned, Since(trace, labelled))
    ensures start <= trace && RunTrace(env, config, target, planned, Since(trace, start))
  {
    hide LabelsTrace;
    hide IssuesTrace;
    var read, all, k := start + [FirstRead(target, planned)], Since(trace, start), |labelled| - |start|;
    assert all[1..k] == Since(labelled, read) && all[k..] == Since(trace, labelled);
  }

  lemma StoppedAtLabel(env: Env, config: Config, target: Option<EventIssue>, planned: seq<Issue>, start: seq<Event>, trace: seq<Event>)
    requires AllMapped(config, planned) && |planned| <= config.maxOpenIssues
    requires var read := start + [FirstRead(target, planned)];
      read <= trace && LabelsStopped(env, config.labels, Since(trace, read))
    ensures start <= trace && RunStopped(env, config, target, planned, Since(trace, start))
  {
    hide LabelsStopped;
    hide AllMapped;
    var read, all := start + [FirstRead(target, planned)], Since(trace, start);
    assert all[1..] == Since(trace, read);
  }

  lemma StoppedAtIssue(env: Env, config: Config, target: Option<EventIssue>, planned: seq<Issue>,
    start: seq<Event>, labelled: seq<Event>, trace: seq<Event>)
    requires AllMapped(config, planned) && |planned| <= config.maxOpenIssues
    requires var read := start + [FirstRead(target, planned)];
      && read <= labelled <= trace
      && LabelsTrace(env, config.labels, Since(labelled, read)) && IssuesStopped(env, config, planned, Since(trace, labelled))
    ensures start <= trace && RunStopped(env, config, target, planned, Since(trace, start))
  {
    hide LabelsTrace;
    hide IssuesStopped;
    hide AllMapped;
    var read, all, k := start + [FirstRead(target, planned)], Since(trace, start), |labelled| - |start|;
    assert all[1..k] == Since(labelled, read) && all[k..] == Since(trace, labelled);
  }

  lemma ReadsPermitted(env: Env, config: Config, planned: seq<Issue>, trace: seq<Event>)
    requires forall e :: e in trace ==> !IsWrite(e)
    ensures AllPermitted(env, config, planned, trace)
    ensures forall target :: RunStopped(env, config, target, planned, trace)
  {
  }

  /** The run; `planned` is what the first request returned. Whatever the repository is: every write
      is a permitted one; there is none at all unless the first read showed issues that can all be
      planned; a normal return means exactly the first read, the labels and the issues, each read
      back; and an error means the run stopped at the step that failed. On an honest one the run
      succeeds exactly when the issues can be planned and the configured colours are upper-case, and
      leaves exactly `Reconciled`. */
  method ReconcileIssueTaxonomy<S(!new)>(env: Env, config: Config, target: Option<EventIssue>, session: Session<S>,
    ghost h: Honesty<S>, ghost w: World) returns (r: Result<seq<(int, Class)>, Error>, ghost planned: seq<Issue>)
    requires ConfigValid(env, config) && EnvSound(env)
    modifies session`state, session`trace, session`writes
    ensures old(session.trace) <= session.trace && AllPermitted(env, config, planned, Since(session.trace, old(session.trace)))
    ensures session.writes != old(session.writes) ==> PlanRead(config, target, planned, Since(session.trace, old(session.trace)))
    ensures r.Ok? ==>
      && PlanRead(config, target, planned, Since(session.trace, old(session.trace)))
      && RunTrace(env, config, target, planned, Since(session.trace, old(session.trace)))
      && r.value == Assignments(config, planned) && AssignedAsDecided(config, planned, r.value)
    ensures r.Err? ==> RunStopped(env, config, target, planned, Since(session.trace, old(session.trace)))
    ensures planned != [] && |planned| > config.maxOpenIssues ==> r == Err(TooManyIssues)
    ensures |planned| <= config.maxOpenIssues && !AllMapped(config, planned) ==>
      r.Err? && UnmappedError(config, planned, r.error)
    ensures old(HonestAt(env, h, session, w)) ==> (r.Ok? <==> Plannable(config, w, target) && ColoursUpper(env, config.labels))
    ensures old(HonestAt(env, h, session, w)) && r.Ok? ==>
      ReadsPlan(w, target, planned) && HonestAt(env, h, session, Reconciled(env, h.store, config, w, planned))
    ensures old(HonestAt(env, h, session, w)) && r.Ok? && Quiet(env, config, w, target) ==> session.writes == old(session.writes)
  {
    hide HonestAt;
    hide EnvSound;
    hide ConfigValid;
    hide Plannable;
    hide ReadsPlan;
    hide Mapped;
    hide LabelsTrace;
    hide LabelPhase;
    hide IssuesTrace;
    hide IssuePhase;
    hide RunTrace;
    hide RunStopped;
    hide LabelsStopped;
    hide IssuesStopped;
    hide AllPermitted;
    hide AssignedAsDecided;
    hide UnmappedError;
    planned := [];
    ghost var honest, start := HonestAt(env, h, session, w), session.trace;
    UnreadTarget(config, w, target);
    var issues := ReadTargets(env, session, target, h, w);
    ReadsPermitted(env, config, if issues.Ok? then issues.value else [], Since(session.trace, start));
    if issues.Err? { return Err(issues.error), []; }
    planned := issues.value;
    ghost var read := session.trace;
    if honest { PlannableExactly(config, w, target, planned); }
    if |issues.value| > config.maxOpenIssues { return Err(TooManyIssues), planned; }
    var plan := PlanIssues(config, issues.value);
    if plan.Err? { return Err(plan.error), planned; }
    ConfigNamesAreKeys(env, config);
    var labelled := ReconcileLabels(env, session, config.labels, h, w);
    PhasePermitted(env, config, planned, start, read, session.trace);
    if labelled.Err? {
      StoppedAtLabel(env, config, target, planned, start, session.trace);
      return Err(labelled.error), planned;
    }
    ghost var ready, afterLabels := LabelsApplied(env, h.store, w, config.labels), session.trace;
    if honest { LabelledReady(env, h, session, config, w, target, planned); }
    if honest && Quiet(env, config, w, target) { InPlaceStays(env, h.store, w, config.labels); }
    var done := ReconcileIssues(env, config, session, issues.value, h, ready);
    PhasePermitted(env, config, planned, start, afterLabels, session.trace);
    if done.Err? {
      StoppedAtIssue(env, config, target, planned, start, afterLabels, session.trace);
      return Err(done.error), planned;
    }
    RunDone(env, config, target, planned, start, afterLabels, session.trace);
    AssignmentsDecided(env, config, planned);
    return Ok(Assignments(config, issues.value)), planned;
  }

  lemma UnreadTarget(config: Config, w: World, target: Option<EventIssue>)
    ensures target.Some? && Plannable(config, w, target) ==> TargetIn(w, target.value)
  {
  }

  /** After the label phase an honest repository is ready for every planned issue. */
  lemma LabelledReady<S(!new)>(env: Env, h: Honesty<S>, session: Session<S>, config: Config, w: World,
    target: Option<EventIssue>, planned: seq<Issue>)
    requires ConfigValid(env, config) && EnvSound(env) && ColoursUpper(env, config.labels)
    requires ReadsPlan(w, target, planned)
    requires HonestAt(env, h, session, LabelsApplied(env, h.store, w, config.labels))
    ensures IssuesReady(env, h, session, LabelsApplied(env, h.store, w, config.labels), planned)
  {
    var ready := LabelsApplied(env, h.store, w, config.labels);
    ReadyWorld(env, h.store, config, w, planned, target);
  }

  lemma ReadyWorld(env: Env, store: string -> string, config: Config, w: World, planned: seq<Issue>, target: Option<EventIssue>)
    requires ConfigValid(env, config) && EnvSound(env) && ColoursUpper(env, config.labels)
    requires forall colour :: env.upper(store(colour)) == env.upper(colour)
    requires ReadsPlan(w, target, planned)
    ensures var ready := LabelsApplied(env, store, w, config.labels);
      Labelled(ready) && AllPlannedIn(ready, planned) && ready.issues == w.issues
  {
    var ready := LabelsApplied(env, store, w, config.labels);
    ConfigNamesAreKeys(env, config);
    LabelsAppliedExactly(env, store, w, config.labels, "");
    PlannedIsDistinct(w, target, planned);
    forall i | 0 <= i < |planned| ensures PlannedIn(ready, planned[i]) { assert PlannedIn(w, planned[i]); }
    forall c ensures LabelName(c) in ready.labels && ready.labels[LabelName(c)].name == LabelName(c) {
      var i := if c == CustomerEvaluation then 0 else if c == MaintainerDevelopment then 1 else 2;
      assert CLASSES[i] == c && config.labels[i].name == LabelName(CLASSES[i]);
      assert InPlace(env, ready, config.labels[i]);
    }
  }

  // ----- What the last reads show -----

  /** No later planned issue has the same number. */
  predicate LastOf(planned: seq<Issue>, i: nat)
    requires i < |planned|
  {
    forall j :: i < j < |planned| ==> planned[j].number != planned[i].number
  }

  /** The last two answers match the plan, and the last is settled against the one before it. */
  ghost predicate EndsSettled(env: Env, config: Config, planned: Issue, seen: seq<Issue>) {
    && |seen| >= 2 && Matches(planned, seen[|seen| - 1]) && Matches(planned, seen[|seen| - 2])
    && Settled(env, TaxonomyNames(env, config), LabelName(ClassOf(config, planned)),
               seen[|seen| - 2].labels, seen[|seen| - 1].labels)
  }

  /** The last two reads of the issue in the trace do. */
  ghost predicate LastReadsSettled(env: Env, config: Config, planned: Issue, trace: seq<Event>) {
    EndsSettled(env, config, planned, ReadsOf(trace, planned.number))
  }

  lemma OneRead(e: Event, number: int)
    ensures ReadsOf([e], number) == if e.ReadIssue? && e.number == number then [e.issue] else []
  {
    assert [e][..0] == [];
  }

  lemma ReadsAround(first: Event, writes: seq<Event>, last: Event, number: int)
    requires forall e :: e in writes ==> !e.ReadIssue?
    ensures ReadsOf([first] + writes + [last], number) == ReadsOf([first], number) + ReadsOf([last], number)
  {
    hide ReadsOf;
    NoReads(writes, number);
    ReadsOfBoth([first] + writes, [last], number);
    ReadsOfBoth([first], writes, number);
  }

  lemma IssueTraceReads(env: Env, config: Config, planned: Issue, c: Class, trace: seq<Event>, number: int)
    requires IssueTrace(env, config, planned, c, trace)
    ensures ReadsOf(trace, number) ==
      if number == planned.number then [trace[0].issue, trace[|trace| - 1].issue] else []
  {
    hide Settled;
    hide IssueWrites;
    hide Matches;
    hide ReadsOf;
    var n := |trace| - 1;
    var writes := trace[1..n];
    WritesAreEvents(env, config, planned.number, c, trace[0].issue.labels, writes);
    assert trace == [trace[0]] + writes + [trace[n]];
    ReadsAround(trace[0], writes, trace[n], number);
    OneRead(trace[0], number);
    OneRead(trace[n], number);
  }

  lemma EndsWithTwo(env: Env, config: Config, planned: Issue, seen: seq<Issue>, trace: seq<Event>)
    requires IssueTrace(env, config, planned, ClassOf(config, planned), trace)
    ensures EndsSettled(env, config, planned, seen + [trace[0].issue, trace[|trace| - 1].issue])
  {
    hide Settled;
    hide Matches;
    hide IssueWrites;
    hide ClassOf;
  }

  /** The issue reconciled last. */
  lemma SettledHere(env: Env, config: Config, planned: Issue, before: seq<Event>, trace: seq<Event>)
    requires IssueTrace(env, config, planned, ClassOf(config, planned), trace)
    ensures LastReadsSettled(env, config, planned, before + trace)
  {
    hide EndsSettled;
    hide ReadsOf;
    hide ClassOf;
    hide IssueWrites;
    hide Settled;
    hide Matches;
    IssueTraceReads(env, config, planned, ClassOf(config, planned), trace, planned.number);
    ReadsOfBoth(before, trace, planned.number);
    EndsWithTwo(env, config, planned, ReadsOf(before, planned.number), trace);
  }

  /** An issue reconciled earlier, and not read since. */
  lemma SettledBefore(env: Env, config: Config, planned: Issue, before: seq<Event>, other: Issue, c: Class, trace: seq<Event>)
    requires LastReadsSettled(env, config, planned, before) && other.number != planned.number
    requires IssueTrace(env, config, other, c, trace)
    ensures LastReadsSettled(env, config, planned, before + trace)
  {
    hide EndsSettled;
    hide ReadsOf;
    hide IssueTrace;
    IssueTraceReads(env, config, other, c, trace, planned.number);
    ReadsOfBoth(before, trace, planned.number);
    assert ReadsOf(before, planned.number) + [] == ReadsOf(before, planned.number);
  }

  lemma {:induction false} IssuesTraceSettled(env: Env, config: Config, planned: seq<Issue>, trace: seq<Event>, i: nat)
    requires IssuesTrace(env, config, planned, trace) && i < |planned| && LastOf(planned, i)
    ensures LastReadsSettled(env, config, planned[i], trace)
    decreases |planned|
  {
    hide LastReadsSettled;
    hide ClassOf;
    hide IssueTrace;
    var m := |planned| - 1;
    var front, last := planned[..m], planned[m];
    var k :| 0 <= k <= |trace| && IssuesTrace(env, config, front, trace[..k])
      && IssueTrace(env, config, last, ClassOf(config, last), trace[k..]);
    assert trace == trace[..k] + trace[k..];
    if i < m {
      assert LastOf(front, i) by {
        forall j | i < j < |front| ensures front[j].number != front[i].number { assert planned[j].number != planned[i].number; }
      }
      IssuesTraceSettled(env, config, front, trace[..k], i);
      SettledBefore(env, config, planned[i], trace[..k], last, ClassOf(config, last), trace[k..]);
    } else {
      SettledHere(env, config, last, trace[..k], trace[k..]);
    }
  }

  /** Whatever the repository is, after a normal return the last read of each planned issue showed its
      one taxonomy label, and the other labels as the read before it. */
  lemma RunShowsSettled(env: Env, config: Config, target: Option<EventIssue>, planned: seq<Issue>, trace: seq<Event>, i: nat)
    requires RunTrace(env, config, target, planned, trace) && i < |planned| && LastOf(planned, i)
    ensures LastReadsSettled(env, config, planned[i], trace)
  {
    hide LabelsTrace;
    hide IssuesTrace;
    hide ReadsOf;
    var k :| 1 <= k <= |trace| && LabelsTrace(env, config.labels, trace[1..k]) && IssuesTrace(env, config, planned, trace[k..]);
    IssuesTraceSettled(env, config, planned, trace[k..], i);
    assert trace == trace[..k] + trace[k..];
    ReadsOfBoth(trace[..k], trace[k..], planned[i].number);
    EndsAlike(env, config, planned[i], ReadsOf(trace[..k], planned[i].number), ReadsOf(trace[k..], planned[i].number));
  }

  lemma EndsAlike(env: Env, config: Config, planned: Issue, seen: seq<Issue>, more: seq<Issue>)
    requires EndsSettled(env, config, planned, more)
    ensures EndsSettled(env, config, planned, seen + more)
  {
    hide Settled;
    hide Matches;
    hide ClassOf;
  }

  // ----- Main results -----

  /** A valid configuration, JavaScript's case mappings, a valid world, and what an honest repository
      read from it: the circumstances of a successful honest run. */
  ghost predicate HonestRun(env: Env, store: string -> string, config: Config, w: World, target: Option<EventIssue>, planned: seq<Issue>) {
    && ConfigValid(env, config) && EnvSound(env) && ColoursUpper(env, config.labels)
    && (forall colour :: env.upper(store(colour)) == env.upper(colour))
    && WorldValid(env, w) && ReadsPlan(w, target, planned)
  }

  lemma ReconciledKeys(env: Env, store: string -> string, config: Config, w: World, target: Option<EventIssue>,
    planned: seq<Issue>, i: nat)
    requires HonestRun(env, store, config, w, target, planned) && i < |planned|
    ensures var after, n := Reconciled(env, store, config, w, planned), planned[i].number;
      && n in w.issues && n in after.issues
      && KeysOf(after, n) == Settle(KeysOf(w, n), LabelName(ClassOf(config, planned[i])))
      && after.issues[n] == w.issues[n].(keys := KeysOf(after, n))
  {
    hide Settle;
    ReadyWorld(env, store, config, w, planned, target);
    PlannedIsDistinct(w, target, planned);
    var ready := LabelsApplied(env, store, w, config.labels);
    IssuesAppliedExactly(config, ready, planned, i);
    IssuesAppliedKeeps(config, ready, planned, planned[i].number);
  }

  /** A successful honest run leaves each planned issue with exactly its one taxonomy label and its
      other labels as they were, in order. */
  lemma ReconciledSettles(env: Env, store: string -> string, config: Config, w: World, target: Option<EventIssue>,
    planned: seq<Issue>, i: nat)
    requires HonestRun(env, store, config, w, target, planned) && i < |planned|
    ensures var after, n := Reconciled(env, store, config, w, planned), planned[i].number;
      && n in w.issues && n in after.issues
      && Keep(InTaxonomy(), KeysOf(after, n)) == [LabelName(ClassOf(config, planned[i]))]
      && Keep(OutsideTaxonomy(), KeysOf(after, n)) == Keep(OutsideTaxonomy(), KeysOf(w, n))
  {
    hide Settle;
    hide Reconciled;
    ReconciledKeys(env, store, config, w, target, planned, i);
    SnapshotExists(env, w, planned[i].number);
    TaxKeyOf(ClassOf(config, planned[i]));
    SettleSettles(KeysOf(w, planned[i].number), LabelName(ClassOf(config, planned[i])));
  }

  /** It touches no other issue and no label outside the taxonomy, and changes nothing but labels. */
  lemma ReconciledTouchesNothingElse(env: Env, store: string -> string, config: Config, w: World, target: Option<EventIssue>,
    planned: seq<Issue>, n: int, k: string)
    requires HonestRun(env, store, config, w, target, planned)
    ensures var after := Reconciled(env, store, config, w, planned);
      && after.issues.Keys == w.issues.Keys
      && (n in w.issues ==> after.issues[n].(keys := w.issues[n].keys) == w.issues[n])
      && (n in w.issues && (forall i :: 0 <= i < |planned| ==> planned[i].number != n) ==> after.issues[n] == w.issues[n])
      && ((forall i :: 0 <= i < |config.labels| ==> config.labels[i].name != k) ==>
            (k in after.labels <==> k in w.labels) && (k in w.labels ==> after.labels[k] == w.labels[k]))
  {
    ConfigNamesAreKeys(env, config);
    LabelsAppliedExactly(env, store, w, config.labels, k);
    IssuesAppliedKeeps(config, LabelsApplied(env, store, w, config.labels), planned, n);
  }

  /** Reading the reconciled world again yields the same issues to plan. */
  lemma SameToPlan(env: Env, store: string -> string, config: Config, w: World, target: Option<EventIssue>,
    planned: seq<Issue>, again: seq<Issue>, i: nat) returns (j: nat)
    requires HonestRun(env, store, config, w, target, planned)
    requires ReadsPlan(Reconciled(env, store, config, w, planned), target, again) && i < |again|
    ensures j < |planned| && planned[j].number == again[i].number && ClassOf(config, planned[j]) == ClassOf(config, again[i])
  {
    hide Reconciled;
    hide ClassifyIssue;
    hide WorldValid;
    hide ConfigValid;
    hide EnvSound;
    hide ColoursUpper;
    var after := Reconciled(env, store, config, w, planned);
    var n := again[i].number;
    ReconciledTouchesNothingElse(env, store, config, w, target, planned, n, "");
    assert again[i] in again && Shows(after, again[i]);
    if target == None {
      K.KeyListed(planned, Number(), n);
      var issue :| issue in planned && Number()(issue) == n;
      j :| 0 <= j < |planned| && planned[j] == issue;
    } else {
      j := 0;
    }
    assert planned[j] in planned && Shows(w, planned[j]);
  }

  /** After a successful honest run nothing is left to do, and another run is accepted. */
  lemma ReconciledIsQuiet(env: Env, store: string -> string, config: Config, w: World, target: Option<EventIssue>, planned: seq<Issue>)
    requires HonestRun(env, store, config, w, target, planned) && Plannable(config, w, target)
    ensures var after := Reconciled(env, store, config, w, planned);
      Quiet(env, config, after, target) && Plannable(config, after, target)
  {
    hide WorldValid;
    hide Settle;
    var after := Reconciled(env, store, config, w, planned);
    ReconciledLabels(env, store, config, w, target, planned);
    forall again: seq<Issue> | ReadsPlan(after, target, again) ensures AllSettledIn(config, after, again) {
      forall i | 0 <= i < |again|
        ensures again[i].number in after.issues
        ensures Keep(InTaxonomy(), KeysOf(after, again[i].number)) == [LabelName(ClassOf(config, again[i]))]
      {
        var j := SameToPlan(env, store, config, w, target, planned, again, i);
        ReconciledSettles(env, store, config, w, target, planned, j);
      }
    }
    StillPlannable(env, store, config, w, target, planned);
  }

  lemma ReconciledLabels(env: Env, store: string -> string, config: Config, w: World, target: Option<EventIssue>, planned: seq<Issue>)
    requires HonestRun(env, store, config, w, target, planned)
    ensures AllInPlace(env, Reconciled(env, store, config, w, planned), config.labels)
  {
    ConfigNamesAreKeys(env, config);
    LabelsAppliedExactly(env, store, w, config.labels, "");
    IssuesAppliedKeeps(config, LabelsApplied(env, store, w, config.labels), planned, 0);
  }

  lemma StillPlannable(env: Env, store: string -> string, config: Config, w: World, target: Option<EventIssue>, planned: seq<Issue>)
    requires HonestRun(env, store, config, w, target, planned) && Plannable(config, w, target)
    ensures Plannable(config, Reconciled(env, store, config, w, planned), target)
  {
    hide Reconciled;
    hide ClassifyIssue;
    hide WorldValid;
    hide ReadsPlan;
    var after := Reconciled(env, store, config, w, planned);
    forall n | n in w.issues || n in after.issues
      ensures n in w.issues && n in after.issues && after.issues[n].(keys := w.issues[n].keys) == w.issues[n]
    {
      ReconciledTouchesNothingElse(env, store, config, w, target, planned, n, "");
    }
    assert OpenNumbers(after) == OpenNumbers(w);
  }

  /** A world in which nothing is left to do is its own reconciled world. */
  lemma QuietIsFixed(env: Env, store: string -> string, config: Config, w: World, target: Option<EventIssue>, planned: seq<Issue>)
    requires Quiet(env, config, w, target) && ReadsPlan(w, target, planned)
    ensures Reconciled(env, store, config, w, planned) == w
  {
    InPlaceStays(env, store, w, config.labels);
    SettledIssuesStay(config, w, planned);
  }

  /** Reconciling is idempotent: whatever is read from the reconciled world, another run can be
      planned on it and leaves it as it is. */
  lemma ReconciledIsFixed(env: Env, store: string -> string, config: Config, w: World, target: Option<EventIssue>,
    planned: seq<Issue>, again: seq<Issue>)
    requires HonestRun(env, store, config, w, target, planned) && Plannable(config, w, target)
    requires ReadsPlan(Reconciled(env, store, config, w, planned), target, again)
    ensures Plannable(config, Reconciled(env, store, config, w, planned), target)
    ensures Reconciled(env, store, config, Reconciled(env, store, config, w, planned), again) == Reconciled(env, store, config, w, planned)
  {
    hide Reconciled;
    hide Quiet;
    hide ReadsPlan;
    ReconciledIsQuiet(env, store, config, w, target, planned);
    QuietIsFixed(env, store, config, Reconciled(env, store, config, w, planned), target, again);
  }

  /** A run on the world an earlier one left, on an honest repository: it reads everything again,
      succeeds, writes nothing and leaves the world as it is. */
  method SecondRun<S(!new)>(env: Env, config: Config, target: Option<EventIssue>, session: Session<S>,
    ghost h: Honesty<S>, ghost w: World, ghost planned: seq<Issue>)
    returns (r: Result<seq<(int, Class)>, Error>, ghost again: seq<Issue>)
    requires HonestRun(env, h.store, config, w, target, planned) && Plannable(config, w, target)
    requires HonestAt(env, h, session, Reconciled(env, h.store, config, w, planned))
    modifies session`state, session`trace, session`writes
    ensures r.Ok? && r.value == Assignments(config, again) && session.writes == old(session.writes)
    ensures HonestAt(env, h, session, Reconciled(env, h.store, config, w, planned))
    ensures old(session.trace) <= session.trace && RunTrace(env, config, target, again, Since(session.trace, old(session.trace)))
  {
    hide HonestAt;
    hide Plannable;
    hide Quiet;
    hide Reconciled;
    hide ConfigValid;
    hide EnvSound;
    hide ColoursUpper;
    hide RunTrace;
    hide AllPermitted;
    hide PlanRead;
    hide ReadsPlan;
    hide Since;
    ghost var after := Reconciled(env, h.store, config, w, planned);
    ReconciledIsQuiet(env, h.store, config, w, target, planned);
    r, again := ReconcileIssueTaxonomy(env, config, target, session, h, after);
    QuietIsFixed(env, h.store, config, after, target, again);
  }

  /** Some stored label passes the readback check exactly for an upper-case configured colour:
      the check after writing compares the upper-cased colour with it. */
  lemma ColourConfirmable(env: Env, wanted: TaxonomyLabel)
    requires forall x :: env.upper(env.upper(x)) == env.upper(x)
    ensures (exists found: Label :: LabelExact(env, wanted, found)) <==> env.upper(wanted.color) == wanted.color
  {
    if env.upper(wanted.color) == wanted.color {
      assert LabelExact(env, wanted, Label(wanted.name, wanted.color, wanted.description));
    }
    if found: Label :| LabelExact(env, wanted, found) {
      assert env.upper(env.upper(found.color)) == env.upper(found.color);
    }
  }
}
