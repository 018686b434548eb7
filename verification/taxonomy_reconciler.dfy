/** The label reconciler (scripts/reconcile-issue-taxonomy.ts) against an arbitrary repository, and
    against an honest one. */
module TaxonomyReconciler {
  import opened IssueTaxonomy
  import opened Ordering
  import opened TaxonomyRepository
  import opened Wrappers
  import K = KeyedLists

  datatype Error =
    | RequestFailed | IssueChanged | TooManyIssues | NotOpen | NoMapping | LabelReadback | IssueReadback

  // ----- Labels by name -----

  function LowerName(env: Env): TaxonomyLabel -> string { (t: TaxonomyLabel) => env.lower(t.name) }

  /** `taxonomyNames`, with the whole label for the name. */
  function TaxonomyNames(env: Env, config: Config): map<string, TaxonomyLabel> {
    K.IndexBy(config.labels, LowerName(env))
  }

  predicate IsTaxKey(k: string) {
    k == LabelName(CustomerEvaluation) || k == LabelName(MaintainerDevelopment) || k == LabelName(SyntheticDemo)
  }

  lemma TaxonomyNamesExactly(env: Env, config: Config, k: string)
    requires ConfigValid(env, config) && EnvSound(env)
    ensures k in TaxonomyNames(env, config) <==> IsTaxKey(k)
    ensures k in TaxonomyNames(env, config) ==> TaxonomyNames(env, config)[k].name == k
  {
    hide LabelName;
    var labels := config.labels;
    assert labels[0].name == LabelName(CLASSES[0]) && labels[1].name == LabelName(CLASSES[1]) && labels[2].name == LabelName(CLASSES[2]);
    assert forall i :: 0 <= i < 3 ==> env.lower(labels[i].name) == labels[i].name;
    K.IndexFinds(labels, LowerName(env), k);
    K.KeyListed(labels, LowerName(env), k);
    if IsTaxKey(k) {
      var i := if k == LabelName(CustomerEvaluation) then 0 else if k == LabelName(MaintainerDevelopment) then 1 else 2;
      assert labels[i] in labels && LowerName(env)(labels[i]) == k;
    }
    if k in TaxonomyNames(env, config) {
      var found := TaxonomyNames(env, config)[k];
      var i :| 0 <= i < 3 && labels[i] == found;
    }
  }

  function Unrelated(env: Env, names: map<string, TaxonomyLabel>): string -> bool {
    (name: string) => env.lower(name) !in names
  }

  function Taxonomic(env: Env, names: map<string, TaxonomyLabel>): string -> bool {
    (name: string) => env.lower(name) in names
  }

  function Conflicting(env: Env, names: map<string, TaxonomyLabel>, desired: string): string -> bool {
    (name: string) => env.lower(name) in names && names[env.lower(name)].name != desired
  }

  /** Exactly one taxonomy label, the desired one, and the other labels as they were. */
  ghost predicate Settled(env: Env, names: map<string, TaxonomyLabel>, desired: string, before: seq<string>, after: seq<string>) {
    && Keep(Taxonomic(env, names), after) == [desired]
    && multiset(Keep(Unrelated(env, names), after)) == multiset(Keep(Unrelated(env, names), before))
  }

  lemma SortOne<T(!new)>(leq: (T, T) -> bool, xs: seq<T>, x: T)
    ensures |Sort(leq, xs)| == 1 && Sort(leq, xs)[0] == x <==> xs == [x]
  {
    var sorted := Sort(leq, xs);
    assert |sorted| == |multiset(sorted)| == |multiset(xs)| == |xs|;
    if |xs| == 1 {
      assert xs == [xs[0]] && sorted == [sorted[0]];
      assert sorted[0] in multiset(xs);
    }
  }

  // ----- The same filters on an honest repository's keys -----

  function InTaxonomy(): string -> bool { (k: string) => IsTaxKey(k) }
  function OutsideTaxonomy(): string -> bool { (k: string) => !IsTaxKey(k) }
  function Against(desired: string): string -> bool { (k: string) => IsTaxKey(k) && k != desired }
  function NotAgainst(desired: string): string -> bool { (k: string) => !IsTaxKey(k) || k == desired }

  lemma NamesRest(labels: map<string, Label>, keys: seq<string>)
    requires keys != [] && forall k :: k in keys ==> k in labels
    ensures forall k :: k in keys[1..] ==> k in labels
    ensures Names(labels, keys)[0] == labels[keys[0]].name && Names(labels, keys)[1..] == Names(labels, keys[1..])
  {
  }

  lemma NamesFirst(labels: map<string, Label>, key: string, keys: seq<string>)
    requires key in labels && forall k :: k in keys ==> k in labels
    ensures Names(labels, [key] + keys) == [labels[key].name] + Names(labels, keys)
  {
  }

  lemma {:induction false} KeepNames(labels: map<string, Label>, keys: seq<string>, p: string -> bool, q: string -> bool)
    requires forall k :: k in keys ==> k in labels && p(labels[k].name) == q(k)
    ensures Keep(p, Names(labels, keys)) == Names(labels, Keep(q, keys))
  {
    if keys != [] {
      var rest := keys[1..];
      forall k | k in rest ensures k in labels && p(labels[k].name) == q(k) { assert k in keys; }
      KeepNames(labels, rest, p, q);
      NamesRest(labels, keys);
      assert keys[0] in keys;
      if q(keys[0]) { NamesFirst(labels, keys[0], Keep(q, rest)); }
    }
  }

  lemma {:induction false} KeepAgrees<T(!new)>(p: T -> bool, q: T -> bool, xs: seq<T>)
    requires forall x :: x in xs ==> p(x) == q(x)
    ensures Keep(p, xs) == Keep(q, xs)
  {
    if xs != [] { KeepAgrees(p, q, xs[1..]); }
  }

  lemma {:induction false} KeepTwice<T(!new)>(p: T -> bool, q: T -> bool, r: T -> bool, xs: seq<T>)
    requires forall x :: x in xs ==> r(x) == (p(x) && q(x))
    ensures Keep(q, Keep(p, xs)) == Keep(r, xs)
  {
    if xs != [] {
      KeepTwice(p, q, r, xs[1..]);
      if p(xs[0]) { assert ([xs[0]] + Keep(p, xs[1..]))[1..] == Keep(p, xs[1..]); }
    }
  }

  lemma {:induction false} KeepAppend<T(!new)>(p: T -> bool, xs: seq<T>, y: T)
    ensures Keep(p, xs + [y]) == Keep(p, xs) + if p(y) then [y] else []
  {
    if xs == [] {
      assert [] + [y] == [y] && [y][1..] == [];
    } else {
      KeepAppend(p, xs[1..], y);
      assert (xs + [y])[1..] == xs[1..] + [y];
    }
  }

  lemma {:induction false} KeepNone<T(!new)>(p: T -> bool, xs: seq<T>)
    requires forall x :: x in xs ==> !p(x)
    ensures Keep(p, xs) == []
  {
    if xs != [] { KeepNone(p, xs[1..]); }
  }

  lemma {:induction false} KeepOnly<T(!new)>(p: T -> bool, xs: seq<T>, y: T)
    requires Distinct(xs) && y in xs && forall x :: x in xs ==> (p(x) <==> x == y)
    ensures Keep(p, xs) == [y]
  {
    var rest := xs[1..];
    assert forall x :: x in rest ==> x in xs;
    if xs[0] == y {
      assert y !in rest;
      KeepNone(p, rest);
    } else {
      KeepOnly(p, rest, y);
    }
  }

  // ----- What settling does to the keys of an issue -----

  function Settle(keys: seq<string>, desired: string): seq<string> {
    var kept := Keep(NotAgainst(desired), keys);
    if desired in kept then kept else kept + [desired]
  }

  /** One taxonomy key, the desired one; the other keys keep their order. */
  lemma SettleSettles(keys: seq<string>, desired: string)
    requires Distinct(keys) && IsTaxKey(desired)
    ensures Distinct(Settle(keys, desired))
    ensures Keep(InTaxonomy(), Settle(keys, desired)) == [desired]
    ensures Keep(OutsideTaxonomy(), Settle(keys, desired)) == Keep(OutsideTaxonomy(), keys)
    ensures forall k :: k in Settle(keys, desired) ==> k in keys || k == desired
  {
    hide IsTaxKey;
    var kept := Keep(NotAgainst(desired), keys);
    KeepTwice(NotAgainst(desired), OutsideTaxonomy(), OutsideTaxonomy(), keys);
    if desired in kept {
      KeepOnly(InTaxonomy(), kept, desired);
    } else {
      KeepNone(InTaxonomy(), kept);
      KeepAppend(InTaxonomy(), kept, desired);
      KeepAppend(OutsideTaxonomy(), kept, desired);
    }
  }

  /** Settling settled keys changes nothing. */
  lemma SettledStays(keys: seq<string>, desired: string)
    requires Keep(InTaxonomy(), keys) == [desired]
    ensures Keep(Against(desired), keys) == [] && desired in keys && Settle(keys, desired) == keys
  {
    hide IsTaxKey;
    assert forall k :: k in keys && IsTaxKey(k) ==> k in Keep(InTaxonomy(), keys);
    assert desired in Keep(InTaxonomy(), keys);
    KeepNone(Against(desired), keys);
    KeepAll(NotAgainst(desired), keys);
  }

  lemma {:induction false} KeepAll<T(!new)>(p: T -> bool, xs: seq<T>)
    requires forall x :: x in xs ==> p(x)
    ensures Keep(p, xs) == xs
  {
    if xs != [] { KeepAll(p, xs[1..]); }
  }

  /** Removing the conflicting keys one by one is one filter. */
  lemma RemoveNext(keys: seq<string>, gone: seq<string>, i: nat)
    requires i < |gone|
    ensures Keep(Outside([gone[i]]), Keep(Outside(gone[..i]), keys)) == Keep(Outside(gone[..i + 1]), keys)
  {
    assert gone[..i + 1] == gone[..i] + [gone[i]];
    KeepTwice(Outside(gone[..i]), Outside([gone[i]]), Outside(gone[..i + 1]), keys);
  }

  lemma RemoveAll(keys: seq<string>, desired: string)
    ensures Keep(Outside(Keep(Against(desired), keys)), keys) == Keep(NotAgainst(desired), keys)
  {
    KeepAgrees(Outside(Keep(Against(desired), keys)), NotAgainst(desired), keys);
  }

  // ----- reconcileLabel -----

  predicate LabelExact(env: Env, wanted: TaxonomyLabel, found: Label) {
    found.name == wanted.name && env.upper(found.color) == wanted.color && found.description == wanted.description
  }

  /** An honest repository already has the label as wanted. */
  predicate InPlace(env: Env, w: World, wanted: TaxonomyLabel) {
    wanted.name in w.labels && LabelExact(env, wanted, w.labels[wanted.name])
  }

  function LabelStep(env: Env, store: string -> string, w: World, wanted: TaxonomyLabel): World {
    if InPlace(env, w, wanted) then w else Put(env, store, w, wanted)
  }

  ghost predicate HonestAt<S(!new)>(env: Env, h: Honesty<S>, session: Session<S>, w: World)
    reads session
  {
    Honest(env, h, session.ops) && h.view(session.state) == w && WorldValid(env, w)
  }

  /** What reconcileLabel writes after its first read. */
  function LabelWrites(env: Env, wanted: TaxonomyLabel, found: Option<Label>): seq<Event> {
    if found == None then [Created(wanted)]
    else if LabelExact(env, wanted, found.value) then []
    else [Updated(found.value.name, wanted)]
  }

  /** One label reconciled: a read, the writes it calls for, and a read that shows it exact. */
  predicate LabelTrace(env: Env, wanted: TaxonomyLabel, trace: seq<Event>) {
    && |trace| >= 2
    && trace[0].ReadLabel? && trace[0].name == wanted.name
    && trace[1..|trace| - 1] == LabelWrites(env, wanted, trace[0].found)
    && var last := trace[|trace| - 1];
      last.ReadLabel? && last.name == wanted.name && last.found.Some? && LabelExact(env, wanted, last.found.value)
  }

  /** What may happen on the way to a label, also when it fails. */
  predicate LabelEvent(wanted: TaxonomyLabel, e: Event) {
    match e
    case ReadLabel(name, _) => name == wanted.name
    case Created(made) => made == wanted
    case Updated(_, made) => made == wanted
    case _ => false
  }

  predicate LabelEvents(wanted: TaxonomyLabel, trace: seq<Event>) { forall e :: e in trace ==> LabelEvent(wanted, e) }

  lemma LabelSteps(env: Env, wanted: TaxonomyLabel, found: Option<Label>, readback: Option<Label>)
    ensures var written := [ReadLabel(wanted.name, found)] + LabelWrites(env, wanted, found);
      && LabelEvents(wanted, written) && LabelEvents(wanted, written + [ReadLabel(wanted.name, readback)])
      && (readback.Some? && LabelExact(env, wanted, readback.value) ==>
            LabelTrace(env, wanted, written + [ReadLabel(wanted.name, readback)]))
  {
    var all := [ReadLabel(wanted.name, found)] + LabelWrites(env, wanted, found) + [ReadLabel(wanted.name, readback)];
    assert all[1..|all| - 1] == LabelWrites(env, wanted, found);
  }

  lemma SinceIs(before: seq<Event>, added: seq<Event>)
    ensures before <= before + added && Since(before + added, before) == added
  {
  }

  /** The write a label calls for, if any. */
  method WriteLabel<S(!new)>(env: Env, session: Session<S>, wanted: TaxonomyLabel, found: Option<Label>, ghost h: Honesty<S>, ghost w: World)
    returns (ok: bool)
    requires EnvSound(env) && env.lower(wanted.name) == wanted.name
    modifies session`state, session`trace, session`writes
    ensures session.trace == old(session.trace) + LabelWrites(env, wanted, found)
    ensures old(HonestAt(env, h, session, w)) && FindsLabel(env, w, wanted.name, found) ==>
      && ok && HonestAt(env, h, session, LabelStep(env, h.store, w, wanted))
      && (InPlace(env, w, wanted) ==> session.writes == old(session.writes))
  {
    hide WorldValid;
    if HonestAt(env, h, session, w) && FindsLabel(env, w, wanted.name, found) {
      PutKeepsValid(env, h.store, w, wanted);
      assert CreatesHonestly(env, h, session.ops, session.state, wanted);
      if found.Some? {
        FoundUnderKey(env, w, wanted.name);
        assert UpdatesHonestly(env, h, session.ops, session.state, found.value.name, wanted);
      }
    }
    ok := true;
    if found == None {
      ok := session.CreateLabel(wanted);
    } else if !LabelExact(env, wanted, found.value) {
      ok := session.UpdateLabel(found.value.name, wanted);
    }
  }

  /** What an honest repository answers to getLabel. */
  predicate FindsLabel(env: Env, w: World, name: string, found: Option<Label>) {
    found == if env.lower(name) in w.labels then Some(w.labels[env.lower(name)]) else None
  }

  lemma LabelRead<S(!new)>(env: Env, h: Honesty<S>, ops: Ops<S>, s: S, w: World, name: string)
    requires Honest(env, h, ops) && h.view(s) == w && WorldValid(env, w)
    ensures var answer := ops.getLabel(s, name);
      h.view(answer.0) == w && answer.1.Some? && FindsLabel(env, w, name, answer.1.value)
  {
    assert GetsLabelHonestly(env, h, ops, s, name);
  }

  /** After the step an honest repository shows the label exact precisely for an upper-case colour. */
  lemma StepShows<S(!new)>(env: Env, h: Honesty<S>, ops: Ops<S>, w: World, wanted: TaxonomyLabel, found: Option<Label>)
    requires EnvSound(env) && env.lower(wanted.name) == wanted.name && Honest(env, h, ops)
    requires FindsLabel(env, LabelStep(env, h.store, w, wanted), wanted.name, found)
    ensures found.Some?
    ensures LabelExact(env, wanted, found.value) <==> env.upper(wanted.color) == wanted.color
  {
  }

  method ReconcileLabel<S(!new)>(env: Env, session: Session<S>, wanted: TaxonomyLabel, ghost h: Honesty<S>, ghost w: World)
    returns (r: Result<(), Error>)
    requires EnvSound(env) && env.lower(wanted.name) == wanted.name
    modifies session`state, session`trace, session`writes
    ensures old(session.trace) <= session.trace && LabelEvents(wanted, Since(session.trace, old(session.trace)))
    ensures r.Ok? ==> LabelTrace(env, wanted, Since(session.trace, old(session.trace)))
    ensures old(HonestAt(env, h, session, w)) ==> (r.Ok? <==> env.upper(wanted.color) == wanted.color)
    ensures old(HonestAt(env, h, session, w)) && r.Ok? ==>
      HonestAt(env, h, session, LabelStep(env, h.store, w, wanted)) && (InPlace(env, w, wanted) ==> session.writes == old(session.writes))
  {
    hide WorldValid;
    hide LabelTrace;
    hide LabelEvents;
    hide LabelExact;
    hide LabelStep;
    hide LabelWrites;
    hide FindsLabel;
    hide Since;
    hide EnvSound;
    hide Honest;
    hide InPlace;
    ghost var honest := HonestAt(env, h, session, w);
    ghost var before := session.trace;
    if honest { LabelRead(env, h, session.ops, session.state, w, wanted.name); }
    var current := session.GetLabel(wanted.name);
    if current == None {
      NothingSince(before, wanted);
      assert session.trace == before;
      return Err(RequestFailed);
    }
    ghost var written := [ReadLabel(wanted.name, current.value)] + LabelWrites(env, wanted, current.value);
    var ok := WriteLabel(env, session, wanted, current.value, h, w);
    assert session.trace == before + written;
    SinceIs(before, written);
    LabelSteps(env, wanted, current.value, None);
    if !ok { return Err(RequestFailed); }
    if honest { LabelRead(env, h, session.ops, session.state, LabelStep(env, h.store, w, wanted), wanted.name); }
    var readback := session.GetLabel(wanted.name);
    if readback == None {
      assert session.trace == before + written;
      return Err(RequestFailed);
    }
    assert session.trace == before + (written + [ReadLabel(wanted.name, readback.value)]);
    SinceIs(before, written + [ReadLabel(wanted.name, readback.value)]);
    LabelSteps(env, wanted, current.value, readback.value);
    if honest { StepShows(env, h, session.ops, w, wanted, readback.value); }
    if readback.value == None || !LabelExact(env, wanted, readback.value.value) { return Err(LabelReadback); }
    return Ok(());
  }

  lemma NothingSince(before: seq<Event>, wanted: TaxonomyLabel)
    ensures Since(before, before) == [] && LabelEvents(wanted, [])
  {
  }

  lemma FoundUnderKey(env: Env, w: World, name: string)
    requires WorldValid(env, w) && env.lower(name) in w.labels
    ensures env.lower(w.labels[env.lower(name)].name) == env.lower(name)
  {
  }

  // ----- reconcileIssue -----

  /** assertIssueMatches; labels are not compared. */
  predicate Matches(expected: Issue, actual: Issue) {
    && actual.number == expected.number && actual.id == expected.id && actual.nodeId == expected.nodeId
    && actual.repositoryUrl == expected.repositoryUrl && actual.title == expected.title && actual.open
  }

  function Removals(number: int, names: seq<string>): (trace: seq<Event>)
    ensures |trace| == |names| && forall i :: 0 <= i < |names| ==> trace[i] == Removed(number, names[i])
  {
    seq(|names|, i requires 0 <= i < |names| => Removed(number, names[i]))
  }

  /** What reconcileIssue writes after a first read with these labels: each conflicting taxonomy
      label removed, and the desired one added where it is missing. */
  function IssueWrites(env: Env, config: Config, number: int, c: Class, labels: seq<string>): seq<Event> {
    Removals(number, ConflictingLabels(env, config, c, labels))
    + if HasName(env, labels, LabelName(c)) then [] else [Added(number, LabelName(c))]
  }

  /** One issue reconciled: a read that matches the plan, the writes it calls for, and a read that
      matches the plan and is settled against the first. */
  ghost predicate IssueTrace(env: Env, config: Config, planned: Issue, c: Class, trace: seq<Event>) {
    && |trace| >= 2
    && trace[0].ReadIssue? && trace[0].number == planned.number && Matches(planned, trace[0].issue)
    && trace[1..|trace| - 1] == IssueWrites(env, config, planned.number, c, trace[0].issue.labels)
    && var last := trace[|trace| - 1];
      && last.ReadIssue? && last.number == planned.number && Matches(planned, last.issue)
      && Settled(env, TaxonomyNames(env, config), LabelName(c), trace[0].issue.labels, last.issue.labels)
  }

  /** What may happen on the way to a settled issue, also when it fails. */
  predicate IssueEvent(env: Env, config: Config, number: int, c: Class, e: Event) {
    match e
    case ReadIssue(n, _) => n == number
    case Added(n, name) => n == number && name == LabelName(c)
    case Removed(n, name) => n == number && Conflicting(env, TaxonomyNames(env, config), LabelName(c))(name)
    case _ => false
  }

  predicate IssueEvents(env: Env, config: Config, number: int, c: Class, trace: seq<Event>) {
    forall e :: e in trace ==> IssueEvent(env, config, number, c, e)
  }

  lemma WritesAreEvents(env: Env, config: Config, number: int, c: Class, labels: seq<string>, trace: seq<Event>)
    requires trace <= IssueWrites(env, config, number, c, labels)
    ensures IssueEvents(env, config, number, c, trace) && forall e :: e in trace ==> !e.ReadIssue?
  {
    hide HasName;
    hide Conflicting;
    var names := Keep(Conflicting(env, TaxonomyNames(env, config), LabelName(c)), labels);
    forall e | e in trace ensures IssueEvent(env, config, number, c, e) && !e.ReadIssue? {
      var i :| 0 <= i < |trace| && trace[i] == e;
      if i < |names| { assert names[i] in names; }
    }
  }

  lemma EventsJoin(env: Env, config: Config, number: int, c: Class, a: seq<Event>, b: seq<Event>)
    requires IssueEvents(env, config, number, c, a) && IssueEvents(env, config, number, c, b)
    ensures IssueEvents(env, config, number, c, a + b)
  {
  }

  /** An honest world in which all taxonomy labels exist under their exact names. */
  ghost predicate Labelled(w: World) {
    forall c :: LabelName(c) in w.labels && w.labels[LabelName(c)].name == LabelName(c)
  }

  predicate PlannedIn(w: World, planned: Issue) {
    planned.number in w.issues &&
    var s := w.issues[planned.number];
    && s.id == planned.id && s.nodeId == planned.nodeId && s.repositoryUrl == planned.repositoryUrl
    && s.title == planned.title && s.open
  }

  function KeysOf(w: World, n: int): seq<string>
    requires n in w.issues
  {
    w.issues[n].keys
  }

  /** Names and keys of the labels to remove agree. */
  lemma ConflictingNames(env: Env, config: Config, w: World, n: int, c: Class)
    requires ConfigValid(env, config) && EnvSound(env) && WorldValid(env, w) && n in w.issues
    ensures KeysKnown(w.labels, KeysOf(w, n))
    ensures Keep(Conflicting(env, TaxonomyNames(env, config), LabelName(c)), Names(w.labels, KeysOf(w, n)))
      == Names(w.labels, Keep(Against(LabelName(c)), KeysOf(w, n)))
  {
    hide IsTaxKey;
    var names := TaxonomyNames(env, config);
    forall k | k in KeysOf(w, n)
      ensures Conflicting(env, names, LabelName(c))(w.labels[k].name) == Against(LabelName(c))(k)
    {
      TaxonomyNamesExactly(env, config, k);
    }
    KeepNames(w.labels, KeysOf(w, n), Conflicting(env, names, LabelName(c)), Against(LabelName(c)));
  }

  lemma TaxonomicNames(env: Env, config: Config, w: World, keys: seq<string>)
    requires ConfigValid(env, config) && EnvSound(env) && LabelsKeyed(env, w.labels) && KeysKnown(w.labels, keys)
    ensures Keep(Taxonomic(env, TaxonomyNames(env, config)), Names(w.labels, keys)) == Names(w.labels, Keep(InTaxonomy(), keys))
    ensures Keep(Unrelated(env, TaxonomyNames(env, config)), Names(w.labels, keys)) == Names(w.labels, Keep(OutsideTaxonomy(), keys))
  {
    hide IsTaxKey;
    var names := TaxonomyNames(env, config);
    forall k | k in keys
      ensures Taxonomic(env, names)(w.labels[k].name) == InTaxonomy()(k)
      ensures Unrelated(env, names)(w.labels[k].name) == OutsideTaxonomy()(k)
    {
      TaxonomyNamesExactly(env, config, k);
    }
    KeepNames(w.labels, keys, Taxonomic(env, names), InTaxonomy());
    KeepNames(w.labels, keys, Unrelated(env, names), OutsideTaxonomy());
  }

  predicate HasName(env: Env, names: seq<string>, desired: string) {
    exists i :: 0 <= i < |names| && env.lower(names[i]) == env.lower(desired)
  }

  lemma HasDesired(env: Env, w: World, keys: seq<string>, desired: string)
    requires LabelsKeyed(env, w.labels) && KeysKnown(w.labels, keys) && env.lower(desired) == desired
    ensures HasName(env, Names(w.labels, keys), desired) <==> desired in keys
  {
    if desired in keys {
      var i :| 0 <= i < |keys| && keys[i] == desired;
      assert env.lower(Names(w.labels, keys)[i]) == desired;
    }
    if i :| 0 <= i < |keys| && env.lower(Names(w.labels, keys)[i]) == env.lower(desired) {
      assert keys[i] in keys && keys[i] == desired;
    }
  }

  lemma SettledKnown(w: World, keys: seq<string>, c: Class)
    requires Labelled(w) && KeysKnown(w.labels, keys)
    ensures KeysKnown(w.labels, Settle(keys, LabelName(c)))
  {
    hide Settle;
    TaxKeyOf(c);
    SettleSettles(keys, LabelName(c));
  }

  /** Settled keys read as settled names. */
  lemma SettledNames(env: Env, config: Config, w: World, keys: seq<string>, c: Class)
    requires ConfigValid(env, config) && EnvSound(env) && LabelsKeyed(env, w.labels) && Labelled(w)
    requires KeysKnown(w.labels, keys)
    ensures KeysKnown(w.labels, Settle(keys, LabelName(c)))
    ensures Settled(env, TaxonomyNames(env, config), LabelName(c), Names(w.labels, keys), Names(w.labels, Settle(keys, LabelName(c))))
  {
    hide Settle;
    hide ConfigValid;
    hide EnvSound;
    hide LabelsKeyed;
    hide IsTaxKey;
    hide Keep;
    var settled := Settle(keys, LabelName(c));
    SettledKnown(w, keys, c);
    TaxKeyOf(c);
    SettleSettles(keys, LabelName(c));
    TaxonomicNames(env, config, w, keys);
    TaxonomicNames(env, config, w, settled);
    assert Names(w.labels, [LabelName(c)]) == [LabelName(c)] by { assert LabelName(c) in w.labels; }
  }

  lemma TaxKeyOf(c: Class)
    ensures IsTaxKey(LabelName(c))
  {
  }

  /** The names to remove are those of distinct keys the issue carries. */
  predicate RemovalPlanned(w: World, n: int, names: seq<string>, gone: seq<string>) {
    && n in w.issues && Distinct(gone) && |gone| == |names|
    && (forall k :: k in gone ==> k in KeysOf(w, n) && k in w.labels) && names == Names(w.labels, gone)
  }

  lemma OneMoreRemoval(number: int, names: seq<string>, i: nat)
    requires i < |names|
    ensures Removals(number, names[..i + 1]) == Removals(number, names[..i]) + [Removed(number, names[i])]
  {
  }

  lemma RemovalsSoFar(number: int, names: seq<string>, i: nat)
    requires i <= |names|
    ensures Removals(number, names[..i]) <= Removals(number, names)
  {
  }

  /** Removes the conflicting labels, one request each. */
  method RemoveConflicting<S(!new)>(env: Env, session: Session<S>, number: int, conflicting: seq<string>,
    ghost h: Honesty<S>, ghost w: World, ghost gone: seq<string>)
    returns (ok: bool)
    modifies session`state, session`trace, session`writes
    ensures session.writes == old(session.writes) || conflicting != []
    ensures old(session.trace) <= session.trace <= old(session.trace) + Removals(number, conflicting)
    ensures ok ==> session.trace == old(session.trace) + Removals(number, conflicting)
    ensures old(HonestAt(env, h, session, w)) && RemovalPlanned(w, number, conflicting, gone) ==>
      ok && HonestAt(env, h, session, WithKeys(w, number, Keep(Outside(gone), KeysOf(w, number))))
  {
    hide WorldValid;
    ghost var honest := HonestAt(env, h, session, w) && RemovalPlanned(w, number, conflicting, gone);
    if honest { NothingGone(w, number); }
    for i := 0 to |conflicting|
      invariant i == 0 ==> session.writes == old(session.writes)
      invariant session.trace == old(session.trace) + Removals(number, conflicting[..i])
      invariant honest ==> HonestAt(env, h, session, WithKeys(w, number, Keep(Outside(gone[..i]), KeysOf(w, number))))
    {
      if honest { RemovalAllowed(env, h, session.ops, session.state, w, number, conflicting, gone, i); }
      ok := session.RemoveIssueLabel(number, conflicting[i]);
      OneMoreRemoval(number, conflicting, i);
      RemovalsSoFar(number, conflicting, i + 1);
      if !ok { return; }
    }
    if honest { assert gone[..|gone|] == gone; }
    assert conflicting[..|conflicting|] == conflicting;
    return true;
  }

  lemma NothingGone(w: World, n: int)
    requires n in w.issues
    ensures WithKeys(w, n, Keep(Outside([]), KeysOf(w, n))) == w
  {
    KeepAll(Outside([]), KeysOf(w, n));
  }

  lemma RemovalAllowed<S(!new)>(env: Env, h: Honesty<S>, ops: Ops<S>, s: S, w: World, n: int, names: seq<string>,
    gone: seq<string>, i: nat)
    requires Honest(env, h, ops) && RemovalPlanned(w, n, names, gone) && i < |gone|
    requires var now := WithKeys(w, n, Keep(Outside(gone[..i]), KeysOf(w, n))); h.view(s) == now && WorldValid(env, now)
    ensures var after := WithKeys(w, n, Keep(Outside(gone[..i + 1]), KeysOf(w, n)));
      ops.removeIssueLabel(s, n, names[i]).1 && h.view(ops.removeIssueLabel(s, n, names[i]).0) == after && WorldValid(env, after)
  {
    var now := WithKeys(w, n, Keep(Outside(gone[..i]), KeysOf(w, n)));
    var after := WithKeys(w, n, Keep(Outside(gone[..i + 1]), KeysOf(w, n)));
    assert env.lower(names[i]) == gone[i];
    assert gone[i] !in gone[..i];
    assert RemovesHonestly(env, h, ops, s, n, names[i]);
    RemoveNext(KeysOf(w, n), gone, i);
    assert KeysKnown(now.labels, KeysOf(now, n));
    KeysKeepValid(env, now, n, Keep(Outside([gone[i]]), KeysOf(now, n)));
  }

  function LabelForClass(labels: seq<TaxonomyLabel>, c: Class): Option<TaxonomyLabel> {
    if labels == [] then None else if labels[0].class_ == c then Some(labels[0]) else LabelForClass(labels[1..], c)
  }

  lemma LabelForClassFinds(env: Env, config: Config, c: Class)
    requires ConfigValid(env, config)
    ensures LabelForClass(config.labels, c).Some? && LabelForClass(config.labels, c).value.name == LabelName(c)
  {
    hide LabelName;
    var labels := config.labels;
    var second, third := labels[1..], labels[1..][1..];
    assert labels[0].class_ == CLASSES[0] == CustomerEvaluation && second[0].class_ == CLASSES[1] == MaintainerDevelopment;
    assert third[0].class_ == CLASSES[2] == SyntheticDemo;
    assert LabelForClass(third, SyntheticDemo) == Some(third[0]);
  }

  lemma SortedAgree(leq: (string, string) -> bool, xs: seq<string>, ys: seq<string>)
    requires TotalOrder(leq)
    ensures Sort(leq, xs) == Sort(leq, ys) <==> multiset(xs) == multiset(ys)
  {
    if multiset(xs) == multiset(ys) { SortForgetsOrder(leq, xs, ys); }
  }

  method CheckSettled(env: Env, names: map<string, TaxonomyLabel>, desired: string, before: seq<string>, after: seq<string>)
    returns (settled: bool)
    requires EnvSound(env)
    ensures settled <==> Settled(env, names, desired, before, after)
  {
    hide TotalOrder;
    var taxonomyAfter := Sort(env.leq, Keep(Taxonomic(env, names), after));
    var unrelatedBefore := Sort(env.leq, Keep(Unrelated(env, names), before));
    var unrelatedAfter := Sort(env.leq, Keep(Unrelated(env, names), after));
    SortOne(env.leq, Keep(Taxonomic(env, names), after), desired);
    SortedAgree(env.leq, Keep(Unrelated(env, names), after), Keep(Unrelated(env, names), before));
    return |taxonomyAfter| == 1 && taxonomyAfter[0] == desired && unrelatedAfter == unrelatedBefore;
  }

  /** What an honest run of one issue goes through. */
  ghost predicate IssueRun<S(!new)>(env: Env, config: Config, h: Honesty<S>, session: Session<S>, w: World, planned: Issue)
    reads session
  {
    HonestAt(env, h, session, w) && Labelled(w) && PlannedIn(w, planned)
  }

  function SettledWorld(w: World, n: int, c: Class): World
    requires n in w.issues
  {
    WithKeys(w, n, Settle(KeysOf(w, n), LabelName(c)))
  }

  lemma ReadPlanned<S(!new)>(env: Env, h: Honesty<S>, ops: Ops<S>, s: S, w: World, planned: Issue)
    requires Honest(env, h, ops) && h.view(s) == w && WorldValid(env, w) && PlannedIn(w, planned)
    ensures KeysKnown(w.labels, KeysOf(w, planned.number))
    ensures var answer := ops.getIssue(s, planned.number);
      && h.view(answer.0) == w && answer.1.Some? && Matches(planned, answer.1.value)
      && answer.1.value.labels == Names(w.labels, KeysOf(w, planned.number))
  {
    assert GetsIssueHonestly(env, h, ops, s, planned.number);
  }

  lemma PlanRemoval(env: Env, config: Config, w: World, n: int, c: Class)
    requires ConfigValid(env, config) && EnvSound(env) && WorldValid(env, w) && n in w.issues
    ensures KeysKnown(w.labels, KeysOf(w, n))
    ensures var gone := Keep(Against(LabelName(c)), KeysOf(w, n));
      && RemovalPlanned(w, n, Keep(Conflicting(env, TaxonomyNames(env, config), LabelName(c)), Names(w.labels, KeysOf(w, n))), gone)
      && Keep(Outside(gone), KeysOf(w, n)) == Keep(NotAgainst(LabelName(c)), KeysOf(w, n))
  {
    hide IsTaxKey;
    ConflictingNames(env, config, w, n, c);
    RemoveAll(KeysOf(w, n), LabelName(c));
  }

  /** After the removals, adding the desired label where it is missing settles the issue. */
  lemma AddSettles<S(!new)>(env: Env, h: Honesty<S>, ops: Ops<S>, s: S, w: World, n: int, c: Class)
    requires EnvSound(env) && Honest(env, h, ops) && Labelled(w) && n in w.issues
    requires var kept := WithKeys(w, n, Keep(NotAgainst(LabelName(c)), KeysOf(w, n))); h.view(s) == kept && WorldValid(env, kept)
    ensures LabelName(c) in KeysOf(w, n) ==> h.view(s) == SettledWorld(w, n, c)
    ensures LabelName(c) !in KeysOf(w, n) ==>
      var answer := ops.addIssueLabel(s, n, LabelName(c));
      answer.1 && h.view(answer.0) == SettledWorld(w, n, c) && WorldValid(env, SettledWorld(w, n, c))
  {
    hide IsTaxKey;
    hide LabelName;
    var kept := WithKeys(w, n, Keep(NotAgainst(LabelName(c)), KeysOf(w, n)));
    assert AddsHonestly(env, h, ops, s, n, LabelName(c));
    assert KeysKnown(kept.labels, KeysOf(kept, n));
    if LabelName(c) !in KeysOf(w, n) { KeysKeepValid(env, kept, n, KeysOf(kept, n) + [LabelName(c)]); }
  }

  predicate IsQuiet(w: World, n: int, c: Class) {
    n in w.issues && Keep(InTaxonomy(), KeysOf(w, n)) == [LabelName(c)]
  }

  /** The world once the conflicting labels of an issue are gone. */
  function KeptWorld(w: World, n: int, c: Class): World
    requires n in w.issues
  {
    WithKeys(w, n, Keep(NotAgainst(LabelName(c)), KeysOf(w, n)))
  }

  function ConflictingLabels(env: Env, config: Config, c: Class, labels: seq<string>): seq<string> {
    Keep(Conflicting(env, TaxonomyNames(env, config), LabelName(c)), labels)
  }

  /** The removals for one issue whose labels were just read. */
  method RemoveAgainst<S(!new)>(env: Env, config: Config, session: Session<S>, number: int, labels: seq<string>, c: Class,
    ghost h: Honesty<S>, ghost w: World) returns (ok: bool)
    requires ConfigValid(env, config) && EnvSound(env)
    modifies session`state, session`trace, session`writes
    ensures var removals := Removals(number, ConflictingLabels(env, config, c, labels));
      && old(session.trace) <= session.trace <= old(session.trace) + removals
      && (ok ==> session.trace == old(session.trace) + removals)
    ensures old(HonestAt(env, h, session, w)) && ReadsAs(w, number, labels) ==>
      && ok && HonestAt(env, h, session, KeptWorld(w, number, c))
      && (IsQuiet(w, number, c) ==> session.writes == old(session.writes))
  {
    hide Honest;
    hide ConfigValid;
    hide EnvSound;
    hide IsTaxKey;
    hide LabelName;
    hide WorldValid;
    LabelForClassFinds(env, config, c);
    var desired := LabelForClass(config.labels, c).value.name;
    var conflicting := ConflictingLabels(env, config, c, labels);
    ghost var gone: seq<string> := [];
    if HonestAt(env, h, session, w) && ReadsAs(w, number, labels) {
      PlanRemoval(env, config, w, number, c);
      gone := Keep(Against(desired), KeysOf(w, number));
      QuietKeys(w, number, c);
    }
    ok := RemoveConflicting(env, session, number, conflicting, h, w, gone);
  }

  /** The addition, where the desired label was missing. */
  method AddDesired<S(!new)>(env: Env, session: Session<S>, number: int, labels: seq<string>, c: Class,
    ghost h: Honesty<S>, ghost w: World) returns (ok: bool)
    requires EnvSound(env)
    modifies session`state, session`trace, session`writes
    ensures session.trace == old(session.trace) + if HasName(env, labels, LabelName(c)) then [] else [Added(number, LabelName(c))]
    ensures WorldValid(env, w) && Labelled(w) && ReadsAs(w, number, labels) && old(HonestAt(env, h, session, KeptWorld(w, number, c))) ==>
      && ok && HonestAt(env, h, session, SettledWorld(w, number, c))
      && (IsQuiet(w, number, c) ==> session.writes == old(session.writes))
  {
    hide Honest;
    hide EnvSound;
    hide IsTaxKey;
    hide LabelName;
    hide Labelled;
    hide WorldValid;
    hide HasName;
    hide SettledWorld;
    if WorldValid(env, w) && Labelled(w) && ReadsAs(w, number, labels) && HonestAt(env, h, session, KeptWorld(w, number, c)) {
      QuietKeys(w, number, c);
      DesiredByName(env, w, number, c);
      AddSettles(env, h, session.ops, session.state, w, number, c);
    }
    ok := true;
    if !HasName(env, labels, LabelName(c)) {
      ok := session.AddIssueLabel(number, LabelName(c));
    }
  }

  /** Removals and addition for one issue whose labels were just read. */
  method ApplyIssueLabels<S(!new)>(env: Env, config: Config, session: Session<S>, number: int, labels: seq<string>, c: Class,
    ghost h: Honesty<S>, ghost w: World) returns (ok: bool)
    requires ConfigValid(env, config) && EnvSound(env)
    modifies session`state, session`trace, session`writes
    ensures old(session.trace) <= session.trace <= old(session.trace) + IssueWrites(env, config, number, c, labels)
    ensures ok ==> session.trace == old(session.trace) + IssueWrites(env, config, number, c, labels)
    ensures old(HonestAt(env, h, session, w)) && Labelled(w) && ReadsAs(w, number, labels) ==>
      && ok && HonestAt(env, h, session, SettledWorld(w, number, c))
      && (IsQuiet(w, number, c) ==> session.writes == old(session.writes))
  {
    hide Honest;
    hide ConfigValid;
    hide EnvSound;
    hide Labelled;
    hide WorldValid;
    hide HasName;
    hide IssueWrites;
    hide ConflictingLabels;
    hide Removals;
    hide SettledWorld;
    hide KeptWorld;
    hide IsQuiet;
    hide KeysKnown;
    ok := RemoveAgainst(env, config, session, number, labels, c, h, w);
    WritesBegin(env, config, number, c, labels);
    if !ok { return; }
    ok := AddDesired(env, session, number, labels, c, h, w);
  }

  lemma WritesBegin(env: Env, config: Config, number: int, c: Class, labels: seq<string>)
    ensures var removals := Removals(number, ConflictingLabels(env, config, c, labels));
      && removals <= IssueWrites(env, config, number, c, labels)
      && IssueWrites(env, config, number, c, labels) ==
         if HasName(env, labels, LabelName(c)) then removals else removals + [Added(number, LabelName(c))]
  {
  }

  predicate ReadsAs(w: World, n: int, labels: seq<string>) {
    n in w.issues && KeysKnown(w.labels, KeysOf(w, n)) && labels == Names(w.labels, KeysOf(w, n))
  }

  lemma ReadSettled<S(!new)>(env: Env, config: Config, h: Honesty<S>, ops: Ops<S>, s: S, w: World, planned: Issue, c: Class)
    requires ConfigValid(env, config) && EnvSound(env) && Honest(env, h, ops) && WorldValid(env, w) && Labelled(w)
    requires PlannedIn(w, planned) && h.view(s) == SettledWorld(w, planned.number, c) && WorldValid(env, h.view(s))
    ensures KeysKnown(w.labels, KeysOf(w, planned.number))
    ensures var answer := ops.getIssue(s, planned.number);
      && h.view(answer.0) == h.view(s) && answer.1.Some? && Matches(planned, answer.1.value)
      && Settled(env, TaxonomyNames(env, config), LabelName(c), Names(w.labels, KeysOf(w, planned.number)), answer.1.value.labels)
  {
    ReadPlanned(env, h, ops, s, SettledWorld(w, planned.number, c), planned);
    SettledLabels(env, config, w, planned.number, c);
  }

  method ReconcileIssue<S(!new)>(env: Env, config: Config, session: Session<S>, planned: Issue, c: Class,
    ghost h: Honesty<S>, ghost w: World) returns (r: Result<(), Error>)
    requires ConfigValid(env, config) && EnvSound(env)
    modifies session`state, session`trace, session`writes
    ensures old(session.trace) <= session.trace
    ensures IssueEvents(env, config, planned.number, c, Since(session.trace, old(session.trace)))
    ensures r.Ok? ==> IssueTrace(env, config, planned, c, Since(session.trace, old(session.trace)))
    ensures old(IssueRun(env, config, h, session, w, planned)) ==>
      && r.Ok? && HonestAt(env, h, session, SettledWorld(w, planned.number, c))
      && (IsQuiet(w, planned.number, c) ==> session.writes == old(session.writes))
  {
    hide Honest;
    hide ConfigValid;
    hide EnvSound;
    hide Settled;
    hide IsTaxKey;
    hide LabelName;
    hide Labelled;
    hide WorldValid;
    hide SettledWorld;
    hide IsQuiet;
    hide IssueWrites;
    hide IssueEvents;
    hide IssueTrace;
    hide Since;
    ghost var honest := IssueRun(env, config, h, session, w, planned);
    ghost var before := session.trace;
    NothingYet(env, config, planned.number, c, before);
    if honest { ReadPlanned(env, h, session.ops, session.state, w, planned); }
    var current := ReadMatching(env, config, session, planned, c);
    if current.Err? { return Err(current.error); }
    var ok := ApplyIssueLabels(env, config, session, current.value.number, current.value.labels, c, h, w);
    AfterFirstRead(env, config, planned, c, before, current.value, session.trace);
    if !ok { return Err(RequestFailed); }
    ghost var afterWrites := session.trace;
    if honest { ReadSettled(env, config, h, session.ops, session.state, w, planned, c); }
    var readback := ReadMatching(env, config, session, planned, c);
    EventsSince(env, config, planned.number, c, before, afterWrites, session.trace);
    if readback.Err? { return Err(readback.error); }
    var settled := CheckSettled(env, TaxonomyNames(env, config), LabelName(c), current.value.labels, readback.value.labels);
    if !settled { return Err(IssueReadback); }
    IssueDone(env, config, planned, c, before, current.value, readback.value);
    return Ok(());
  }

  /** A read of the issue, which has to match the plan. */
  method ReadMatching<S(!new)>(env: Env, config: Config, session: Session<S>, planned: Issue, c: Class) returns (r: Result<Issue, Error>)
    modifies session`state, session`trace
    ensures old(session.trace) <= session.trace
    ensures IssueEvents(env, config, planned.number, c, Since(session.trace, old(session.trace)))
    ensures r.Ok? ==> session.trace == old(session.trace) + [ReadIssue(planned.number, r.value)]
    ensures var answer := session.ops.getIssue(old(session.state), planned.number);
      && session.state == answer.0
      && (r.Ok? <==> answer.1.Some? && Matches(planned, answer.1.value))
      && (r.Ok? ==> r.value == answer.1.value)
  {
    var issue := session.GetIssue(planned.number);
    if issue == None { return Err(RequestFailed); }
    if !Matches(planned, issue.value) { return Err(IssueChanged); }
    return Ok(issue.value);
  }

  lemma NothingYet(env: Env, config: Config, number: int, c: Class, before: seq<Event>)
    ensures IssueEvents(env, config, number, c, Since(before, before))
  {
  }

  lemma EventsSince(env: Env, config: Config, number: int, c: Class, a: seq<Event>, b: seq<Event>, trace: seq<Event>)
    requires a <= b <= trace
    requires IssueEvents(env, config, number, c, Since(b, a)) && IssueEvents(env, config, number, c, Since(trace, b))
    ensures IssueEvents(env, config, number, c, Since(trace, a))
  {
    EventsJoin(env, config, number, c, Since(b, a), Since(trace, b));
    assert Since(trace, a) == Since(b, a) + Since(trace, b);
  }

  /** After the first read and some of the writes. */
  lemma AfterFirstRead(env: Env, config: Config, planned: Issue, c: Class, before: seq<Event>, first: Issue, trace: seq<Event>)
    requires var afterRead := before + [ReadIssue(planned.number, first)];
      afterRead <= trace <= afterRead + IssueWrites(env, config, planned.number, c, first.labels)
    ensures before <= trace && IssueEvents(env, config, planned.number, c, Since(trace, before))
  {
    hide IssueWrites;
    var afterRead := before + [ReadIssue(planned.number, first)];
    assert Since(trace, afterRead) <= IssueWrites(env, config, planned.number, c, first.labels);
    WritesAreEvents(env, config, planned.number, c, first.labels, Since(trace, afterRead));
    SinceIs(before, [ReadIssue(planned.number, first)]);
    EventsSince(env, config, planned.number, c, before, afterRead, trace);
  }

  /** After both reads. */
  lemma IssueDone(env: Env, config: Config, planned: Issue, c: Class, before: seq<Event>, first: Issue, last: Issue)
    requires Matches(planned, first) && Matches(planned, last)
    requires Settled(env, TaxonomyNames(env, config), LabelName(c), first.labels, last.labels)
    ensures var n := planned.number;
      var trace := before + [ReadIssue(n, first)] + IssueWrites(env, config, n, c, first.labels) + [ReadIssue(n, last)];
      before <= trace && IssueTrace(env, config, planned, c, Since(trace, before))
  {
    hide IssueWrites;
    hide Settled;
    hide Matches;
    var n := planned.number;
    var writes := IssueWrites(env, config, n, c, first.labels);
    var added := [ReadIssue(n, first)] + writes + [ReadIssue(n, last)];
    assert before + [ReadIssue(n, first)] + writes + [ReadIssue(n, last)] == before + added;
    SinceIs(before, added);
    assert added[1..|added| - 1] == writes;
  }

  lemma QuietKeys(w: World, n: int, c: Class)
    requires n in w.issues
    ensures Keep(InTaxonomy(), KeysOf(w, n)) == [LabelName(c)] ==>
      Keep(Against(LabelName(c)), KeysOf(w, n)) == [] && LabelName(c) in KeysOf(w, n)
  {
    if Keep(InTaxonomy(), KeysOf(w, n)) == [LabelName(c)] { SettledStays(KeysOf(w, n), LabelName(c)); }
  }

  lemma DesiredByName(env: Env, w: World, n: int, c: Class)
    requires EnvSound(env) && WorldValid(env, w) && n in w.issues
    ensures KeysKnown(w.labels, KeysOf(w, n))
    ensures HasName(env, Names(w.labels, KeysOf(w, n)), LabelName(c)) <==> LabelName(c) in KeysOf(w, n)
  {
    HasDesired(env, w, KeysOf(w, n), LabelName(c));
  }

  lemma SettledLabels(env: Env, config: Config, w: World, n: int, c: Class)
    requires ConfigValid(env, config) && EnvSound(env) && WorldValid(env, w) && Labelled(w) && n in w.issues
    ensures KeysKnown(w.labels, KeysOf(w, n)) && KeysKnown(w.labels, Settle(KeysOf(w, n), LabelName(c)))
    ensures Settled(env, TaxonomyNames(env, config), LabelName(c), Names(w.labels, KeysOf(w, n)),
      Names(w.labels, Settle(KeysOf(w, n), LabelName(c))))
  {
    SettledNames(env, config, w, KeysOf(w, n), c);
  }
}
