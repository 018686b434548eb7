/** The repository the taxonomy reconciler talks to (scripts/reconcile-issue-taxonomy.ts): an
    arbitrary one as a record of operations over an unknown state, and what an honest one does. */
module TaxonomyRepository {
  import opened IssueTaxonomy
  import opened Ordering
  import opened Wrappers
  import K = KeyedLists

  datatype Issue = Issue(
    number: int, id: int, nodeId: string, repositoryUrl: string, title: string, open: bool, labels: seq<string>)

  datatype Label = Label(name: string, color: string, description: string)

  /** Each operation yields the next state and its answer; None or false is a rejected promise. */
  datatype Ops<!S> = Ops(
    listOpenIssues: S -> (S, Option<seq<Issue>>),
    getIssue: (S, int) -> (S, Option<Issue>),
    getLabel: (S, string) -> (S, Option<Option<Label>>),
    createLabel: (S, TaxonomyLabel) -> (S, bool),
    updateLabel: (S, string, TaxonomyLabel) -> (S, bool),
    addIssueLabel: (S, int, string) -> (S, bool),
    removeIssueLabel: (S, int, string) -> (S, bool))

  // ----- A session -----

  /** What went to and fro: reads with their answers, and writes as attempted. */
  datatype Event =
    | Listed(issues: seq<Issue>)
    | ReadIssue(number: int, issue: Issue)
    | ReadLabel(name: string, found: Option<Label>)
    | Created(wanted: TaxonomyLabel)
    | Updated(currentName: string, wanted: TaxonomyLabel)
    | Added(issueNumber: int, labelName: string)
    | Removed(issueNumber: int, labelName: string)

  predicate IsWrite(e: Event) { e.Created? || e.Updated? || e.Added? || e.Removed? }

  /** What a trace holds beyond an earlier one. */
  function Since(trace: seq<Event>, before: seq<Event>): seq<Event>
    requires before <= trace
  {
    trace[|before|..]
  }

  /** The answers to all reads of one issue, in order. */
  function ReadsOf(trace: seq<Event>, number: int): seq<Issue> {
    if trace == [] then []
    else
      var last := trace[|trace| - 1];
      ReadsOf(trace[..|trace| - 1], number) + if last.ReadIssue? && last.number == number then [last.issue] else []
  }

  lemma {:induction false} ReadsOfBoth(a: seq<Event>, b: seq<Event>, number: int)
    ensures ReadsOf(a + b, number) == ReadsOf(a, number) + ReadsOf(b, number)
    decreases |b|
  {
    if b == [] {
      assert a + b == a;
    } else {
      var n := |b| - 1;
      assert (a + b)[..|a + b| - 1] == a + b[..n];
      ReadsOfBoth(a, b[..n], number);
    }
  }

  lemma {:induction false} NoReads(trace: seq<Event>, number: int)
    requires forall e :: e in trace ==> !e.ReadIssue?
    ensures ReadsOf(trace, number) == []
  {
    if trace != [] { NoReads(trace[..|trace| - 1], number); }
  }

  /** One connection to the repository, with all that passed over it and the number of its writes. */
  class Session<S> {
    const ops: Ops<S>
    var state: S
    var trace: seq<Event>
    var writes: nat

    constructor (ops: Ops<S>, state: S)
      ensures this.ops == ops && this.state == state && trace == [] && writes == 0
    {
      this.ops, this.state, trace, writes := ops, state, [], 0;
    }

    method ListOpenIssues() returns (r: Option<seq<Issue>>)
      modifies this`state, this`trace
      ensures (state, r) == ops.listOpenIssues(old(state))
      ensures trace == old(trace) + if r.Some? then [Listed(r.value)] else []
    {
      var answer := ops.listOpenIssues(state);
      state, r := answer.0, answer.1;
      trace := trace + if r.Some? then [Listed(r.value)] else [];
    }

    method GetIssue(number: int) returns (r: Option<Issue>)
      modifies this`state, this`trace
      ensures (state, r) == ops.getIssue(old(state), number)
      ensures trace == old(trace) + if r.Some? then [ReadIssue(number, r.value)] else []
    {
      var answer := ops.getIssue(state, number);
      state, r := answer.0, answer.1;
      trace := trace + if r.Some? then [ReadIssue(number, r.value)] else [];
    }

    method GetLabel(name: string) returns (r: Option<Option<Label>>)
      modifies this`state, this`trace
      ensures (state, r) == ops.getLabel(old(state), name)
      ensures trace == old(trace) + if r.Some? then [ReadLabel(name, r.value)] else []
    {
      var answer := ops.getLabel(state, name);
      state, r := answer.0, answer.1;
      trace := trace + if r.Some? then [ReadLabel(name, r.value)] else [];
    }

    method CreateLabel(wanted: TaxonomyLabel) returns (ok: bool)
      modifies this`state, this`trace, this`writes
      ensures (state, ok) == ops.createLabel(old(state), wanted) && writes == old(writes) + 1
      ensures trace == old(trace) + [Created(wanted)]
    {
      var answer := ops.createLabel(state, wanted);
      state, ok, writes := answer.0, answer.1, writes + 1;
      trace := trace + [Created(wanted)];
    }

    method UpdateLabel(currentName: string, wanted: TaxonomyLabel) returns (ok: bool)
      modifies this`state, this`trace, this`writes
      ensures (state, ok) == ops.updateLabel(old(state), currentName, wanted) && writes == old(writes) + 1
      ensures trace == old(trace) + [Updated(currentName, wanted)]
    {
      var answer := ops.updateLabel(state, currentName, wanted);
      state, ok, writes := answer.0, answer.1, writes + 1;
      trace := trace + [Updated(currentName, wanted)];
    }

    method AddIssueLabel(number: int, name: string) returns (ok: bool)
      modifies this`state, this`trace, this`writes
      ensures (state, ok) == ops.addIssueLabel(old(state), number, name) && writes == old(writes) + 1
      ensures trace == old(trace) + [Added(number, name)]
    {
      var answer := ops.addIssueLabel(state, number, name);
      state, ok, writes := answer.0, answer.1, writes + 1;
      trace := trace + [Added(number, name)];
    }

    method RemoveIssueLabel(number: int, name: string) returns (ok: bool)
      modifies this`state, this`trace, this`writes
      ensures (state, ok) == ops.removeIssueLabel(old(state), number, name) && writes == old(writes) + 1
      ensures trace == old(trace) + [Removed(number, name)]
    {
      var answer := ops.removeIssueLabel(state, number, name);
      state, ok, writes := answer.0, answer.1, writes + 1;
      trace := trace + [Removed(number, name)];
    }
  }

  // ----- An honest repository -----

  /** Labels are found by lower-cased name; an issue refers to labels by that key, so a rename
      carries over to every issue. */
  datatype Stored = Stored(
    id: int, nodeId: string, repositoryUrl: string, title: string, open: bool, keys: seq<string>)

  datatype World = World(labels: map<string, Label>, issues: map<int, Stored>)

  /** How a state of the repository looks, and how it writes colours. */
  datatype Honesty<!S> = Honesty(view: S -> World, store: string -> string)

  ghost predicate LabelsKeyed(env: Env, labels: map<string, Label>) {
    forall k :: k in labels ==> env.lower(labels[k].name) == k
  }

  predicate KeysKnown(labels: map<string, Label>, keys: seq<string>) {
    Distinct(keys) && forall k :: k in keys ==> k in labels
  }

  ghost predicate WorldValid(env: Env, w: World) {
    && LabelsKeyed(env, w.labels)
    && forall n :: n in w.issues ==> KeysKnown(w.labels, w.issues[n].keys)
  }

  function Names(labels: map<string, Label>, keys: seq<string>): (names: seq<string>)
    requires forall k :: k in keys ==> k in labels
    ensures |names| == |keys| && forall i :: 0 <= i < |keys| ==> names[i] == labels[keys[i]].name
  {
    seq(|keys|, i requires 0 <= i < |keys| => labels[keys[i]].name)
  }

  function Snapshot(labels: map<string, Label>, number: int, s: Stored): Issue
    requires forall k :: k in s.keys ==> k in labels
  {
    Issue(number, s.id, s.nodeId, s.repositoryUrl, s.title, s.open, Names(labels, s.keys))
  }

  function Number(): Issue -> int { (issue: Issue) => issue.number }

  predicate Shows(w: World, issue: Issue) {
    && issue.number in w.issues && KeysKnown(w.labels, w.issues[issue.number].keys)
    && issue == Snapshot(w.labels, issue.number, w.issues[issue.number])
  }

  /** A complete listing of the open issues, each once. */
  ghost predicate ListsOpen(w: World, issues: seq<Issue>) {
    && K.KeysDistinct(issues, Number())
    && (forall i :: i in issues ==> Shows(w, i) && i.open)
    && (forall n :: n in w.issues && w.issues[n].open ==> n in K.Keys(issues, Number()))
  }

  function StoredLabel(store: string -> string, wanted: TaxonomyLabel): Label {
    Label(wanted.name, store(wanted.color), wanted.description)
  }

  /** Array.prototype.filter */
  function Keep<T(!new)>(p: T -> bool, xs: seq<T>): (r: seq<T>)
    ensures forall x :: x in r <==> x in xs && p(x)
    ensures Distinct(xs) ==> Distinct(r)
  {
    if xs == [] then []
    else
      var rest := Keep(p, xs[1..]);
      assert Distinct(xs) ==> Distinct(xs[1..]) && xs[0] !in xs[1..];
      if p(xs[0]) then [xs[0]] + rest else rest
  }

  function Outside(gone: seq<string>): string -> bool { (k: string) => k !in gone }

  function WithKeys(w: World, number: int, keys: seq<string>): World
    requires number in w.issues
  {
    w.(issues := w.issues[number := w.issues[number].(keys := keys)])
  }

  function Put(env: Env, store: string -> string, w: World, wanted: TaxonomyLabel): World {
    w.(labels := w.labels[env.lower(wanted.name) := StoredLabel(store, wanted)])
  }

  ghost predicate ListsHonestly<S(!new)>(env: Env, h: Honesty<S>, ops: Ops<S>, s: S) {
    var w, answer := h.view(s), ops.listOpenIssues(s);
    WorldValid(env, w) ==> h.view(answer.0) == w && answer.1.Some? && ListsOpen(w, answer.1.value)
  }

  ghost predicate GetsIssueHonestly<S(!new)>(env: Env, h: Honesty<S>, ops: Ops<S>, s: S, n: int) {
    var w, answer := h.view(s), ops.getIssue(s, n);
    WorldValid(env, w) ==>
      && h.view(answer.0) == w && (answer.1.Some? <==> n in w.issues)
      && (answer.1.Some? ==> answer.1.value.number == n && Shows(w, answer.1.value))
  }

  ghost predicate GetsLabelHonestly<S(!new)>(env: Env, h: Honesty<S>, ops: Ops<S>, s: S, name: string) {
    var w, answer := h.view(s), ops.getLabel(s, name);
    WorldValid(env, w) ==>
      && h.view(answer.0) == w
      && answer.1 == Some(if env.lower(name) in w.labels then Some(w.labels[env.lower(name)]) else None)
  }

  ghost predicate CreatesHonestly<S(!new)>(env: Env, h: Honesty<S>, ops: Ops<S>, s: S, wanted: TaxonomyLabel) {
    var w, answer := h.view(s), ops.createLabel(s, wanted);
    WorldValid(env, w) && env.lower(wanted.name) !in w.labels ==> answer.1 && h.view(answer.0) == Put(env, h.store, w, wanted)
  }

  ghost predicate UpdatesHonestly<S(!new)>(env: Env, h: Honesty<S>, ops: Ops<S>, s: S, name: string, wanted: TaxonomyLabel) {
    var w, answer := h.view(s), ops.updateLabel(s, name, wanted);
    WorldValid(env, w) && env.lower(name) in w.labels && env.lower(wanted.name) == env.lower(name) ==>
      answer.1 && h.view(answer.0) == Put(env, h.store, w, wanted)
  }

  ghost predicate AddsHonestly<S(!new)>(env: Env, h: Honesty<S>, ops: Ops<S>, s: S, n: int, name: string) {
    var w, answer, key := h.view(s), ops.addIssueLabel(s, n, name), env.lower(name);
    WorldValid(env, w) && n in w.issues && key in w.labels && key !in w.issues[n].keys ==>
      answer.1 && h.view(answer.0) == WithKeys(w, n, w.issues[n].keys + [key])
  }

  ghost predicate RemovesHonestly<S(!new)>(env: Env, h: Honesty<S>, ops: Ops<S>, s: S, n: int, name: string) {
    var w, answer, key := h.view(s), ops.removeIssueLabel(s, n, name), env.lower(name);
    WorldValid(env, w) && n in w.issues && key in w.issues[n].keys ==>
      answer.1 && h.view(answer.0) == WithKeys(w, n, Keep(Outside([key]), w.issues[n].keys))
  }

  /** Facts about JavaScript's case mappings and string order. */
  ghost predicate EnvSound(env: Env) {
    && TotalOrder(env.leq)
    && (forall c :: env.lower(LabelName(c)) == LabelName(c))
    && (forall x :: env.upper(env.upper(x)) == env.upper(x))
  }

  /** Reads show the world and leave it alone; each write does what it is asked. */
  ghost predicate Honest<S(!new)>(env: Env, h: Honesty<S>, ops: Ops<S>) {
    && (forall s :: ListsHonestly(env, h, ops, s))
    && (forall s, n :: GetsIssueHonestly(env, h, ops, s, n))
    && (forall s, name :: GetsLabelHonestly(env, h, ops, s, name))
    && (forall s, wanted :: CreatesHonestly(env, h, ops, s, wanted))
    && (forall s, name, wanted :: UpdatesHonestly(env, h, ops, s, name, wanted))
    && (forall s, n, name :: AddsHonestly(env, h, ops, s, n, name))
    && (forall s, n, name :: RemovesHonestly(env, h, ops, s, n, name))
    && (forall colour :: env.upper(h.store(colour)) == env.upper(colour))
  }

  // ----- Worlds stay valid -----

  lemma PutKeepsValid(env: Env, store: string -> string, w: World, wanted: TaxonomyLabel)
    requires WorldValid(env, w)
    ensures WorldValid(env, Put(env, store, w, wanted))
  {
    var after := Put(env, store, w, wanted);
    forall n | n in after.issues ensures KeysKnown(after.labels, after.issues[n].keys) {
      assert KeysKnown(w.labels, w.issues[n].keys);
    }
  }

  lemma KeysKeepValid(env: Env, w: World, n: int, keys: seq<string>)
    requires WorldValid(env, w) && n in w.issues && KeysKnown(w.labels, keys)
    ensures WorldValid(env, WithKeys(w, n, keys))
  {
  }

  lemma SnapshotExists(env: Env, w: World, n: int)
    requires WorldValid(env, w) && n in w.issues
    ensures KeysKnown(w.labels, w.issues[n].keys)
  {
  }
}
