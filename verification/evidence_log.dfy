/** The compare-and-append evidence log and the effect port of the hermetic GitHub API
    (src/authority-walkthrough.ts). Digests are parameters. */
module EvidenceLog {
  import opened Ordering
  import opened Wrappers

  type Digest = string

  datatype Evidence = Evidence(sequence: int, body: string)

  datatype Identity = Identity(applicationId: int, authorId: int)

  datatype Signed = Signed(evidence: Evidence, signature: string)

  datatype Record = Record(nodeId: string, identity: Identity, signed: Signed)

  datatype Head = Head(nodeId: string, sequence: int, evidenceDigest: Digest)

  /** Canonical digests of a signed record and of a head or null, and the text of an integer. */
  datatype Env = Env(signed: (Identity, Signed) -> Digest, head: Option<Head> -> Digest, numeral: int -> string)

  ghost predicate CollisionFree(env: Env) {
    && (forall i, s, i', s' :: env.signed(i, s) == env.signed(i', s') ==> i == i' && s == s')
    && (forall a, b :: env.head(a) == env.head(b) ==> a == b)
  }

  /** evidenceHead over signedEvidenceDigest */
  function HeadOf(env: Env, record: Record): Head {
    Head(record.nodeId, record.signed.evidence.sequence, env.signed(record.identity, record.signed))
  }

  function HeadOfLog(env: Env, log: seq<Record>): Option<Head> {
    if log == [] then None else Some(HeadOf(env, log[|log| - 1]))
  }

  // ----- The API object -----

  datatype Binding = Binding(repositoryId: int, workItemNodeId: string, headSha: Option<string>)

  datatype ExecutionState = ExecutionState(binding: Binding, observedAt: int, status: string)

  datatype EffectPlan = EffectPlan(planId: string, effect: string)

  datatype Precondition = Precondition(
    bindingDigest: Digest, planDigest: Digest, effectDigest: Digest, executionStateDigest: Digest,
    expectedHeadSha: Option<string>)

  datatype Observation = Observation(nodeId: string, effectDigest: Digest)

  datatype EffectDigests = EffectDigests(
    binding: Binding -> Digest, plan: EffectPlan -> Digest, effect: string -> Digest, state: ExecutionState -> Digest)

  predicate PreconditionCurrent(d: EffectDigests, state: ExecutionState, binding: Binding, plan: EffectPlan, p: Precondition) {
    && p.bindingDigest == d.binding(binding) && p.planDigest == d.plan(plan) && p.effectDigest == d.effect(plan.effect)
    && p.executionStateDigest == d.state(state) && p.expectedHeadSha == state.binding.headSha
  }

  class HermeticGitHubApi {
    var state: ExecutionState
    var evidence: seq<Record>
    var evidenceHead: Option<Head>
    var observation: Option<Observation>
    var writerStateReads: nat
    var fakeProviderEffects: nat
    var evidenceAppends: nat

    /** The stored head describes the last record. */
    ghost predicate Valid(env: Env)
      reads this`evidence, this`evidenceHead
    {
      evidenceHead == HeadOfLog(env, evidence)
    }

    constructor (env: Env, state: ExecutionState)
      ensures Valid(env) && this.state == state && evidence == [] && observation == None
      ensures writerStateReads == 0 && fakeProviderEffects == 0 && evidenceAppends == 0
    {
      this.state, evidence, evidenceHead, observation := state, [], None, None;
      writerStateReads, fakeProviderEffects, evidenceAppends := 0, 0, 0;
    }

    method ReadExecutionState() returns (r: ExecutionState)
      modifies this`writerStateReads
      ensures r == state && writerStateReads == old(writerStateReads) + 1
    {
      writerStateReads := writerStateReads + 1;
      return state;
    }

    method ReadEvidenceSnapshot(ghost env: Env) returns (records: seq<Record>, head: Option<Head>)
      requires Valid(env)
      ensures records == evidence && head == HeadOfLog(env, records)
    {
      return evidence, evidenceHead;
    }

    /** Appends under the head the writer names; a conflict reports the actual head. */
    method AppendEvidence(env: Env, expectedHead: Option<Head>, signed: Signed, identity: Identity)
      returns (r: Result<Record, Option<Head>>)
      requires Valid(env)
      modifies this`evidence, this`evidenceHead, this`evidenceAppends
      ensures Valid(env)
      ensures evidence == Append(env, old(evidence), Request(expectedHead, signed, identity))
      ensures r.Ok? <==> Accepts(env, old(evidence), Request(expectedHead, signed, identity))
      ensures r.Ok? <==> env.head(expectedHead) == env.head(old(evidenceHead))
      ensures r.Ok? ==> evidence == old(evidence) + [r.value] && evidenceAppends == old(evidenceAppends) + 1
      ensures r.Ok? ==>
        && r.value == Record("SYNTHETIC_EVIDENCE_" + env.numeral(signed.evidence.sequence), identity, signed)
        && evidenceHead == Some(Head(r.value.nodeId, signed.evidence.sequence, env.signed(identity, signed)))
      ensures r.Err? ==>
        && r.error == old(evidenceHead) && evidence == old(evidence)
        && evidenceHead == old(evidenceHead) && evidenceAppends == old(evidenceAppends)
    {
      if env.head(expectedHead) != env.head(evidenceHead) { return Err(evidenceHead); }
      var record := Record(NodeIdOf(env, signed), identity, signed);
      evidence := evidence + [record];
      evidenceHead := Some(HeadOf(env, record));
      evidenceAppends := evidenceAppends + 1;
      return Ok(record);
    }

    /** The provider acts only on a precondition that matches its present state. */
    method ApplyEffect(d: EffectDigests, binding: Binding, plan: EffectPlan, precondition: Precondition)
      returns (r: Result<Observation, ()>)
      modifies this`observation, this`fakeProviderEffects
      ensures r.Ok? <==> PreconditionCurrent(d, state, binding, plan, precondition)
      ensures r.Ok? <==>
        precondition == Precondition(d.binding(binding), d.plan(plan), d.effect(plan.effect), d.state(state), state.binding.headSha)
      ensures r.Ok? ==>
        && r.value == Observation("SYNTHETIC_COMMENT_1", d.effect(plan.effect)) && observation == Some(r.value)
        && fakeProviderEffects == old(fakeProviderEffects) + 1
      ensures r.Err? ==> observation == old(observation) && fakeProviderEffects == old(fakeProviderEffects)
    {
      var currentHead := state.binding.headSha;
      if precondition.bindingDigest != d.binding(binding) || precondition.planDigest != d.plan(plan)
         || precondition.effectDigest != d.effect(plan.effect) || precondition.executionStateDigest != d.state(state)
         || precondition.expectedHeadSha != currentHead
      {
        return Err(());
      }
      fakeProviderEffects := fakeProviderEffects + 1;
      observation := Some(Observation("SYNTHETIC_COMMENT_1", d.effect(plan.effect)));
      return Ok(observation.value);
    }
  }

  // ----- Any interleaving of writers -----

  /** One append request of some writer. */
  datatype Request = Request(expectedHead: Option<Head>, signed: Signed, identity: Identity)

  function NodeIdOf(env: Env, signed: Signed): string { "SYNTHETIC_EVIDENCE_" + env.numeral(signed.evidence.sequence) }

  function RecordOf(env: Env, q: Request): Record { Record(NodeIdOf(env, q.signed), q.identity, q.signed) }

  predicate Accepts(env: Env, log: seq<Record>, q: Request) { env.head(q.expectedHead) == env.head(HeadOfLog(env, log)) }

  function Append(env: Env, log: seq<Record>, q: Request): seq<Record> {
    if Accepts(env, log, q) then log + [RecordOf(env, q)] else log
  }

  /** The log after the first n requests of a run. */
  function LogAfter(env: Env, log: seq<Record>, run: seq<Request>, n: nat): seq<Record>
    requires n <= |run|
  {
    if n == 0 then log else Append(env, LogAfter(env, log, run, n - 1), run[n - 1])
  }

  /** Request i of the run is the one that appended. */
  predicate Succeeds(env: Env, log: seq<Record>, run: seq<Request>, i: nat)
    requires i < |run|
  {
    Accepts(env, LogAfter(env, log, run, i), run[i])
  }

  /** The writer numbers its record beyond the head it names. */
  predicate Advances(q: Request) { q.expectedHead.Some? ==> q.signed.evidence.sequence > q.expectedHead.value.sequence }

  predicate SequencesIncrease(log: seq<Record>) {
    forall i, j :: 0 <= i < j < |log| ==> log[i].signed.evidence.sequence < log[j].signed.evidence.sequence
  }

  /** Append-only: what the log held at one time it holds, in place, at any later time. */
  lemma {:induction false} LogOnlyGrows(env: Env, log: seq<Record>, run: seq<Request>, i: nat, j: nat)
    requires i <= j <= |run|
    ensures LogAfter(env, log, run, i) <= LogAfter(env, log, run, j)
  {
    if i < j { LogOnlyGrows(env, log, run, i, j - 1); }
  }

  lemma {:induction false} SequencesKeepIncreasing(env: Env, log: seq<Record>, run: seq<Request>, n: nat)
    requires CollisionFree(env) && SequencesIncrease(log) && n <= |run|
    requires forall i :: 0 <= i < |run| ==> Advances(run[i])
    ensures SequencesIncrease(LogAfter(env, log, run, n))
  {
    if n > 0 {
      SequencesKeepIncreasing(env, log, run, n - 1);
      var before, q := LogAfter(env, log, run, n - 1), run[n - 1];
      assert Advances(q);
      if Accepts(env, before, q) && before != [] {
        assert q.expectedHead == HeadOfLog(env, before);
        forall i | 0 <= i < |before| ensures before[i].signed.evidence.sequence < q.signed.evidence.sequence {}
      }
    }
  }

  /** Each head is consumed at most once: of all requests in a run that name the same head, null
      included, at most one appends. */
  lemma HeadConsumedOnce(env: Env, log: seq<Record>, run: seq<Request>, i: nat, j: nat)
    requires CollisionFree(env) && SequencesIncrease(log) && i < j < |run|
    requires forall k :: 0 <= k < |run| ==> Advances(run[k])
    requires Succeeds(env, log, run, i) && Succeeds(env, log, run, j)
    ensures run[i].expectedHead != run[j].expectedHead
  {
    hide LogAfter;
    hide SequencesIncrease;
    hide CollisionFree;
    hide HeadOfLog;
    hide Accepts;
    var atI, atJ := LogAfter(env, log, run, i), LogAfter(env, log, run, j);
    RecordAppended(env, log, run, i);
    LogOnlyGrows(env, log, run, i + 1, j);
    SequencesKeepIncreasing(env, log, run, j);
    AcceptsExactly(env, atI, run[i]);
    AcceptsExactly(env, atJ, run[j]);
    HeadsDiffer(env, atI, atJ);
  }

  lemma RecordAppended(env: Env, log: seq<Record>, run: seq<Request>, i: nat)
    requires i < |run| && Succeeds(env, log, run, i)
    ensures LogAfter(env, log, run, i + 1) == LogAfter(env, log, run, i) + [RecordOf(env, run[i])]
  {
  }

  /** A longer log in increasing order has another head. */
  lemma HeadsDiffer(env: Env, a: seq<Record>, b: seq<Record>)
    requires a < b && SequencesIncrease(b)
    ensures HeadOfLog(env, a) != HeadOfLog(env, b)
  {
    if a != [] { assert b[|a| - 1].signed.evidence.sequence < b[|b| - 1].signed.evidence.sequence; }
  }

  // ----- When heads are consumed once, exactly -----

  /** No two requests of the run append under the same head, null included. */
  ghost predicate ConsumesOnce(env: Env, log: seq<Record>, run: seq<Request>) {
    forall i, j :: 0 <= i < j < |run| && Succeeds(env, log, run, i) && Succeeds(env, log, run, j) ==>
      run[i].expectedHead != run[j].expectedHead
  }

  /** The records whose heads a run from `log` to `after` consumes: the last of `log`, and every
      appended one that another follows. */
  function Consumed(log: seq<Record>, after: seq<Record>): seq<Record>
    requires log <= after
  {
    if |after| == |log| then [] else after[Start(log)..|after| - 1]
  }

  /** Where the records that this run can consume the head of begin. */
  function Start(log: seq<Record>): nat { if log == [] then 0 else |log| - 1 }

  lemma AcceptsExactly(env: Env, log: seq<Record>, q: Request)
    requires CollisionFree(env)
    ensures Accepts(env, log, q) <==> q.expectedHead == HeadOfLog(env, log)
  {
  }

  lemma HeadTellsRecord(env: Env, a: Record, b: Record)
    requires CollisionFree(env)
    ensures HeadOf(env, a) == HeadOf(env, b) <==> a == b
  {
  }

  /** Two prefixes of one log have the same head exactly when they are equal or end alike. */
  lemma PrefixHeads(env: Env, log: seq<Record>, m: nat, n: nat)
    requires CollisionFree(env) && m < n <= |log|
    ensures HeadOfLog(env, log[..m]) == HeadOfLog(env, log[..n]) <==> m > 0 && log[m - 1] == log[n - 1]
  {
    if m > 0 { HeadTellsRecord(env, log[m - 1], log[n - 1]); }
  }

  /** Every length the log passes through was left by a request that succeeded. */
  lemma {:induction false} LengthPassed(env: Env, log: seq<Record>, run: seq<Request>, n: nat, length: nat) returns (i: nat)
    requires n <= |run| && |log| <= length < |LogAfter(env, log, run, n)|
    ensures i < n && Succeeds(env, log, run, i) && |LogAfter(env, log, run, i)| == length
  {
    if length < |LogAfter(env, log, run, n - 1)| {
      i := LengthPassed(env, log, run, n - 1, length);
    } else {
      i := n - 1;
    }
  }

  lemma StartsWithLog(env: Env, log: seq<Record>, run: seq<Request>, i: nat)
    requires i <= |run|
    ensures log <= LogAfter(env, log, run, i)
  {
    LogOnlyGrows(env, log, run, 0, i);
  }

  /** A successful request consumes the head of the prefix it found. */
  lemma ConsumesPrefix(env: Env, log: seq<Record>, run: seq<Request>, i: nat)
    requires CollisionFree(env) && i < |run| && Succeeds(env, log, run, i)
    ensures var final, length := LogAfter(env, log, run, |run|), |LogAfter(env, log, run, i)|;
      && |log| <= length < |final| && final[..length] == LogAfter(env, log, run, i)
      && run[i].expectedHead == HeadOfLog(env, final[..length])
  {
    hide LogAfter;
    hide HeadOfLog;
    hide Accepts;
    hide CollisionFree;
    StartsWithLog(env, log, run, i);
    LogOnlyGrows(env, log, run, i, |run|);
    LogOnlyGrows(env, log, run, i + 1, |run|);
    RecordAppended(env, log, run, i);
    AcceptsExactly(env, LogAfter(env, log, run, i), run[i]);
  }

  /** Over any run of any writers, each head is consumed at most once if and only if the records
      behind the consumed heads are pairwise distinct. */
  lemma HeadsConsumedOnceExactly(env: Env, log: seq<Record>, run: seq<Request>)
    requires CollisionFree(env)
    ensures log <= LogAfter(env, log, run, |run|)
    ensures ConsumesOnce(env, log, run) <==> Distinct(Consumed(log, LogAfter(env, log, run, |run|)))
  {
    StartsWithLog(env, log, run, |run|);
    if Distinct(Consumed(log, LogAfter(env, log, run, |run|))) {
      forall i, j | 0 <= i < j < |run| && Succeeds(env, log, run, i) && Succeeds(env, log, run, j)
        ensures run[i].expectedHead != run[j].expectedHead
      {
        DistinctConsumesOnce(env, log, run, i, j);
      }
    }
    if ConsumesOnce(env, log, run) { OnceMeansDistinct(env, log, run); }
  }

  lemma DistinctConsumesOnce(env: Env, log: seq<Record>, run: seq<Request>, i: nat, j: nat)
    requires CollisionFree(env) && i < j < |run| && Succeeds(env, log, run, i) && Succeeds(env, log, run, j)
    requires log <= LogAfter(env, log, run, |run|)
    requires Distinct(Consumed(log, LogAfter(env, log, run, |run|)))
    ensures run[i].expectedHead != run[j].expectedHead
  {
    hide LogAfter;
    hide CollisionFree;
    hide HeadOfLog;
    hide Accepts;
    hide Succeeds;
    var final := LogAfter(env, log, run, |run|);
    var m, n := |LogAfter(env, log, run, i)|, |LogAfter(env, log, run, j)|;
    ConsumesPrefix(env, log, run, i);
    ConsumesPrefix(env, log, run, j);
    LogOnlyGrows(env, log, run, i + 1, j);
    RecordAppended(env, log, run, i);
    PrefixHeads(env, final, m, n);
    if m > 0 {
      var consumed, start := Consumed(log, final), Start(log);
      assert consumed[m - 1 - start] == final[m - 1] && consumed[n - 1 - start] == final[n - 1];
    }
  }

  lemma OnceMeansDistinct(env: Env, log: seq<Record>, run: seq<Request>)
    requires CollisionFree(env) && log <= LogAfter(env, log, run, |run|) && ConsumesOnce(env, log, run)
    ensures Distinct(Consumed(log, LogAfter(env, log, run, |run|)))
  {
    hide LogAfter;
    hide CollisionFree;
    hide HeadOfLog;
    hide Accepts;
    hide Succeeds;
    var final, start := LogAfter(env, log, run, |run|), Start(log);
    var consumed := Consumed(log, final);
    forall x, y | 0 <= x < y < |consumed| ensures consumed[x] != consumed[y] {
      var m, n := start + x + 1, start + y + 1;
      var i := LengthPassed(env, log, run, |run|, m);
      var j := LengthPassed(env, log, run, |run|, n);
      ConsumesPrefix(env, log, run, i);
      ConsumesPrefix(env, log, run, j);
      PrefixHeads(env, final, m, n);
      assert i != j;
    }
  }

  /** Request i submits a record that the log does not hold, from the one behind the run's first
      head on: a check a writer can make on the log it reads before the call. */
  predicate SubmitsNew(env: Env, log: seq<Record>, run: seq<Request>, i: nat)
    requires i < |run|
  {
    var seen := LogAfter(env, log, run, i);
    Start(log) <= |seen| && RecordOf(env, run[i]) !in seen[Start(log)..]
  }

  ghost predicate FollowedBySuccess(env: Env, log: seq<Record>, run: seq<Request>, i: nat) {
    exists j :: i < j < |run| && Succeeds(env, log, run, j)
  }

  /** The same as a check before each call: each head is consumed at most once if and only if
      every accepted request that another one follows submits a new record. */
  lemma NewRecordsExactly(env: Env, log: seq<Record>, run: seq<Request>)
    requires CollisionFree(env)
    ensures ConsumesOnce(env, log, run) <==>
      forall i :: 0 <= i < |run| && Succeeds(env, log, run, i) && FollowedBySuccess(env, log, run, i) ==>
        SubmitsNew(env, log, run, i)
  {
    HeadsConsumedOnceExactly(env, log, run);
    var final, start := LogAfter(env, log, run, |run|), Start(log);
    var consumed := Consumed(log, final);
    if Distinct(consumed) {
      forall i | 0 <= i < |run| && Succeeds(env, log, run, i) && FollowedBySuccess(env, log, run, i)
        ensures SubmitsNew(env, log, run, i)
      {
        DistinctSubmitsNew(env, log, run, i);
      }
    }
    if forall i :: 0 <= i < |run| && Succeeds(env, log, run, i) && FollowedBySuccess(env, log, run, i) ==>
      SubmitsNew(env, log, run, i)
    {
      forall x, y | 0 <= x < y < |consumed| ensures consumed[x] != consumed[y] {
        NewMeansDifferent(env, log, run, x, y);
      }
    }
  }

  /** Where a successful request puts its record. */
  lemma RecordLands(env: Env, log: seq<Record>, run: seq<Request>, i: nat)
    requires CollisionFree(env) && i < |run| && Succeeds(env, log, run, i)
    ensures var final, length := LogAfter(env, log, run, |run|), |LogAfter(env, log, run, i)|;
      && |log| <= length < |final| && final[..length] == LogAfter(env, log, run, i)
      && final[length] == RecordOf(env, run[i])
  {
    hide CollisionFree;
    hide HeadOfLog;
    hide LogAfter;
    hide Succeeds;
    ConsumesPrefix(env, log, run, i);
    LogOnlyGrows(env, log, run, i + 1, |run|);
    RecordAppended(env, log, run, i);
  }

  /** A later request succeeds exactly when the record does not stay the last. */
  lemma FollowedExactly(env: Env, log: seq<Record>, run: seq<Request>, i: nat)
    requires CollisionFree(env) && i < |run| && Succeeds(env, log, run, i)
    ensures FollowedBySuccess(env, log, run, i) <==>
      |LogAfter(env, log, run, i)| + 1 < |LogAfter(env, log, run, |run|)|
  {
    hide CollisionFree;
    hide HeadOfLog;
    hide LogAfter;
    hide Succeeds;
    var length := |LogAfter(env, log, run, i)|;
    RecordAppended(env, log, run, i);
    ConsumesPrefix(env, log, run, i);
    if length + 1 < |LogAfter(env, log, run, |run|)| {
      var j := LengthPassed(env, log, run, |run|, length + 1);
      if j < i { LogOnlyGrows(env, log, run, j, i); }
    }
    if j :| i < j < |run| && Succeeds(env, log, run, j) {
      ConsumesPrefix(env, log, run, j);
      LogOnlyGrows(env, log, run, i + 1, j);
    }
  }

  lemma DistinctSubmitsNew(env: Env, log: seq<Record>, run: seq<Request>, i: nat)
    requires CollisionFree(env) && log <= LogAfter(env, log, run, |run|)
    requires Distinct(Consumed(log, LogAfter(env, log, run, |run|)))
    requires i < |run| && Succeeds(env, log, run, i) && FollowedBySuccess(env, log, run, i)
    ensures SubmitsNew(env, log, run, i)
  {
    hide LogAfter;
    hide CollisionFree;
    hide HeadOfLog;
    hide Accepts;
    hide Succeeds;
    hide FollowedBySuccess;
    var final, start := LogAfter(env, log, run, |run|), Start(log);
    var consumed, seen := Consumed(log, final), LogAfter(env, log, run, i);
    RecordLands(env, log, run, i);
    FollowedExactly(env, log, run, i);
    assert consumed[|seen| - start] == RecordOf(env, run[i]);
    forall k | 0 <= k < |seen[start..]| ensures seen[start..][k] != RecordOf(env, run[i]) {
      assert seen[start..][k] == final[start + k] == consumed[k];
    }
  }

  lemma NewMeansDifferent(env: Env, log: seq<Record>, run: seq<Request>, x: nat, y: nat)
    requires CollisionFree(env) && log <= LogAfter(env, log, run, |run|)
    requires forall i :: 0 <= i < |run| && Succeeds(env, log, run, i) && FollowedBySuccess(env, log, run, i) ==>
      SubmitsNew(env, log, run, i)
    requires x < y < |Consumed(log, LogAfter(env, log, run, |run|))|
    ensures Consumed(log, LogAfter(env, log, run, |run|))[x] != Consumed(log, LogAfter(env, log, run, |run|))[y]
  {
    hide LogAfter;
    hide CollisionFree;
    hide HeadOfLog;
    hide Accepts;
    hide Succeeds;
    hide FollowedBySuccess;
    var final, start := LogAfter(env, log, run, |run|), Start(log);
    var i := LengthPassed(env, log, run, |run|, start + y);
    RecordLands(env, log, run, i);
    FollowedExactly(env, log, run, i);
    var seen := LogAfter(env, log, run, i);
    assert SubmitsNew(env, log, run, i);
    assert seen[start..][x] == final[start + x];
  }

  /** An append leaves the head as it was when, and only when, it repeats the last record. */
  lemma HeadStaysExactly(env: Env, log: seq<Record>, q: Request)
    requires CollisionFree(env) && Accepts(env, log, q)
    ensures HeadOfLog(env, Append(env, log, q)) == HeadOfLog(env, log) <==> log != [] && log[|log| - 1] == RecordOf(env, q)
  {
    var after := Append(env, log, q);
    assert after[|after| - 1] == RecordOf(env, q);
  }

  /** A head can come back without ever staying: two records submitted in turn. All four requests
      succeed, the second and the fourth consume one head, and no append leaves the head in place. */
  lemma HeadComesBack(env: Env, identity: Identity, one: Signed, two: Signed)
    requires CollisionFree(env) && one != two
    ensures var first, second := Request(None, one, identity), Request(None, two, identity);
      var headOne, headTwo := Some(HeadOf(env, RecordOf(env, first))), Some(HeadOf(env, RecordOf(env, second)));
      var run := [first, second.(expectedHead := headOne), first.(expectedHead := headTwo), second.(expectedHead := headOne)];
      && (forall i :: 0 <= i < 4 ==> Succeeds(env, [], run, i))
      && run[1].expectedHead == run[3].expectedHead
      && (forall i :: 0 <= i < 4 ==>
            HeadOfLog(env, LogAfter(env, [], run, i + 1)) != HeadOfLog(env, LogAfter(env, [], run, i)))
  {
    var first, second := Request(None, one, identity), Request(None, two, identity);
    var headOne, headTwo := Some(HeadOf(env, RecordOf(env, first))), Some(HeadOf(env, RecordOf(env, second)));
    var run := [first, second.(expectedHead := headOne), first.(expectedHead := headTwo), second.(expectedHead := headOne)];
    var a, b := RecordOf(env, first), RecordOf(env, second);
    HeadTellsRecord(env, a, b);
    assert LogAfter(env, [], run, 0) == [];
    assert LogAfter(env, [], run, 1) == [a];
    assert LogAfter(env, [], run, 2) == [a, b];
    assert LogAfter(env, [], run, 3) == [a, b, a];
    assert LogAfter(env, [], run, 4) == [a, b, a, b];
  }

  /** A writer that names the head and resubmits the record behind it consumes that head again and
      again: every such request succeeds and leaves the head in place. */
  lemma {:induction false} RepeatedRecordReplaysHead(env: Env, identity: Identity, signed: Signed, n: nat)
    requires CollisionFree(env)
    ensures var first := Request(None, signed, identity);
      var again := Request(Some(HeadOf(env, RecordOf(env, first))), signed, identity);
      var run := [first] + seq(n, i => again);
      && !Advances(again)
      && |LogAfter(env, [], run, n + 1)| == n + 1
      && HeadOfLog(env, LogAfter(env, [], run, n + 1)) == again.expectedHead
      && forall i :: 0 <= i <= n ==> Succeeds(env, [], run, i)
  {
    var first := Request(None, signed, identity);
    var again := Request(Some(HeadOf(env, RecordOf(env, first))), signed, identity);
    var run := [first] + seq(n, i => again);
    ReplayStep(env, run, first, again, n);
  }

  lemma {:induction false} ReplayStep(env: Env, run: seq<Request>, first: Request, again: Request, n: nat)
    requires first.expectedHead == None && again == first.(expectedHead := Some(HeadOf(env, RecordOf(env, first))))
    requires n < |run| && run[0] == first && forall i :: 0 < i <= n ==> run[i] == again
    ensures |LogAfter(env, [], run, n + 1)| == n + 1
    ensures HeadOfLog(env, LogAfter(env, [], run, n + 1)) == again.expectedHead
    ensures forall i :: 0 <= i <= n ==> Succeeds(env, [], run, i)
  {
    if n == 0 {
      assert LogAfter(env, [], run, 0) == [];
      assert LogAfter(env, [], run, 1) == [] + [RecordOf(env, first)];
    } else {
      ReplayStep(env, run, first, again, n - 1);
      assert LogAfter(env, [], run, n + 1) == LogAfter(env, [], run, n) + [RecordOf(env, again)];
    }
  }
}
