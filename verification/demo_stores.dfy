/** The compare-and-swap stores of the demo simulation (scripts/simulate-demos.ts). */
module DemoStores {
  import opened Wrappers

  type Digest = string

  datatype SwapStatus = Appended | Conflict

  /** A value with its content digest. */
  datatype Versioned<V> = Versioned(contentDigest: Digest, value: V)

  /** RunStateStore */
  class RunStateStore<V> {
    var state: Versioned<V>

    constructor (state: Versioned<V>)
      ensures this.state == state
    {
      this.state := state;
    }

    method CompareAndSwap(expected: Digest, next: Versioned<V>) returns (status: SwapStatus)
      modifies this
      ensures status == Appended <==> old(state).contentDigest == expected
      ensures state == Swap(old(state), SwapRequest(expected, next))
    {
      if state.contentDigest != expected { return Conflict; }
      state := next;
      return Appended;
    }
  }

  /** ProjectionPort: the same guard, but a conflict throws; the fields written are recorded. */
  class ProjectionPort<V> {
    var state: Versioned<V>
    var writes: seq<string>
    var projectionReads: nat

    constructor (state: Versioned<V>)
      ensures this.state == state && writes == [] && projectionReads == 0
    {
      this.state, writes, projectionReads := state, [], 0;
    }

    method Read() returns (r: Versioned<V>)
      modifies this`projectionReads
      ensures r == state && projectionReads == old(projectionReads) + 1
    {
      projectionReads := projectionReads + 1;
      return state;
    }

    method Write(field: string, expected: Digest, next: Versioned<V>) returns (r: Result<(), ()>)
      modifies this`state, this`writes
      ensures r.Ok? <==> old(state).contentDigest == expected
      ensures state == Swap(old(state), SwapRequest(expected, next))
      ensures writes == old(writes) + if r.Ok? then [field] else []
    {
      if expected != state.contentDigest { return Err(()); }
      state := next;
      writes := writes + [field];
      return Ok(());
    }
  }

  /** DispatchStore: the first decision is kept for good. */
  datatype DispatchResult<R> = DispatchAppended(receipt: R) | DispatchExisting(receipt: R) | DispatchConflict

  class DispatchStore<R> {
    var receipt: Option<(Digest, R)>

    constructor ()
      ensures receipt == None
    {
      receipt := None;
    }

    method Persist(decisionDigest: Digest, receiptFor: Digest -> R) returns (r: DispatchResult<R>)
      modifies this
      ensures receipt == if old(receipt).Some? then old(receipt) else Some((decisionDigest, receiptFor(decisionDigest)))
      ensures r.DispatchConflict? <==> receipt.value.0 != decisionDigest
      ensures !r.DispatchConflict? ==> r.receipt == receipt.value.1 && (r.DispatchAppended? <==> old(receipt) == None)
    {
      if receipt.Some? {
        return if receipt.value.0 == decisionDigest then DispatchExisting(receipt.value.1) else DispatchConflict;
      }
      receipt := Some((decisionDigest, receiptFor(decisionDigest)));
      return DispatchAppended(receipt.value.1);
    }
  }

  // ----- Racing swaps -----

  datatype SwapRequest<V> = SwapRequest(expected: Digest, next: Versioned<V>)

  function Swap<V>(state: Versioned<V>, q: SwapRequest<V>): Versioned<V> {
    if state.contentDigest == q.expected then q.next else state
  }

  function StateAfter<V>(state: Versioned<V>, run: seq<SwapRequest<V>>, n: nat): Versioned<V>
    requires n <= |run|
  {
    if n == 0 then state else Swap(StateAfter(state, run, n - 1), run[n - 1])
  }

  predicate SwapSucceeds<V>(state: Versioned<V>, run: seq<SwapRequest<V>>, i: nat)
    requires i < |run|
  {
    StateAfter(state, run, i).contentDigest == run[i].expected
  }

  /** No request brings back a digest that an earlier request expected. */
  predicate NoReturn<V>(run: seq<SwapRequest<V>>) {
    forall i, j :: 0 <= i <= j < |run| ==> run[j].next.contentDigest != run[i].expected
  }

  lemma {:induction false} DigestLeft<V>(state: Versioned<V>, run: seq<SwapRequest<V>>, i: nat, n: nat)
    requires NoReturn(run) && i < n <= |run| && SwapSucceeds(state, run, i)
    ensures StateAfter(state, run, n).contentDigest != run[i].expected
  {
    if n == i + 1 {
      assert StateAfter(state, run, n) == run[i].next;
    } else {
      DigestLeft(state, run, i, n - 1);
      assert run[n - 1].next.contentDigest != run[i].expected;
    }
  }

  /** Of all racing requests that expect one state, at most one succeeds. */
  lemma OneSwapWins<V>(state: Versioned<V>, run: seq<SwapRequest<V>>, i: nat, j: nat)
    requires NoReturn(run) && i < j < |run| && SwapSucceeds(state, run, i) && SwapSucceeds(state, run, j)
    ensures run[i].expected != run[j].expected
  {
    DigestLeft(state, run, i, j);
  }
}
