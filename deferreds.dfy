/**
  A `CompletableDeferred<IntArray>` of kotlinx.coroutines, reduced to its state:
  it starts out waiting, and the first of `complete(value)` and `cancel()` to
  reach it decides its outcome for good; every later attempt is ignored.
 */
module Deferreds {

  datatype DeferredState = Waiting | Completed(results: seq<int>) | Cancelled

  /** An attempt to resolve a deferred. */
  datatype Resolution = Complete(results: seq<int>) | Cancel

  /** The state a resolution attempt leaves behind. */
  function Resolve(s: DeferredState, r: Resolution): (next: DeferredState) {
    if s.Waiting? then
      match r
      case Complete(results) => Completed(results)
      case Cancel => Cancelled
    else s
  }

  /** The state after a sequence of resolution attempts, in order. */
  function ResolveAll(s: DeferredState, rs: seq<Resolution>): (last: DeferredState)
    decreases |rs|
  {
    if rs == [] then s else ResolveAll(Resolve(s, rs[0]), rs[1..])
  }

  /** A deferred that is no longer waiting ignores every later attempt. */
  lemma {:induction false} SettledIsFinal(s: DeferredState, rs: seq<Resolution>)
    requires !s.Waiting?
    ensures ResolveAll(s, rs) == s
  {
    if rs != [] {
      SettledIsFinal(Resolve(s, rs[0]), rs[1..]);
    }
  }

  /** The first attempt wins: a fresh deferred ends in the outcome of the first
      resolution it receives, and stays waiting if it receives none. */
  lemma {:induction false} FirstResolutionWins(rs: seq<Resolution>)
    ensures rs == [] ==> ResolveAll(Waiting, rs) == Waiting
    ensures rs != [] && rs[0].Cancel? ==> ResolveAll(Waiting, rs) == Cancelled
    ensures rs != [] && rs[0].Complete? ==> ResolveAll(Waiting, rs) == Completed(rs[0].results)
  {
    if rs != [] {
      SettledIsFinal(Resolve(Waiting, rs[0]), rs[1..]);
    }
  }

  class Deferred {
    var state: DeferredState

    constructor ()
      ensures state == Waiting
    {
      state := Waiting;
    }

    /** `complete(results)`: answers whether this call decided the outcome. */
    method Complete(results: seq<int>) returns (accepted: bool)
      modifies this
      ensures accepted == old(state).Waiting?
      ensures state == Resolve(old(state), Resolution.Complete(results))
    {
      accepted := state.Waiting?;
      if accepted {
        state := Completed(results);
      }
    }

    /** `cancel()`: cancels a waiting deferred; a resolved one is left alone. */
    method Cancel()
      modifies this
      ensures state == Resolve(old(state), Resolution.Cancel)
    {
      if state.Waiting? {
        state := Cancelled;
      }
    }
  }
}
