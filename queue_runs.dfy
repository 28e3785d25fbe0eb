/**
  What the fragment's request queue does over whole runs of events.
 */
module QueueRuns {
  import opened Wrappers
  import opened SparseArrays
  import opened Deferreds
  import opened PermissionQueue
  import opened QueueProperties

  // ---------------------------------------------------------------------------
  // Requests are issued in strictly increasing code order, that is, in the
  // order they were enqueued.

  /** Every pending code, and the counter, lie above `c`. */
  ghost predicate Above(q: Queue, c: int) {
    Inv(q) && c <= q.requestCode && forall k :: k in Keys(q.readyPermissions) ==> c < k
  }

  ghost predicate IncreasingAbove(issued: seq<Issue>, c: int) {
    && (forall i :: 0 <= i < |issued| ==> c < issued[i].code)
    && (forall i, j :: 0 <= i < j < |issued| ==> issued[i].code < issued[j].code)
  }

  lemma {:induction false} TryIssueAbove(q: Queue, c: int)
    requires Above(q, c)
    ensures var s := TryIssue(q);
            if s.issued.Some? then c < s.issued.value.code && Above(s.next, s.issued.value.code)
            else Above(s.next, c)
  {
    TryIssuePreservesInv(q);
    if Eligible(q) && q.readyPermissions != [] {
      IssueOldest(q);
      var rp := q.readyPermissions;
      KeysCons(rp);
      forall k | k in Keys(rp[1..]) ensures rp[0].key < k {
        var i :| 0 <= i < |rp[1..]| && rp[1..][i].key == k;
        assert rp[i + 1].key == k;
      }
    }
  }

  lemma EnqueueAbove(q: Queue, deferred: Deferred, permissions: Permissions, c: int)
    requires Above(q, c)
    ensures var s := Enqueue(q, deferred, permissions);
            if s.issued.Some? then c < s.issued.value.code && Above(s.next, s.issued.value.code)
            else Above(s.next, c)
  {
    if !IsPending(q, permissions) {
      InsertAbove(q, deferred, permissions, c);
      TryIssueAbove(Insert(q, deferred, permissions), c);
    }
  }

  /** Storing a fresh request keeps every pending code above `c`. */
  lemma InsertAbove(q: Queue, deferred: Deferred, permissions: Permissions, c: int)
    requires Above(q, c) && !IsPending(q, permissions)
    ensures Above(Insert(q, deferred, permissions), c)
  {
    InsertAppends(q, deferred, permissions);
    InsertPreservesInv(q, deferred, permissions);
  }

  lemma ResultAbove(q: Queue, code: int, grantResults: seq<int>, c: int)
    requires Above(q, c)
    ensures var s := OnResult(q, code, grantResults);
            if s.issued.Some? then c < s.issued.value.code && Above(s.next, s.issued.value.code)
            else Above(s.next, c)
  {
    if q.requestingRequestCode == code && q.requestingDeferred.Some? {
      var cleared := q.(requestingDeferred := None, requestingRequestCode := NO_REQUEST_CODE);
      MatchingResult(q, grantResults);
      TryIssueAbove(cleared, c);
    }
  }

  lemma {:induction false} StepAbove(q: Queue, e: Event, c: int)
    requires Above(q, c)
    ensures var s := Apply(q, e);
            if s.issued.Some? then c < s.issued.value.code && Above(s.next, s.issued.value.code)
            else Above(s.next, c)
  {
    match e
    case LifecycleEvent(kind, host) =>
      TryIssueAbove(q.(host := host), c);
    case Request(deferred, permissions, host) =>
      EnqueueAbove(q.(host := host), deferred, permissions, c);
    case Result(code, grantResults, host) =>
      ResultAbove(q.(host := host), code, grantResults, c);
  }

  lemma {:induction false} RunIssuesIncreasing(q: Queue, es: seq<Event>, c: int)
    requires Above(q, c)
    ensures IncreasingAbove(Run(q, es).issued, c)
    decreases |es|
  {
    if es != [] {
      var s := Apply(q, es[0]);
      StepAbove(q, es[0], c);
      if s.issued.Some? {
        RunIssuesIncreasing(s.next, es[1..], s.issued.value.code);
      } else {
        RunIssuesIncreasing(s.next, es[1..], c);
      }
    }
  }

  /** FIFO over a whole run: from any reachable snapshot, the requests forwarded
      to the host carry codes of at least 11 that strictly increase, so they go
      out in the order they were enqueued, and none goes out twice. */
  lemma IssuedInArrivalOrder(q: Queue, es: seq<Event>)
    requires Inv(q)
    ensures IncreasingAbove(Run(q, es).issued, INITIAL_REQUEST_CODE)
  {
    RunIssuesIncreasing(q, es, INITIAL_REQUEST_CODE);
  }

  // ---------------------------------------------------------------------------
  // A deferred the fragment does not hold is never resolved by it; in
  // particular the deferred of a duplicate enqueue is never resolved.

  /** The fragment holds `d`, pending or in flight. */
  ghost predicate Holds(q: Queue, d: Deferred) {
    (exists i :: 0 <= i < |q.readyDeferred| && q.readyDeferred[i].value == d)
    || q.requestingDeferred == Some(d)
  }

  /** No event of `es` enqueues `d`. */
  ghost predicate NeverEnqueues(es: seq<Event>, d: Deferred) {
    forall i :: 0 <= i < |es| && es[i].Request? ==> es[i].deferred != d
  }

  lemma TryIssueKeepsOut(q: Queue, d: Deferred)
    requires Inv(q) && !Holds(q, d)
    ensures !Holds(TryIssue(q).next, d) && TryIssue(q).resolved == None
  {
    if Eligible(q) && q.readyPermissions != [] {
      IssueOldest(q);
      var rd := q.readyDeferred;
      assert rd[0].value != d;
      forall i | 0 <= i < |rd[1..]| ensures rd[1..][i].value != d {
        assert rd[1..][i] == rd[i + 1];
      }
    }
  }

  lemma EnqueueKeepsOut(q: Queue, deferred: Deferred, permissions: Permissions, d: Deferred)
    requires Inv(q) && !Holds(q, d) && deferred != d
    ensures var s := Enqueue(q, deferred, permissions);
            !Holds(s.next, d) && s.resolved == None
  {
    if !IsPending(q, permissions) {
      InsertAppends(q, deferred, permissions);
      InsertPreservesInv(q, deferred, permissions);
      var q' := Insert(q, deferred, permissions);
      forall i | 0 <= i < |q'.readyDeferred| ensures q'.readyDeferred[i].value != d {
        if i < |q.readyDeferred| {
          assert q'.readyDeferred[i] == q.readyDeferred[i];
        }
      }
      TryIssueKeepsOut(q', d);
    }
  }

  lemma ResultKeepsOut(q: Queue, code: int, grantResults: seq<int>, d: Deferred)
    requires Inv(q) && !Holds(q, d)
    ensures var s := OnResult(q, code, grantResults);
            !Holds(s.next, d) && (s.resolved.Some? ==> s.resolved.value.deferred != d)
  {
    if q.requestingRequestCode == code && q.requestingDeferred.Some? {
      MatchingResult(q, grantResults);
      TryIssueKeepsOut(q.(requestingDeferred := None, requestingRequestCode := NO_REQUEST_CODE), d);
    }
  }

  lemma {:induction false} StepKeepsOut(q: Queue, e: Event, d: Deferred)
    requires Inv(q) && !Holds(q, d) && !(e.Request? && e.deferred == d)
    ensures var s := Apply(q, e);
            !Holds(s.next, d) && (s.resolved.Some? ==> s.resolved.value.deferred != d)
  {
    match e
    case LifecycleEvent(kind, host) =>
      TryIssueKeepsOut(q.(host := host), d);
    case Request(deferred, permissions, host) =>
      EnqueueKeepsOut(q.(host := host), deferred, permissions, d);
    case Result(code, grantResults, host) =>
      ResultKeepsOut(q.(host := host), code, grantResults, d);
  }

  lemma {:induction false} OrphanNeverResolved(q: Queue, es: seq<Event>, d: Deferred)
    requires Inv(q) && !Holds(q, d) && NeverEnqueues(es, d)
    ensures forall i :: 0 <= i < |Run(q, es).resolved| ==> Run(q, es).resolved[i].deferred != d
    decreases |es|
  {
    if es != [] {
      var s := Apply(q, es[0]);
      StepKeepsOut(q, es[0], d);
      ApplyPreservesInv(q, es[0]);
      assert NeverEnqueues(es[1..], d) by {
        forall i | 0 <= i < |es[1..]| && es[1..][i].Request? ensures es[1..][i].deferred != d {
          assert es[1..][i] == es[i + 1];
        }
      }
      OrphanNeverResolved(s.next, es[1..], d);
    }
  }

  /** The deferred of a duplicate enqueue is dropped: whatever happens later
      (short of enqueuing that same deferred again), it is never completed nor
      cancelled, so its caller waits forever. */
  lemma DuplicateDeferredNeverResolved(q: Queue, d: Deferred, permissions: Permissions, host: Host, es: seq<Event>)
    requires Inv(q) && IsPending(q, permissions) && !Holds(q, d) && NeverEnqueues(es, d)
    ensures var t := Run(q, [Request(d, permissions, host)] + es);
            forall i :: 0 <= i < |t.resolved| ==> t.resolved[i].deferred != d
  {
    var es' := [Request(d, permissions, host)] + es;
    assert es'[1..] == es;
    OrphanNeverResolved(q.(host := host), es, d);
  }

  // ---------------------------------------------------------------------------
  // Teardown with a request in flight leaves the fragment stuck: the cancelled
  // deferred stays in the slot, so nothing is issued afterwards.

  /** The in-flight slot holds a deferred under code 0. */
  ghost predicate Stuck(q: Queue) {
    q.requestingDeferred.Some? && q.requestingRequestCode == NO_REQUEST_CODE
  }

  /** The host only answers codes it was given, and it is never given 0. */
  ghost predicate NoResultForCodeZero(es: seq<Event>) {
    forall i :: 0 <= i < |es| && es[i].Result? ==> es[i].code != NO_REQUEST_CODE
  }

  lemma StepStuck(q: Queue, e: Event)
    requires Stuck(q) && !(e.Result? && e.code == NO_REQUEST_CODE)
    ensures var s := Apply(q, e);
            && Stuck(s.next)
            && s.next.requestingDeferred == q.requestingDeferred
            && s.issued == None
            && (s.resolved.Some? ==> s.resolved.value == Effect(q.requestingDeferred.value, Resolution.Cancel))
  {
  }

  /** Every effect of `effects` cancels `d`. */
  ghost predicate OnlyCancels(effects: seq<Effect>, d: Deferred) {
    forall i :: 0 <= i < |effects| ==> effects[i] == Effect(d, Resolution.Cancel)
  }

  lemma {:induction false} RunStuck(q: Queue, es: seq<Event>)
    requires Stuck(q) && NoResultForCodeZero(es)
    ensures var t := Run(q, es);
            && t.issued == []
            && OnlyCancels(t.resolved, q.requestingDeferred.value)
            && t.last.requestingDeferred == q.requestingDeferred
    decreases |es|
  {
    if es != [] {
      var s := Apply(q, es[0]);
      StepStuck(q, es[0]);
      assert NoResultForCodeZero(es[1..]) by {
        forall i | 0 <= i < |es[1..]| && es[1..][i].Result? ensures es[1..][i].code != NO_REQUEST_CODE {
          assert es[1..][i] == es[i + 1];
        }
      }
      RunStuck(s.next, es[1..]);
    }
  }

  /** A teardown callback while a request is in flight cancels that request, and
      from then on the fragment issues nothing more, whatever attach or results
      follow, and only ever cancels that same deferred again. */
  lemma TeardownInFlightIsFinal(q: Queue, kind: Lifecycle, host: Host, es: seq<Event>)
    requires Inv(q) && q.requestingDeferred.Some? && kind in {DestroyView, Detach, Destroy}
    requires NoResultForCodeZero(es)
    ensures var t := Run(q, [LifecycleEvent(kind, host)] + es);
            && t.issued == []
            && |t.resolved| > 0
            && OnlyCancels(t.resolved, q.requestingDeferred.value)
  {
    var es' := [LifecycleEvent(kind, host)] + es;
    assert es'[1..] == es;
    TeardownCancels(q, kind, host);
    RunStuck(OnLifecycle(q, kind, host).next, es);
  }

  /** The resolutions a run applies to `d`, in order. */
  function ResolutionsOf(effects: seq<Effect>, d: Deferred): seq<Resolution>
    decreases |effects|
  {
    if effects == [] then []
    else (if effects[0].deferred == d then [effects[0].resolution] else []) + ResolutionsOf(effects[1..], d)
  }

  /** Repeated cancellations of a deferred act as one: it ends cancelled if it
      was waiting and keeps its outcome otherwise. */
  lemma {:induction false} RepeatedCancelIsOneCancel(effects: seq<Effect>, d: Deferred, s: DeferredState)
    requires OnlyCancels(effects, d) && effects != []
    ensures ResolveAll(s, ResolutionsOf(effects, d)) == Resolve(s, Resolution.Cancel)
    decreases |effects|
  {
    var rest := effects[1..];
    assert OnlyCancels(rest, d) by {
      forall i | 0 <= i < |rest| ensures rest[i] == Effect(d, Resolution.Cancel) {
        assert rest[i] == effects[i + 1];
      }
    }
    assert ResolutionsOf(effects, d) == [Resolution.Cancel] + ResolutionsOf(rest, d);
    SettledIsFinal(Resolve(s, Resolution.Cancel), ResolutionsOf(rest, d));
  }

  /** By contrast, a teardown with nothing in flight leaves the slot empty, so a
      later attach to an eligible host issues the oldest pending entry. */
  lemma TeardownIdleThenAttach(q: Queue, kind: Lifecycle, h1: Host, h2: Host)
    requires Inv(q) && q.requestingDeferred.None? && q.readyPermissions != []
    requires kind in {DestroyView, Detach, Destroy}
    requires !h2.isRemoving && h2.hasActivity && !h2.isDetached && h2.isAdded
    ensures Run(q, [LifecycleEvent(kind, h1), LifecycleEvent(Attach, h2)]).issued
            == [Issue(q.readyPermissions[0].key, q.readyPermissions[0].value)]
  {
    var es := [LifecycleEvent(kind, h1), LifecycleEvent(Attach, h2)];
    var s1 := Apply(q, es[0]);
    assert s1.next == q.(host := h1) && s1.issued == None;
    IssueOldest(q.(host := h2));
    var s2 := Apply(s1.next, LifecycleEvent(Attach, h2));
    assert s2.issued == Some(Issue(q.readyPermissions[0].key, q.readyPermissions[0].value));
    assert es[1..] == [LifecycleEvent(Attach, h2)];
    assert Run(s1.next, es[1..]).issued == ToSeq(s2.issued) + Run(s2.next, []).issued;
  }

  /** After `onDetach` the fragment has no activity, so a request made then is
      stored but not sent, even into an empty slot. */
  lemma RequestAfterDetachWaits(q: Queue, h1: Host, d: Deferred, permissions: Permissions, h2: Host)
    requires Inv(q) && !h2.hasActivity
    ensures var t := Run(q, [LifecycleEvent(Detach, h1), Request(d, permissions, h2)]);
            && t.issued == []
            && (!IsPending(q, permissions) ==> Entry(q.requestCode + 1, permissions) in t.last.readyPermissions)
  {
    var es := [LifecycleEvent(Detach, h1), Request(d, permissions, h2)];
    var s1 := Apply(q, es[0]);
    TeardownCancels(q, Detach, h1);
    var s2 := Apply(s1.next, es[1]);
    IneligibleHostIssuesNothing(s1.next, es[1]);
    assert es[1..] == [es[1]];
    assert Run(s1.next, es[1..]) == Trace(s2.next, [], ToSeq(s2.resolved));
    assert Run(q, es).last == s2.next;
    var q' := s1.next.(host := h2);
    assert !IsPending(q, permissions) ==> !IsPending(q', permissions);
    if !IsPending(q', permissions) {
      InsertAppends(q', d, permissions);
      NoIssueUnlessEligible(Insert(q', d, permissions));
      assert s2.next.readyPermissions[|q.readyPermissions|] == Entry(q.requestCode + 1, permissions);
    }
  }
}
