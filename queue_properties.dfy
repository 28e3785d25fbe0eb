/**
  Properties of the fragment's request queue, proved on the state machine of
  module PermissionQueue: each entry point in isolation, the invariant they all
  keep, and what follows for whole runs of events.
 */
module QueueProperties {
  import opened Wrappers
  import opened SparseArrays
  import opened Deferreds
  import opened PermissionQueue

  /** Parallel arrays: the second is sorted and has the first one's key set. */
  lemma SameKeysSorted<V, W>(a: seq<Entry<V>>, b: seq<Entry<W>>)
    requires SameKeys(a, b) && Sorted(a)
    ensures Sorted(b) && Keys(a) == Keys(b)
  {
    forall k | k in Keys(b) ensures k in Keys(a) {
      var i :| 0 <= i < |b| && b[i].key == k;
      assert a[i].key == k;
    }
  }

  lemma InitialInv()
    ensures Inv(Initial())
    ensures LiveCodes(Initial()) == {}
  {
    assert Keys(Initial().readyPermissions) == {};
  }

  /** A snapshot the fragment cannot issue from stays as it is. */
  lemma NoIssueUnlessEligible(q: Queue)
    requires !Eligible(q) || q.readyPermissions == []
    ensures TryIssue(q) == Step(q, None, None)
  {
  }

  /** FIFO issue: when eligible, the oldest pending entry (lowest code) moves
      into the in-flight slot, exactly its list is issued with its code, and
      the other pending entries stay as they were. */
  lemma {:induction false} IssueOldest(q: Queue)
    requires Inv(q) && Eligible(q) && q.readyPermissions != []
    ensures var code := q.readyPermissions[0].key;
            && (forall k :: k in Keys(q.readyPermissions) ==> code <= k)
            && TryIssue(q) == Step(
                 q.(requestingDeferred := Some(q.readyDeferred[0].value),
                    requestingRequestCode := code,
                    readyDeferred := q.readyDeferred[1..],
                    readyPermissions := q.readyPermissions[1..]),
                 Some(Issue(code, q.readyPermissions[0].value)),
                 None)
  {
    var rp, rd := q.readyPermissions, q.readyDeferred;
    SameKeysSorted(rp, rd);
    GetAt(rp, 0);
    GetAt(rd, 0);
    RemoveFirst(rp);
    RemoveFirst(rd);
    forall k | k in Keys(rp) ensures rp[0].key <= k {
      var i :| 0 <= i < |rp| && rp[i].key == k;
    }
  }

  lemma {:induction false} TryIssuePreservesInv(q: Queue)
    requires Inv(q)
    ensures Inv(TryIssue(q).next)
  {
    if Eligible(q) && q.readyPermissions != [] {
      IssueOldest(q);
      var rp := q.readyPermissions;
      KeysCons(rp);
      var q' := TryIssue(q).next;
      assert q'.readyPermissions == rp[1..];
    }
  }

  /** Duplicate enqueue: a list equal to a pending entry changes nothing at all:
      both arrays, the counter and the in-flight slot stay, nothing is issued. */
  lemma DuplicateEnqueueIgnored(q: Queue, deferred: Deferred, permissions: Permissions, i: nat)
    requires i < |q.readyPermissions| && q.readyPermissions[i].value == permissions
    ensures Enqueue(q, deferred, permissions) == Step(q, None, None)
  {
  }

  /** The next code is at least 11 and above every code the fragment tracks. */
  lemma NextCodeIsFresh(q: Queue)
    requires Inv(q)
    ensures q.requestCode + 1 >= INITIAL_REQUEST_CODE + 1
    ensures forall c :: c in LiveCodes(q) ==> c < q.requestCode + 1
  {
  }

  /** `put` of a key above every present key, on both parallel arrays. */
  lemma PutAboveBoth(rp: seq<Entry<Permissions>>, rd: seq<Entry<Deferred>>, last: int,
                     permissions: Permissions, deferred: Deferred)
    requires Sorted(rp) && SameKeys(rp, rd)
    requires forall k :: k in Keys(rp) ==> INITIAL_REQUEST_CODE < k <= last
    ensures var code := last + 1;
            && Put(rp, code, permissions) == rp + [Entry(code, permissions)]
            && Put(rd, code, deferred) == rd + [Entry(code, deferred)]
            && Keys(rp + [Entry(code, permissions)]) == Keys(rd + [Entry(code, deferred)]) == Keys(rp) + {code}
  {
    var code := last + 1;
    SameKeysSorted(rp, rd);
    PutAbove(rp, code, permissions);
    PutAbove(rd, code, deferred);
  }

  /** Storing under the next code appends to both arrays. */
  lemma InsertAppends(q: Queue, deferred: Deferred, permissions: Permissions)
    requires Sorted(q.readyPermissions) && SameKeys(q.readyPermissions, q.readyDeferred)
    requires forall k :: k in Keys(q.readyPermissions) ==> INITIAL_REQUEST_CODE < k <= q.requestCode
    ensures var code := q.requestCode + 1;
            var q' := Insert(q, deferred, permissions);
            && q'.readyPermissions == q.readyPermissions + [Entry(code, permissions)]
            && q'.readyDeferred == q.readyDeferred + [Entry(code, deferred)]
            && Keys(q'.readyPermissions) == Keys(q'.readyDeferred) == Keys(q.readyPermissions) + {code}
  {
    PutAboveBoth(q.readyPermissions, q.readyDeferred, q.requestCode, permissions, deferred);
  }

  /** Fresh enqueue: a list equal to no pending entry is stored under the code
      after the counter (see NextCodeIsFresh); both arrays gain that one entry
      at their end and still have equal key sets; the in-flight slot is not
      consulted nor changed; then an issue is tried. */
  lemma FreshEnqueue(q: Queue, deferred: Deferred, permissions: Permissions)
    requires Inv(q) && !IsPending(q, permissions)
    ensures var code := q.requestCode + 1;
            var q' := Insert(q, deferred, permissions);
            && q'.requestCode == code
            && q'.readyPermissions == q.readyPermissions + [Entry(code, permissions)]
            && q'.readyDeferred == q.readyDeferred + [Entry(code, deferred)]
            && Keys(q'.readyPermissions) == Keys(q'.readyDeferred) == Keys(q.readyPermissions) + {code}
            && q'.requestingDeferred == q.requestingDeferred
            && q'.requestingRequestCode == q.requestingRequestCode
            && Enqueue(q, deferred, permissions) == TryIssue(q')
  {
    InsertAppends(q, deferred, permissions);
  }

  /** Appending a new list under the next code keeps the invariant. */
  lemma AppendPreservesInv(q: Queue, q': Queue, deferred: Deferred, permissions: Permissions)
    requires Inv(q) && !IsPending(q, permissions)
    requires q' == q.(requestCode := q.requestCode + 1,
                      readyPermissions := q.readyPermissions + [Entry(q.requestCode + 1, permissions)],
                      readyDeferred := q.readyDeferred + [Entry(q.requestCode + 1, deferred)])
    ensures Inv(q')
  {
    var code := q.requestCode + 1;
    var rp, rd := q.readyPermissions, q.readyDeferred;
    var rp', rd' := q'.readyPermissions, q'.readyDeferred;
    AppendAbove(rp, Entry(code, permissions));
    assert SameKeys(rp', rd') by {
      forall i | 0 <= i < |rp'| ensures rp'[i].key == rd'[i].key {
        if i < |rp| {
          assert rp'[i] == rp[i] && rd'[i] == rd[i];
        }
      }
    }
    assert Distinct(rp') by {
      forall i, j | 0 <= i < j < |rp'| ensures rp'[i].value != rp'[j].value {
        assert rp'[i] == rp[i];
        if j < |rp| {
          assert rp'[j] == rp[j];
        }
      }
    }
  }

  /** Storing a list that is not pending keeps the invariant. */
  lemma InsertPreservesInv(q: Queue, deferred: Deferred, permissions: Permissions)
    requires Inv(q) && !IsPending(q, permissions)
    ensures Inv(Insert(q, deferred, permissions))
  {
    InsertAppends(q, deferred, permissions);
    AppendPreservesInv(q, Insert(q, deferred, permissions), deferred, permissions);
  }

  /** Enqueue keeps the invariant. */
  lemma EnqueuePreservesInv(q: Queue, deferred: Deferred, permissions: Permissions)
    requires Inv(q)
    ensures Inv(Enqueue(q, deferred, permissions).next)
  {
    if !IsPending(q, permissions) {
      InsertPreservesInv(q, deferred, permissions);
      TryIssuePreservesInv(Insert(q, deferred, permissions));
    }
  }

  /** Stale result: a code other than the in-flight one, or no deferred in
      flight, changes no state, issues nothing and resolves no deferred. */
  lemma StaleResultIgnored(q: Queue, code: int, grantResults: seq<int>)
    requires code != q.requestingRequestCode || q.requestingDeferred.None?
    ensures OnResult(q, code, grantResults) == Step(q, None, None)
  {
  }

  /** Matching result: the in-flight deferred is completed with exactly
      `grantResults`, the slot is emptied (no deferred, code 0) and the oldest
      pending entry, if the host allows, is issued next. */
  lemma MatchingResult(q: Queue, grantResults: seq<int>)
    requires Inv(q) && q.requestingDeferred.Some?
    ensures var s := OnResult(q, q.requestingRequestCode, grantResults);
            var cleared := q.(requestingDeferred := None, requestingRequestCode := NO_REQUEST_CODE);
            && s.resolved == Some(Effect(q.requestingDeferred.value, Resolution.Complete(grantResults)))
            && s.next == TryIssue(cleared).next
            && s.issued == TryIssue(cleared).issued
            && Inv(cleared)
            && Inv(s.next)
  {
    var cleared := q.(requestingDeferred := None, requestingRequestCode := NO_REQUEST_CODE);
    TryIssuePreservesInv(cleared);
  }

  /** Cancel on teardown: view-destroyed, detach and destroy cancel the in-flight
      deferred and zero the code, while the deferred stays in the slot and the
      pending queue and counter are untouched. */
  lemma TeardownCancels(q: Queue, kind: Lifecycle, host: Host)
    requires Inv(q) && kind in {DestroyView, Detach, Destroy}
    ensures var s := OnLifecycle(q, kind, host);
            && s.next == q.(requestingRequestCode := NO_REQUEST_CODE, host := host)
            && s.issued == None
            && s.resolved == (if q.requestingDeferred.Some?
                              then Some(Effect(q.requestingDeferred.value, Resolution.Cancel)) else None)
            && Inv(s.next)
  {
  }

  lemma {:induction false} ApplyPreservesInv(q: Queue, e: Event)
    requires Inv(q)
    ensures Inv(Apply(q, e).next)
  {
    match e
    case LifecycleEvent(kind, host) =>
      TryIssuePreservesInv(q.(host := host));
    case Request(deferred, permissions, host) =>
      EnqueuePreservesInv(q.(host := host), deferred, permissions);
    case Result(code, grantResults, host) =>
      if q.requestingRequestCode == code && q.requestingDeferred.Some? {
        MatchingResult(q.(host := host), grantResults);
      }
  }

  lemma {:induction false} RunPreservesInv(q: Queue, es: seq<Event>)
    requires Inv(q)
    ensures Inv(Run(q, es).last)
    decreases |es|
  {
    if es != [] {
      ApplyPreservesInv(q, es[0]);
      RunPreservesInv(Apply(q, es[0]).next, es[1..]);
    }
  }

  /** At most one request in flight: a step issues only into an empty slot (or
      one its own matching result just emptied), and the issued request then
      occupies the slot under its code, no longer pending. */
  lemma {:induction false} AtMostOneInFlight(q: Queue, e: Event)
    requires Inv(q)
    ensures var s := Apply(q, e);
            s.issued.Some? ==>
              && (q.requestingDeferred.None?
                  || (e.Result? && e.code == q.requestingRequestCode))
              && s.next.requestingDeferred.Some?
              && s.next.requestingRequestCode == s.issued.value.code
              && s.issued.value.code !in Keys(s.next.readyPermissions)
  {
    ApplyPreservesInv(q, e);
    var s := Apply(q, e);
    if s.issued.Some? {
      assert s.next.requestingRequestCode == s.issued.value.code;
    }
  }

  /** The flags an event carries forbid an issue (removing, no activity,
      detached or not added). */
  predicate HostForbids(h: Host) {
    h.isRemoving || !h.hasActivity || h.isDetached || !h.isAdded
  }

  /** The guard of `tryRequestPermission` is evaluated on the flags as they
      stand when the event runs: whichever event it is, flags that forbid an
      issue give no issue. */
  lemma IneligibleHostIssuesNothing(q: Queue, e: Event)
    requires HostForbids(e.host)
    ensures Apply(q, e).issued == None
  {
    match e
    case LifecycleEvent(kind, host) =>
      NoIssueUnlessEligible(q.(host := host));
    case Request(deferred, permissions, host) =>
      var q' := q.(host := host);
      if !IsPending(q', permissions) {
        NoIssueUnlessEligible(Insert(q', deferred, permissions));
      }
    case Result(code, grantResults, host) =>
      NoIssueUnlessEligible(q.(host := host, requestingDeferred := None, requestingRequestCode := NO_REQUEST_CODE));
  }
}
