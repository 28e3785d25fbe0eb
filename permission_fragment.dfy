/**
  `PermissionFragment`: the headless fragment that queues permission requests,
  forwards one at a time to the host's permission dialog and hands each result
  to the deferred its caller awaits. Its methods follow the Kotlin members one
  for one and are proved against the state machine of module PermissionQueue.
 */
module Fragment {
  import opened Wrappers
  import opened SparseArrays
  import opened Deferreds
  import opened PermissionQueue
  import opened QueueProperties

  class PermissionFragment {
    var requestCode: int
    var readyPermissionsArray: seq<Entry<Permissions>>
    var readyDeferredArray: seq<Entry<Deferred>>
    var requestingRequestCode: int
    var requestingDeferred: Deferred?
    /** The framework's flags, as they stood at the last lifecycle callback. */
    var host: Host
    /** Every request forwarded to the host's permission dialog, in order. */
    ghost var issued: seq<Issue>

    /** The fields as a snapshot of the queue. */
    function Model(): Queue
      reads this
    {
      Queue(requestCode, readyPermissionsArray, readyDeferredArray, requestingRequestCode,
            if requestingDeferred == null then None else Some(requestingDeferred), host)
    }

    ghost predicate Valid()
      reads this
    {
      Inv(Model())
    }

    constructor ()
      ensures Valid() && Model() == Initial() && issued == []
    {
      requestCode := INITIAL_REQUEST_CODE;
      readyPermissionsArray := [];
      readyDeferredArray := [];
      requestingRequestCode := NO_REQUEST_CODE;
      requestingDeferred := null;
      host := Host(false, false, false, false);
      issued := [];
      new;
      InitialInv();
    }

    /** The scan at the head of `requestPermissions`: is an equal list pending? */
    method HasPending(permissions: Permissions) returns (found: bool)
      requires Valid()
      ensures found == IsPending(Model(), permissions)
    {
      for it := 0 to |readyPermissionsArray|
        invariant forall i :: 0 <= i < it ==> readyPermissionsArray[i].value != permissions
      {
        var value := Get(readyPermissionsArray, readyPermissionsArray[it].key);
        GetAt(readyPermissionsArray, it);
        if value == Some(permissions) {
          return true;
        }
      }
      return false;
    }

    /** `requestPermissions(deferred, permissions)`: enqueue unless an equal
        list is already pending, then try to issue. `host'` is the framework's
        flags at the time of the call, which the issue attempt consults. */
    method RequestPermissions(deferred: Deferred, permissions: Permissions, host': Host)
      requires Valid()
      modifies this
      ensures Valid()
      ensures Model() == Enqueue(old(Model()).(host := host'), deferred, permissions).next
      ensures issued == old(issued) + ToSeq(Enqueue(old(Model()).(host := host'), deferred, permissions).issued)
    {
      host := host';
      var pending := HasPending(permissions);
      if pending {
        return;
      }
      assert Enqueue(Model(), deferred, permissions) == TryIssue(Insert(Model(), deferred, permissions));
      Store(deferred, permissions);
      TryRequestPermission();
    }

    /** The storing half of `requestPermissions`: advance the counter and put
        the request under the new code in both arrays. */
    method Store(deferred: Deferred, permissions: Permissions)
      requires Valid() && !IsPending(Model(), permissions)
      modifies this
      ensures Valid()
      ensures Model() == Insert(old(Model()), deferred, permissions)
      ensures issued == old(issued)
    {
      ghost var stored := Insert(Model(), deferred, permissions);
      InsertPreservesInv(Model(), deferred, permissions);
      var code := requestCode + 1;
      var deferreds := Put(readyDeferredArray, code, deferred);
      var lists := Put(readyPermissionsArray, code, permissions);
      assert stored == Model().(requestCode := code, readyDeferred := deferreds, readyPermissions := lists);
      requestCode, readyDeferredArray, readyPermissionsArray := code, deferreds, lists;
    }

    /** `tryRequestPermission`: when the host allows and nothing is in flight,
        move the lowest-coded pending request into the in-flight slot and
        forward it to the host. An empty queue is left alone. */
    method TryRequestPermission()
      requires Valid()
      modifies this
      ensures Valid()
      ensures Model() == TryIssue(old(Model())).next
      ensures issued == old(issued) + ToSeq(TryIssue(old(Model())).issued)
    {
      TryIssuePreservesInv(Model());
      if !host.isRemoving && host.hasActivity && !host.isDetached && host.isAdded && requestingDeferred == null
         && |readyPermissionsArray| > 0
      {
        var code := readyPermissionsArray[0].key;
        var def := Get(readyDeferredArray, code);
        var permissions := Get(readyPermissionsArray, code);
        if def.Some? && permissions.Some? {
          requestingDeferred := def.value;
          requestingRequestCode := code;
          readyDeferredArray := Remove(readyDeferredArray, code);
          readyPermissionsArray := Remove(readyPermissionsArray, code);
          issued := issued + [Issue(code, permissions.value)];
        }
      }
    }

    /** `cancelAllRequests`: cancel the in-flight deferred and zero its code;
        the deferred stays in the slot and the pending queue stays. */
    method CancelAllRequests()
      requires Valid()
      modifies this, requestingDeferred
      ensures Valid()
      ensures Model() == CancelAll(old(Model())).next
      ensures issued == old(issued)
      ensures old(requestingDeferred) != null ==>
                old(requestingDeferred).state == Resolve(old(requestingDeferred.state), Resolution.Cancel)
    {
      if requestingDeferred != null {
        requestingDeferred.Cancel();
      }
      requestingRequestCode := NO_REQUEST_CODE;
    }

    /** `onRequestPermissionsResult`: a result for the in-flight code completes
        its deferred with `grantResults`, empties the slot and tries the next
        request; any other result is ignored. `host'` is the framework's flags
        at the time of the callback. */
    method OnRequestPermissionsResult(code: int, permissions: seq<string>, grantResults: seq<int>, host': Host)
      requires Valid()
      modifies this, requestingDeferred
      ensures Valid()
      ensures Model() == OnResult(old(Model()).(host := host'), code, grantResults).next
      ensures issued == old(issued) + ToSeq(OnResult(old(Model()).(host := host'), code, grantResults).issued)
      ensures old(requestingDeferred) != null ==>
                old(requestingDeferred).state ==
                  if code == old(requestingRequestCode)
                  then Resolve(old(requestingDeferred.state), Resolution.Complete(grantResults))
                  else old(requestingDeferred.state)
    {
      host := host';
      var def := requestingDeferred;
      if requestingRequestCode == code && def != null {
        var _ := def.Complete(grantResults);
        MatchingResult(Model(), grantResults);
        requestingDeferred := null;
        requestingRequestCode := NO_REQUEST_CODE;
        TryRequestPermission();
      }
    }

    // The lifecycle overrides. Each receives the framework's flags as they
    // stand during the callback.

    method OnAttach(host': Host)
      requires Valid()
      modifies this
      ensures Valid()
      ensures Model() == OnLifecycle(old(Model()), Attach, host').next
      ensures issued == old(issued) + ToSeq(OnLifecycle(old(Model()), Attach, host').issued)
    {
      host := host';
      TryRequestPermission();
    }

    method OnActivityCreated(host': Host)
      requires Valid()
      modifies this
      ensures Valid()
      ensures Model() == OnLifecycle(old(Model()), ActivityCreated, host').next
      ensures issued == old(issued) + ToSeq(OnLifecycle(old(Model()), ActivityCreated, host').issued)
    {
      host := host';
      TryRequestPermission();
    }

    method OnViewCreated(host': Host)
      requires Valid()
      modifies this
      ensures Valid()
      ensures Model() == OnLifecycle(old(Model()), ViewCreated, host').next
      ensures issued == old(issued) + ToSeq(OnLifecycle(old(Model()), ViewCreated, host').issued)
    {
      host := host';
      TryRequestPermission();
    }

    method OnDestroyView(host': Host)
      requires Valid()
      modifies this, requestingDeferred
      ensures Valid()
      ensures Model() == OnLifecycle(old(Model()), DestroyView, host').next
      ensures issued == old(issued)
      ensures old(requestingDeferred) != null ==>
                old(requestingDeferred).state == Resolve(old(requestingDeferred.state), Resolution.Cancel)
    {
      host := host';
      CancelAllRequests();
    }

    method OnDetach(host': Host)
      requires Valid()
      modifies this, requestingDeferred
      ensures Valid()
      ensures Model() == OnLifecycle(old(Model()), Detach, host').next
      ensures issued == old(issued)
      ensures old(requestingDeferred) != null ==>
                old(requestingDeferred).state == Resolve(old(requestingDeferred.state), Resolution.Cancel)
    {
      host := host';
      CancelAllRequests();
    }

    method OnDestroy(host': Host)
      requires Valid()
      modifies this, requestingDeferred
      ensures Valid()
      ensures Model() == OnLifecycle(old(Model()), Destroy, host').next
      ensures issued == old(issued)
      ensures old(requestingDeferred) != null ==>
                old(requestingDeferred).state == Resolve(old(requestingDeferred.state), Resolution.Cancel)
    {
      host := host';
      CancelAllRequests();
    }
  }
}
