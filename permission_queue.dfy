/**
  The request queue of `PermissionFragment`, as a state machine on values.

  The state is a snapshot of the fragment's fields: the request-code counter,
  the two parallel pending arrays (request code to permission list, request
  code to deferred), the in-flight slot (deferred and its code) and the host
  flags the fragment consults before issuing. Every entry point of the fragment
  is a function from a snapshot to a `Step`: the next snapshot, the request it
  forwarded to the host's permission dialog (if any) and the resolution it
  applied to a deferred (if any).
 */
module PermissionQueue {
  import opened Wrappers
  import opened SparseArrays
  import opened Deferreds

  /** `PackageManager.PERMISSION_GRANTED` and `PERMISSION_DENIED`. */
  const PERMISSION_GRANTED: int := 0
  const PERMISSION_DENIED: int := -1

  /** The counter's first value; codes are pre-incremented, so the first code is 11. */
  const INITIAL_REQUEST_CODE: int := 10
  /** The value of `requestingRequestCode` when it names no request. */
  const NO_REQUEST_CODE: int := 0

  /** An ordered list of permission names, as `List<String>`. */
  type Permissions = seq<string>

  /** The host framework's view of the fragment, consulted before issuing:
      `isRemoving`, `activity != null`, `isDetached`, `isAdded`. */
  datatype Host = Host(isRemoving: bool, hasActivity: bool, isDetached: bool, isAdded: bool)

  datatype Queue = Queue(
    requestCode: int,
    readyPermissions: seq<Entry<Permissions>>,
    readyDeferred: seq<Entry<Deferred>>,
    requestingRequestCode: int,
    requestingDeferred: Option<Deferred>,
    host: Host)

  /** A request forwarded to the host's permission dialog. */
  datatype Issue = Issue(code: int, permissions: Permissions)

  /** A resolution attempt applied to one deferred. */
  datatype Effect = Effect(deferred: Deferred, resolution: Resolution)

  datatype Step = Step(next: Queue, issued: Option<Issue>, resolved: Option<Effect>)

  /** The six lifecycle callbacks the fragment overrides. */
  datatype Lifecycle = Attach | ActivityCreated | ViewCreated | DestroyView | Detach | Destroy

  /** Everything that can happen to the fragment: a lifecycle callback, an
      enqueue, a result from the host. Each carries the host flags as they stand
      when it runs, since `tryRequestPermission` reads them afresh every time. */
  datatype Event =
    | LifecycleEvent(kind: Lifecycle, host: Host)
    | Request(deferred: Deferred, permissions: Permissions, host: Host)
    | Result(code: int, grantResults: seq<int>, host: Host)

  /** A freshly constructed fragment, not yet added to any activity. */
  function Initial(): Queue {
    Queue(INITIAL_REQUEST_CODE, [], [], NO_REQUEST_CODE, None, Host(false, false, false, false))
  }

  /** The codes of the requests the fragment still tracks. */
  function LiveCodes(q: Queue): set<int> {
    Keys(q.readyPermissions) + (if q.requestingRequestCode != NO_REQUEST_CODE then {q.requestingRequestCode} else {})
  }

  /** No two pending entries hold equal permission lists. */
  ghost predicate Distinct(a: seq<Entry<Permissions>>) {
    forall i, j :: 0 <= i < j < |a| ==> a[i].value != a[j].value
  }

  /** What every reachable snapshot satisfies. */
  ghost predicate Inv(q: Queue) {
    && Sorted(q.readyPermissions)
    && SameKeys(q.readyPermissions, q.readyDeferred)
    && Distinct(q.readyPermissions)
    && q.requestCode >= INITIAL_REQUEST_CODE
    && (forall k :: k in Keys(q.readyPermissions) ==> INITIAL_REQUEST_CODE < k <= q.requestCode)
    && (q.requestingDeferred.None? ==> q.requestingRequestCode == NO_REQUEST_CODE)
    && (q.requestingRequestCode != NO_REQUEST_CODE ==>
          INITIAL_REQUEST_CODE < q.requestingRequestCode <= q.requestCode
          && q.requestingRequestCode !in Keys(q.readyPermissions))
  }

  /** The guard of `tryRequestPermission`. */
  predicate Eligible(q: Queue) {
    !q.host.isRemoving && q.host.hasActivity && !q.host.isDetached && q.host.isAdded
    && q.requestingDeferred.None?
  }

  /** `tryRequestPermission`: when eligible, move the entry with the lowest code
      into the in-flight slot and forward it to the host. An empty queue is a
      no-op (the source reads `keyAt(0)` and relies on the null checks). */
  function TryIssue(q: Queue): (step: Step) {
    if Eligible(q) && |q.readyPermissions| > 0 then
      var code := q.readyPermissions[0].key;
      var def := Get(q.readyDeferred, code);
      var permissions := Get(q.readyPermissions, code);
      if def.Some? && permissions.Some? then
        Step(q.(requestingDeferred := def,
                requestingRequestCode := code,
                readyDeferred := Remove(q.readyDeferred, code),
                readyPermissions := Remove(q.readyPermissions, code)),
             Some(Issue(code, permissions.value)),
             None)
      else Step(q, None, None)
    else Step(q, None, None)
  }

  /** Some pending entry holds exactly `permissions`. */
  predicate IsPending(q: Queue, permissions: Permissions) {
    exists i :: 0 <= i < |q.readyPermissions| && q.readyPermissions[i].value == permissions
  }

  /** Store a new request under the next code. */
  function Insert(q: Queue, deferred: Deferred, permissions: Permissions): Queue {
    var code := q.requestCode + 1;
    q.(requestCode := code,
       readyDeferred := Put(q.readyDeferred, code, deferred),
       readyPermissions := Put(q.readyPermissions, code, permissions))
  }

  /** `requestPermissions(deferred, permissions)`: a list equal to a pending one
      is dropped, deferred and all; otherwise it is stored and an issue is tried. */
  function Enqueue(q: Queue, deferred: Deferred, permissions: Permissions): (step: Step) {
    if IsPending(q, permissions) then Step(q, None, None)
    else TryIssue(Insert(q, deferred, permissions))
  }

  /** `onRequestPermissionsResult`: a result for the in-flight code completes the
      in-flight deferred, empties the slot and tries the next; any other is ignored. */
  function OnResult(q: Queue, code: int, grantResults: seq<int>): (step: Step) {
    if q.requestingRequestCode == code && q.requestingDeferred.Some? then
      var s := TryIssue(q.(requestingDeferred := None, requestingRequestCode := NO_REQUEST_CODE));
      Step(s.next, s.issued, Some(Effect(q.requestingDeferred.value, Resolution.Complete(grantResults))))
    else Step(q, None, None)
  }

  /** `cancelAllRequests`: cancels the in-flight deferred and zeroes its code, but
      leaves the deferred in the slot and the pending queue as it is. */
  function CancelAll(q: Queue): (step: Step) {
    Step(q.(requestingRequestCode := NO_REQUEST_CODE), None,
         if q.requestingDeferred.Some? then Some(Effect(q.requestingDeferred.value, Resolution.Cancel)) else None)
  }

  /** The lifecycle overrides: attach, activity-created and view-created try to
      issue; view-destroyed, detach and destroy cancel. */
  function OnLifecycle(q: Queue, kind: Lifecycle, host: Host): (step: Step) {
    var q' := q.(host := host);
    match kind
    case Attach => TryIssue(q')
    case ActivityCreated => TryIssue(q')
    case ViewCreated => TryIssue(q')
    case DestroyView => CancelAll(q')
    case Detach => CancelAll(q')
    case Destroy => CancelAll(q')
  }

  function Apply(q: Queue, e: Event): (step: Step) {
    match e
    case LifecycleEvent(kind, host) => OnLifecycle(q, kind, host)
    case Request(deferred, permissions, host) => Enqueue(q.(host := host), deferred, permissions)
    case Result(code, grantResults, host) => OnResult(q.(host := host), code, grantResults)
  }

  /** The outcome of a run of events: the last snapshot, and every request issued
      and every resolution applied, in order. */
  datatype Trace = Trace(last: Queue, issued: seq<Issue>, resolved: seq<Effect>)

  function Run(q: Queue, es: seq<Event>): (trace: Trace)
    decreases |es|
  {
    if es == [] then Trace(q, [], [])
    else
      var s := Apply(q, es[0]);
      var t := Run(s.next, es[1..]);
      Trace(t.last, ToSeq(s.issued) + t.issued, ToSeq(s.resolved) + t.resolved)
  }
}
