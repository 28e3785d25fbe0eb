# SuspendPermission request queue, in Dafny

This project models the core of the SuspendPermission library. The library
turns Android's callback-based runtime-permission flow into one suspending
call. The call has two parts:

- The gateway (`FragmentActivity.requestPermissions`) answers at once when
  every permission is already granted. Otherwise it creates a
  `CompletableDeferred` and hands it to a headless `PermissionFragment`.
- `PermissionFragment` keeps the pending requests in two parallel
  `SparseArray`s keyed by request code, sends one request at a time to the
  system permission dialog, and completes the matching deferred when the
  result arrives. Its lifecycle callbacks either try to send the next request
  (attach, activity-created, view-created) or cancel the one in flight
  (view-destroyed, detach, destroy).

Files and modules:

- `wrappers.dfy` (`Wrappers`): `Option`, for Kotlin's nullable values.
- `sparse_arrays.dfy` (`SparseArrays`): an Android `SparseArray` as a value.
  It is the entry sequence in strictly increasing key order, with `Get`, `Put`
  and `Remove`. `keyAt(i)` is the key of entry `i`.
- `deferreds.dfy` (`Deferreds`): a `CompletableDeferred` as a class whose state
  is `Waiting`, `Completed(results)` or `Cancelled`. The first completion or
  cancellation wins.
- `permission_queue.dfy` (`PermissionQueue`): the fragment's queue as a state
  machine on values. A `Queue` snapshot holds the counter, both pending arrays,
  the in-flight slot and the host flags. Each entry point is a function from a
  snapshot to a `Step`: the next snapshot, the request sent to the host (if
  any) and the resolution applied to a deferred (if any). `Run` folds a
  sequence of events.
- `queue_properties.dfy` (`QueueProperties`): single-step properties and the
  invariant that every entry point keeps.
- `queue_runs.dfy` (`QueueRuns`): properties of whole runs of events.
- `queue_scenario.dfy` (`QueueScenario`): the sample app's two requests (location,
  then microphone) worked through event by event.
- `permission_fragment.dfy` (`Fragment`): class `PermissionFragment`. Its fields
  and methods follow the Kotlin class member by member. Each method is proved
  to move the fields exactly as the matching `PermissionQueue` function says
  and to keep the invariant. The `issued` ghost log holds every request sent
  to the system dialog.
- `gateway.dfy` (`Gateway`): the two `requestPermissions` extension functions.

How external collaborators are modelled:

- `ActivityCompat.checkSelfPermission` is a function parameter (an oracle).
- The system permission dialog is the `issued` log.
- The framework's flags (`isRemoving`, `activity != null`, `isDetached`,
  `isAdded`) form a `Host` value. `tryRequestPermission` reads them afresh
  each time it runs, so every event carries the flags as they stand when it
  runs: a lifecycle callback, a `requestPermissions` call and a result alike.
  After `onDetach` returns the activity is gone, so a request made then
  carries flags without an activity; it is stored and not sent
  (`QueueRuns.RequestAfterDetachWaits`).

## Behaviour as written

The model follows the code, including where it differs from what the
library's intent suggests:

- **Duplicate enqueue drops the deferred.** A list equal to a pending one is
  ignored, and so is its deferred. That deferred is never completed or
  cancelled (`QueueRuns.DuplicateDeferredNeverResolved`).
- **Only pending lists are compared.** The list in flight is not checked, so
  re-requesting it queues a second copy.
- **Teardown does not empty the in-flight slot.** `cancelAllRequests` cancels
  the in-flight deferred and zeroes its code, but it leaves
  `requestingDeferred` set. From then on the fragment sends nothing more
  (`QueueRuns.TeardownInFlightIsFinal`). A teardown with nothing in flight
  does no harm: a later attach sends the oldest pending request
  (`QueueRuns.TeardownIdleThenAttach`).
- **Teardown keeps the pending queue.** No callback, `onDestroy` included,
  removes a pending request.
- **An empty list takes the fast path.** `all` is vacuously true, so the
  answer is an empty array and the fragment is not touched.
- **Assumption: an empty queue is a no-op.** On an empty array,
  `tryRequestPermission` reads `keyAt(0)` and then relies on the null checks
  that follow. The model treats an eligible, empty queue as doing nothing.

## Model

| member | source | states |
|---|---|---|
| `SparseArrays.Get` | permission/src/main/java/com/artzok/permission/permission.kt:102-103 | `get` finds a value exactly when the key is present |
| `SparseArrays.GetAt` | permission/src/main/java/com/artzok/permission/permission.kt:88 | in a sorted array, looking up `keyAt(i)` returns the value at position `i` |
| `SparseArrays.Put` | permission/src/main/java/com/artzok/permission/permission.kt:92-93 | `put` adds its key to the key set and keeps the keys sorted |
| `SparseArrays.GetPut` | permission/src/main/java/com/artzok/permission/permission.kt:92-93 | after `put(k, v)`, `get(k)` is `v` and every other key reads as before |
| `SparseArrays.PutAbove` | permission/src/main/java/com/artzok/permission/permission.kt:92-93 | `put` with a key above every present key appends, so the arrays stay in arrival order |
| `SparseArrays.PutSorted` | permission/src/main/java/com/artzok/permission/permission.kt:92-93 | `put` keeps the keys in strictly increasing order |
| `SparseArrays.Remove` | permission/src/main/java/com/artzok/permission/permission.kt:108-109 | `remove` takes its key out of the key set and keeps the keys sorted |
| `SparseArrays.GetRemove` | permission/src/main/java/com/artzok/permission/permission.kt:108-109 | after `remove(k)`, `get(k)` is null and every other key reads as before |
| `SparseArrays.RemoveSorted` | permission/src/main/java/com/artzok/permission/permission.kt:108-109 | `remove` keeps the keys in strictly increasing order |
| `SparseArrays.RemoveFirst` | permission/src/main/java/com/artzok/permission/permission.kt:101-109 | removing `keyAt(0)` from a sorted array drops exactly its first entry |
| `SparseArrays.RemoveAbsent` | permission/src/main/java/com/artzok/permission/permission.kt:108-109 | removing an absent key changes nothing |
| `Deferreds.SettledIsFinal` | permission/src/main/java/com/artzok/permission/permission.kt:116 | once a deferred is completed or cancelled, later completions and cancellations leave it as it is |
| `Deferreds.FirstResolutionWins` | permission/src/main/java/com/artzok/permission/permission.kt:125 | a deferred ends in the outcome of its first resolution attempt, or stays waiting if there is none |
| `Deferreds.Deferred.constructor` | permission/src/main/java/com/artzok/permission/permission.kt:33 | a new deferred is waiting |
| `Deferreds.Deferred.Complete` | permission/src/main/java/com/artzok/permission/permission.kt:125 | completes a waiting deferred with the results; reports whether it was still waiting; otherwise no change |
| `Deferreds.Deferred.Cancel` | permission/src/main/java/com/artzok/permission/permission.kt:116 | cancels a waiting deferred; a resolved one stays as it is |
| `QueueProperties.InitialInv` | permission/src/main/java/com/artzok/permission/permission.kt:48-53 | a new fragment (counter 10, empty arrays, empty slot) satisfies the queue invariant and tracks no codes |
| `QueueProperties.NoIssueUnlessEligible` | permission/src/main/java/com/artzok/permission/permission.kt:98-101 | if a host flag forbids it, a request is in flight, or the queue is empty, an issue attempt changes nothing and sends nothing |
| `QueueProperties.IssueOldest` | permission/src/main/java/com/artzok/permission/permission.kt:101-111 | when eligible, the lowest (oldest) code leaves both arrays and fills the slot with its deferred; exactly its list is sent with that code; the other pending entries are unchanged |
| `QueueProperties.TryIssuePreservesInv` | permission/src/main/java/com/artzok/permission/permission.kt:97-113 | an issue attempt keeps the invariant: sorted, parallel, duplicate-free arrays, codes in 11..counter, an in-flight code distinct from every pending code |
| `QueueProperties.DuplicateEnqueueIgnored` | permission/src/main/java/com/artzok/permission/permission.kt:87-90 | enqueuing a list equal to a pending one leaves both arrays, the counter and the slot unchanged, and sends nothing |
| `QueueProperties.NextCodeIsFresh` | permission/src/main/java/com/artzok/permission/permission.kt:92 | the code `++requestCode` hands out is above 10 and above every pending and in-flight code |
| `QueueProperties.InsertAppends` | permission/src/main/java/com/artzok/permission/permission.kt:92-93 | storing under `++requestCode` appends one entry to each array, and both arrays then have the old key set plus the new code |
| `QueueProperties.FreshEnqueue` | permission/src/main/java/com/artzok/permission/permission.kt:92-94 | a new list gets code `counter + 1`, which is at least 11 and above every live code; both arrays gain that entry at the end and keep equal key sets; the slot is untouched; then an issue is tried |
| `QueueProperties.InsertPreservesInv` | permission/src/main/java/com/artzok/permission/permission.kt:92-93 | storing a list that is not pending keeps the invariant |
| `QueueProperties.EnqueuePreservesInv` | permission/src/main/java/com/artzok/permission/permission.kt:85-95 | `requestPermissions` keeps the invariant |
| `QueueProperties.StaleResultIgnored` | permission/src/main/java/com/artzok/permission/permission.kt:123-124 | a result whose code is not the in-flight code, or that arrives with no deferred in flight, changes nothing, sends nothing and resolves nothing |
| `QueueProperties.MatchingResult` | permission/src/main/java/com/artzok/permission/permission.kt:124-129 | a matching result completes the in-flight deferred with exactly `grantResults`, clears the slot (no deferred, code 0), then tries the next pending entry |
| `QueueProperties.TeardownCancels` | permission/src/main/java/com/artzok/permission/permission.kt:70-83 | view-destroyed, detach and destroy cancel the in-flight deferred and set the code to 0; the deferred stays in the slot; the pending queue and counter are unchanged |
| `QueueProperties.ApplyPreservesInv` | permission/src/main/java/com/artzok/permission/permission.kt:55-130 | every callback and entry point of the fragment keeps the invariant |
| `QueueProperties.RunPreservesInv` | permission/src/main/java/com/artzok/permission/permission.kt:55-130 | any sequence of events keeps the invariant |
| `QueueProperties.AtMostOneInFlight` | permission/src/main/java/com/artzok/permission/permission.kt:97-100 | a step sends a request only into an empty slot, or into one its own matching result has just emptied; the sent request then fills the slot under its code and is no longer pending |
| `QueueProperties.IneligibleHostIssuesNothing` | permission/src/main/java/com/artzok/permission/permission.kt:97-99 | whatever the event, if the flags it runs under say removing, no activity, detached or not added, nothing is sent |
| `QueueRuns.IssuedInArrivalOrder` | permission/src/main/java/com/artzok/permission/permission.kt:92-110 | over any run, the codes sent to the host are all at least 11 and strictly increase: requests go out in enqueue order, and none goes out twice |
| `QueueRuns.OrphanNeverResolved` | permission/src/main/java/com/artzok/permission/permission.kt:116-125 | a deferred the fragment does not hold, and that no later event enqueues, is never completed or cancelled by the fragment |
| `QueueRuns.DuplicateDeferredNeverResolved` | permission/src/main/java/com/artzok/permission/permission.kt:87-90 | the deferred of a duplicate enqueue is never completed or cancelled afterwards |
| `QueueRuns.RunStuck` | permission/src/main/java/com/artzok/permission/permission.kt:97-99 | with a deferred in the slot under code 0, no event sequence (results carry nonzero codes) sends anything, and every resolution only cancels that deferred again |
| `QueueRuns.TeardownInFlightIsFinal` | permission/src/main/java/com/artzok/permission/permission.kt:115-118 | a teardown callback with a request in flight cancels it; afterwards no attach or result sends anything more, and the only resolutions are cancellations of that deferred |
| `QueueRuns.RepeatedCancelIsOneCancel` | permission/src/main/java/com/artzok/permission/permission.kt:116 | any number of cancellations of one deferred acts as a single cancellation |
| `QueueRuns.TeardownIdleThenAttach` | permission/src/main/java/com/artzok/permission/permission.kt:55-58 | a teardown with nothing in flight leaves the slot empty, so a later attach to an eligible host sends the oldest pending request |
| `QueueRuns.RequestAfterDetachWaits` | permission/src/main/java/com/artzok/permission/permission.kt:75-78 | a request made after `onDetach` (no activity) is stored under the next code and not sent |
| `QueueScenario.LocationThenRecordAudio` | permission/src/main/java/com/artzok/permission/permission.kt:85-129 | location then microphone on an attached fragment: location goes out as code 11; the answer to 11 completes the first caller and sends the microphone request as code 12; the answer to 12 completes the second caller; the queue ends empty |
| `Fragment.PermissionFragment.constructor` | permission/src/main/java/com/artzok/permission/permission.kt:48-53 | a new fragment is the initial queue, with nothing sent yet |
| `Fragment.PermissionFragment.HasPending` | permission/src/main/java/com/artzok/permission/permission.kt:87-90 | the scan over `keyAt(0..size)` finds a match exactly when an equal list is pending |
| `Fragment.PermissionFragment.RequestPermissions` | permission/src/main/java/com/artzok/permission/permission.kt:85-95 | scans the pending lists, then enqueues and tries to issue; the fields and the log become exactly `Enqueue` of the old state under the flags at the call; the invariant holds |
| `Fragment.PermissionFragment.Store` | permission/src/main/java/com/artzok/permission/permission.kt:92-93 | the counter and both arrays become those of the stored queue; the invariant holds and nothing is sent |
| `Fragment.PermissionFragment.TryRequestPermission` | permission/src/main/java/com/artzok/permission/permission.kt:97-113 | the fields and the log become exactly `TryIssue` of the old state; the invariant holds |
| `Fragment.PermissionFragment.CancelAllRequests` | permission/src/main/java/com/artzok/permission/permission.kt:115-118 | cancels the in-flight deferred object; the fields become `CancelAll` of the old state; nothing is sent |
| `Fragment.PermissionFragment.OnRequestPermissionsResult` | permission/src/main/java/com/artzok/permission/permission.kt:120-130 | completes the in-flight deferred object only on a code match; the fields and the log become `OnResult` of the old state under the flags at the callback |
| `Fragment.PermissionFragment.OnAttach` | permission/src/main/java/com/artzok/permission/permission.kt:55-58 | records the host flags and tries to issue |
| `Fragment.PermissionFragment.OnActivityCreated` | permission/src/main/java/com/artzok/permission/permission.kt:60-63 | records the host flags and tries to issue |
| `Fragment.PermissionFragment.OnViewCreated` | permission/src/main/java/com/artzok/permission/permission.kt:65-68 | records the host flags and tries to issue |
| `Fragment.PermissionFragment.OnDestroyView` | permission/src/main/java/com/artzok/permission/permission.kt:70-73 | records the host flags and cancels the in-flight request |
| `Fragment.PermissionFragment.OnDetach` | permission/src/main/java/com/artzok/permission/permission.kt:75-78 | records the host flags and cancels the in-flight request |
| `Fragment.PermissionFragment.OnDestroy` | permission/src/main/java/com/artzok/permission/permission.kt:80-83 | records the host flags and cancels the in-flight request |
| `Gateway.AllGranted` | permission/src/main/java/com/artzok/permission/permission.kt:18-20 | true exactly when every status is `PERMISSION_GRANTED` |
| `Gateway.FastPath` | permission/src/main/java/com/artzok/permission/permission.kt:14-22 | answers exactly when the oracle grants every permission; the answer has one entry per permission, each `PERMISSION_GRANTED`; an empty list is answered with an empty array |
| `Gateway.ActivityRequestPermissions` | permission/src/main/java/com/artzok/permission/permission.kt:14-36 | on the fast path, returns the all-granted array and leaves the fragment unchanged; otherwise enqueues a fresh waiting deferred exactly as `Enqueue` under the flags at the call and returns it for the caller to await |
| `Gateway.FragmentRequestPermissions` | permission/src/main/java/com/artzok/permission/permission.kt:38-40 | with no activity there is no answer; otherwise the answer and the fragment's new state are those of `ActivityRequestPermissions`: all granted with the fragment unchanged, or a fresh waiting deferred enqueued exactly as `Enqueue` with its issue logged |

## Left out

- Finding or creating the fragment by tag, and committing the transaction
  (permission.kt lines 24-32): this is framework plumbing. The fragment is
  passed in as part of `Activity`.
- `ActivityCompat.checkSelfPermission` and the system permission dialog: these
  are operating-system calls. The first is an oracle parameter. The second is
  the `issued` log; the host's answer arrives as an
  `OnRequestPermissionsResult` call.
- `def.await()` and coroutine suspension: only the deferred's state changes
  are modelled, not scheduling or resumption.
- Threading: the source runs everything on the main thread, and the model is
  sequential.
- `Log` calls and the `Context`, `Bundle` and `View` parameters: they do not
  affect behaviour. The `permissions` argument of `onRequestPermissionsResult`
  is accepted and ignored, as in the source.
- How the framework sets `isRemoving`, `activity`, `isDetached` and `isAdded`:
  this is framework state. It is an input of every event: each lifecycle
  callback, each `requestPermissions` call and each result. The caller must
  supply the flags that hold while the event runs, so a teardown callback's
  flags are those during that callback and the next event's flags are those
  after it.
- `SparseArray` internals: binary search, capacity growth and stale slots are
  not modelled. On an empty array, what `keyAt(0)` does depends on the platform
  version; the model treats that case as a no-op.
- `app/src/main/java/com/artzok/permission/app/MainActivity.kt`: UI glue
  (click listeners that launch coroutines and log results).
- QueueProperties.FreshEnqueue: the counter is an unbounded integer. The
  source's 32-bit `Int` would wrap after about 2^31 fresh enqueues on one
  fragment; that wrap-around is not modelled. Any host limit on the size of
  request codes is not modelled either.
