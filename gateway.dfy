/**
  The caller-facing entry points: `FragmentActivity.requestPermissions`, which
  answers at once when every permission is already granted and otherwise
  enqueues a fresh deferred into the activity's permission fragment, and
  `Fragment.requestPermissions`, which forwards to the fragment's activity.
 */
module Gateway {
  import opened Wrappers
  import opened Deferreds
  import opened PermissionQueue
  import opened Fragment

  /** What the gateway sees of an activity: the permission check of the host
      (`ActivityCompat.checkSelfPermission`) and its permission fragment. */
  datatype Activity = Activity(checkSelfPermission: string -> int, fragment: PermissionFragment)

  /** Either the grant results at once, or the deferred the caller awaits. */
  datatype Answer = Granted(results: seq<int>) | Awaiting(deferred: Deferred)

  /** `all { it == granted }`. */
  function AllGranted(statuses: seq<int>): (all: bool)
    ensures all <==> forall i :: 0 <= i < |statuses| ==> statuses[i] == PERMISSION_GRANTED
  {
    if statuses == [] then true
    else statuses[0] == PERMISSION_GRANTED && AllGranted(statuses[1..])
  }

  /** The fast path: when the host reports every permission granted, one
      `PERMISSION_GRANTED` per permission; otherwise nothing. An empty list is
      vacuously all granted. */
  function FastPath(check: string -> int, permissions: Permissions): (r: Option<seq<int>>)
    ensures r.Some? <==> forall i :: 0 <= i < |permissions| ==> check(permissions[i]) == PERMISSION_GRANTED
    ensures r.Some? ==> |r.value| == |permissions|
                        && forall i :: 0 <= i < |r.value| ==> r.value[i] == PERMISSION_GRANTED
    ensures permissions == [] ==> r == Some([])
  {
    var statuses := seq(|permissions|, i requires 0 <= i < |permissions| => check(permissions[i]));
    assert forall i :: 0 <= i < |permissions| ==> statuses[i] == check(permissions[i]);
    if AllGranted(statuses) then Some(seq(|permissions|, _ => PERMISSION_GRANTED)) else None
  }

  /** `FragmentActivity.requestPermissions`: the fast path leaves the fragment
      alone; otherwise a fresh waiting deferred is enqueued and returned.
      `host` is the fragment's framework flags at the time of the call. */
  method ActivityRequestPermissions(activity: Activity, permissions: Permissions, host: Host) returns (answer: Answer)
    requires activity.fragment.Valid()
    modifies activity.fragment
    ensures activity.fragment.Valid()
    ensures var fast := FastPath(activity.checkSelfPermission, permissions);
            fast.Some? ==> answer == Granted(fast.value) && unchanged(activity.fragment)
    ensures var fast := FastPath(activity.checkSelfPermission, permissions);
            fast.None? ==>
              && answer.Awaiting? && fresh(answer.deferred) && answer.deferred.state == Waiting
              && var s := Enqueue(old(activity.fragment.Model()).(host := host), answer.deferred, permissions);
                 activity.fragment.Model() == s.next
                 && activity.fragment.issued == old(activity.fragment.issued) + ToSeq(s.issued)
  {
    var fast := FastPath(activity.checkSelfPermission, permissions);
    if fast.Some? {
      return Granted(fast.value);
    }
    var def := new Deferred();
    activity.fragment.RequestPermissions(def, permissions, host);
    answer := Awaiting(def);
  }

  /** `Fragment.requestPermissions`: no activity, no answer and no change;
      otherwise exactly the activity's answer and effect on its fragment. */
  method FragmentRequestPermissions(activity: Option<Activity>, permissions: Permissions, host: Host)
    returns (answer: Option<Answer>)
    requires activity.Some? ==> activity.value.fragment.Valid()
    modifies if activity.Some? then {activity.value.fragment} else {}
    ensures activity.None? <==> answer.None?
    ensures activity.Some? ==> activity.value.fragment.Valid()
    ensures activity.Some? ==>
              var fast := FastPath(activity.value.checkSelfPermission, permissions);
              fast.Some? ==> answer == Some(Granted(fast.value)) && unchanged(activity.value.fragment)
    ensures activity.Some? ==>
              var fast := FastPath(activity.value.checkSelfPermission, permissions);
              var fragment := activity.value.fragment;
              fast.None? ==>
                && answer.Some? && answer.value.Awaiting?
                && fresh(answer.value.deferred) && answer.value.deferred.state == Waiting
                && var s := Enqueue(old(fragment.Model()).(host := host), answer.value.deferred, permissions);
                   fragment.Model() == s.next
                   && fragment.issued == old(fragment.issued) + ToSeq(s.issued)
  {
    if activity.None? {
      return None;
    }
    var a := ActivityRequestPermissions(activity.value, permissions, host);
    answer := Some(a);
  }
}
