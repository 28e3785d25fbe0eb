/**
  The two-request scenario of the sample app: a location request and then a
  microphone request, made while the fragment is attached and idle.
 */
module QueueScenario {
  import opened Wrappers
  import opened SparseArrays
  import opened Deferreds
  import opened PermissionQueue
  import opened QueueProperties

  const LOCATION: Permissions := ["android.permission.ACCESS_FINE_LOCATION", "android.permission.ACCESS_COARSE_LOCATION"]
  const RECORD_AUDIO: Permissions := ["android.permission.RECORD_AUDIO"]
  const ATTACHED: Host := Host(false, true, false, true)

  const ATTACHED_IDLE: Queue := Initial().(host := ATTACHED)

  function LocationInFlight(d1: Deferred): Queue {
    ATTACHED_IDLE.(requestCode := 11, requestingDeferred := Some(d1), requestingRequestCode := 11)
  }

  function AudioWaiting(d1: Deferred, d2: Deferred): Queue {
    LocationInFlight(d1).(requestCode := 12, readyPermissions := [Entry(12, RECORD_AUDIO)],
                          readyDeferred := [Entry(12, d2)])
  }

  function AudioInFlight(d2: Deferred): Queue {
    ATTACHED_IDLE.(requestCode := 12, requestingDeferred := Some(d2), requestingRequestCode := 12)
  }

  lemma RequestLocation(d1: Deferred)
    ensures Inv(LocationInFlight(d1))
    ensures Apply(ATTACHED_IDLE, Request(d1, LOCATION, ATTACHED)) == Step(LocationInFlight(d1), Some(Issue(11, LOCATION)), None)
  {
    InitialInv();
    var q := ATTACHED_IDLE;
    FreshEnqueue(q, d1, LOCATION);
    InsertPreservesInv(q, d1, LOCATION);
    var i := Insert(q, d1, LOCATION);
    assert i.readyPermissions == [Entry(11, LOCATION)] && i.readyDeferred == [Entry(11, d1)];
    IssueOldest(i);
    TryIssuePreservesInv(i);
  }

  lemma RequestAudio(d1: Deferred, d2: Deferred)
    ensures Inv(AudioWaiting(d1, d2))
    ensures Apply(LocationInFlight(d1), Request(d2, RECORD_AUDIO, ATTACHED)) == Step(AudioWaiting(d1, d2), None, None)
  {
    RequestLocation(d1);
    var q := LocationInFlight(d1);
    FreshEnqueue(q, d2, RECORD_AUDIO);
    InsertPreservesInv(q, d2, RECORD_AUDIO);
  }

  lemma AnswerLocation(d1: Deferred, d2: Deferred)
    ensures Apply(AudioWaiting(d1, d2), Result(11, [PERMISSION_GRANTED, PERMISSION_DENIED], ATTACHED))
            == Step(AudioInFlight(d2), Some(Issue(12, RECORD_AUDIO)),
                    Some(Effect(d1, Resolution.Complete([PERMISSION_GRANTED, PERMISSION_DENIED]))))
  {
    RequestAudio(d1, d2);
    var q := AudioWaiting(d1, d2);
    MatchingResult(q, [PERMISSION_GRANTED, PERMISSION_DENIED]);
    IssueOldest(q.(requestingDeferred := None, requestingRequestCode := NO_REQUEST_CODE));
  }

  const LOCATION_ANSWER: seq<int> := [PERMISSION_GRANTED, PERMISSION_DENIED]
  const AUDIO_ANSWER: seq<int> := [PERMISSION_GRANTED]

  function Done(): Queue {
    ATTACHED_IDLE.(requestCode := 12)
  }

  /** One step of a run, for an event followed by the rest. */
  lemma RunCons(q: Queue, e: Event, es: seq<Event>, s: Step, t: Trace)
    requires Apply(q, e) == s && Run(s.next, es) == t
    ensures Run(q, [e] + es) == Trace(t.last, ToSeq(s.issued) + t.issued, ToSeq(s.resolved) + t.resolved)
  {
    assert ([e] + es)[1..] == es;
  }

  lemma AnswerAudioRun(d2: Deferred)
    ensures Run(AudioInFlight(d2), [Result(12, AUDIO_ANSWER, ATTACHED)])
            == Trace(Done(), [], [Effect(d2, Resolution.Complete(AUDIO_ANSWER))])
  {
    var es := [Result(12, AUDIO_ANSWER, ATTACHED)];
    assert Apply(AudioInFlight(d2), es[0]) == Step(Done(), None, Some(Effect(d2, Resolution.Complete(AUDIO_ANSWER))));
    assert es[1..] == [];
  }

  lemma AnswerLocationRun(d1: Deferred, d2: Deferred)
    ensures Run(AudioWaiting(d1, d2), [Result(11, LOCATION_ANSWER, ATTACHED), Result(12, AUDIO_ANSWER, ATTACHED)])
            == Trace(Done(), [Issue(12, RECORD_AUDIO)],
                     [Effect(d1, Resolution.Complete(LOCATION_ANSWER)), Effect(d2, Resolution.Complete(AUDIO_ANSWER))])
  {
    var es := [Result(11, LOCATION_ANSWER, ATTACHED), Result(12, AUDIO_ANSWER, ATTACHED)];
    AnswerLocation(d1, d2);
    AnswerAudioRun(d2);
    assert es[1..] == [Result(12, AUDIO_ANSWER, ATTACHED)];
  }

  lemma RequestAudioRun(d1: Deferred, d2: Deferred)
    ensures Run(LocationInFlight(d1), [Request(d2, RECORD_AUDIO, ATTACHED), Result(11, LOCATION_ANSWER, ATTACHED), Result(12, AUDIO_ANSWER, ATTACHED)])
            == Trace(Done(), [Issue(12, RECORD_AUDIO)],
                     [Effect(d1, Resolution.Complete(LOCATION_ANSWER)), Effect(d2, Resolution.Complete(AUDIO_ANSWER))])
  {
    var es := [Request(d2, RECORD_AUDIO, ATTACHED), Result(11, LOCATION_ANSWER, ATTACHED), Result(12, AUDIO_ANSWER, ATTACHED)];
    RequestAudio(d1, d2);
    AnswerLocationRun(d1, d2);
    assert es[1..] == [Result(11, LOCATION_ANSWER, ATTACHED), Result(12, AUDIO_ANSWER, ATTACHED)];
  }

  lemma RequestLocationRun(d1: Deferred, d2: Deferred)
    ensures Run(ATTACHED_IDLE, [Request(d1, LOCATION, ATTACHED)] + [Request(d2, RECORD_AUDIO, ATTACHED), Result(11, LOCATION_ANSWER, ATTACHED), Result(12, AUDIO_ANSWER, ATTACHED)])
            == Trace(Done(), [Issue(11, LOCATION), Issue(12, RECORD_AUDIO)],
                     [Effect(d1, Resolution.Complete(LOCATION_ANSWER)), Effect(d2, Resolution.Complete(AUDIO_ANSWER))])
  {
    var rest := [Request(d2, RECORD_AUDIO, ATTACHED), Result(11, LOCATION_ANSWER, ATTACHED), Result(12, AUDIO_ANSWER, ATTACHED)];
    RequestLocation(d1);
    RequestAudioRun(d1, d2);
    var tail := Trace(Done(), [Issue(12, RECORD_AUDIO)],
                      [Effect(d1, Resolution.Complete(LOCATION_ANSWER)), Effect(d2, Resolution.Complete(AUDIO_ANSWER))]);
    RunCons(ATTACHED_IDLE, Request(d1, LOCATION, ATTACHED), rest, Step(LocationInFlight(d1), Some(Issue(11, LOCATION)), None), tail);
  }

  /** The location request goes out first under code 11 while the microphone
      request waits; the answer to 11 completes the first caller and sends the
      microphone request under code 12, whose answer completes the second. */
  lemma LocationThenRecordAudio(d1: Deferred, d2: Deferred)
    ensures var t := Run(Initial(), [LifecycleEvent(Attach, ATTACHED),
                                     Request(d1, LOCATION, ATTACHED),
                                     Request(d2, RECORD_AUDIO, ATTACHED),
                                     Result(11, [PERMISSION_GRANTED, PERMISSION_DENIED], ATTACHED),
                                     Result(12, [PERMISSION_GRANTED], ATTACHED)]);
            && t.issued == [Issue(11, LOCATION), Issue(12, RECORD_AUDIO)]
            && t.resolved == [Effect(d1, Resolution.Complete([PERMISSION_GRANTED, PERMISSION_DENIED])),
                              Effect(d2, Resolution.Complete([PERMISSION_GRANTED]))]
            && t.last.readyPermissions == [] && t.last.requestingDeferred == None
  {
    var es := [LifecycleEvent(Attach, ATTACHED), Request(d1, LOCATION, ATTACHED), Request(d2, RECORD_AUDIO, ATTACHED),
               Result(11, LOCATION_ANSWER, ATTACHED), Result(12, AUDIO_ANSWER, ATTACHED)];
    RequestLocationRun(d1, d2);
    assert Apply(Initial(), es[0]) == Step(ATTACHED_IDLE, None, None);
    assert es[1..] == [Request(d1, LOCATION, ATTACHED)] + [Request(d2, RECORD_AUDIO, ATTACHED), Result(11, LOCATION_ANSWER, ATTACHED), Result(12, AUDIO_ANSWER, ATTACHED)];
  }
}
