/** Sequences of events delivered to the delegate one at a time, as the main
    thread delivers them, and the properties of whole runs: the slot discipline,
    at most one reply per result, and the end-to-end outcomes of a request. */
module Session {
  import opened Wrappers
  import opened ImagePicker

  /** One entry into the delegate. */
  datatype Event =
    | ChooseImage(call: CallId, result: ResultId, permissionGranted: bool)
    | PermissionsResult(requestCode: int, grantResults: seq<int>)
    | ActivityResult(requestCode: int, resultCode: int, data: Option<PickedImage>)

  /** Routes an event to its entry point; the callbacks' boolean is dropped. */
  function Deliver(s: State, e: Event): Result<Step, Fault> {
    match e
    case ChooseImage(call, result, granted) => ChooseImageFromGallery(s, call, result, granted)
    case PermissionsResult(code, grants) =>
      var reaction :- OnRequestPermissionsResult(s, code, grants);
      Ok(reaction.step)
    case ActivityResult(code, resultCode, data) =>
      var reaction :- OnActivityResult(s, code, resultCode, data);
      Ok(reaction.step)
  }

  /** The state reached, everything emitted, and the fault that stopped the run,
      if one did. */
  datatype Trace = Trace(final: State, effects: seq<Effect>, fault: Option<Fault>)

  /** Delivers the events in order; a fault ends the run and leaves the state as
      it was when the faulting event arrived. */
  function Run(s: State, events: seq<Event>): (r: Trace)
    ensures Consistent(s) ==> Consistent(r.final)
    decreases |events|
  {
    if |events| == 0 then Trace(s, [], None)
    else match Deliver(s, events[0])
      case Err(f) => Trace(s, [], Some(f))
      case Ok(step) =>
        var t := Run(step.next, events[1..]);
        Trace(t.final, step.effects + t.effects, t.fault)
  }

  /** The results named by the replies among `effects`, in order. */
  function ReplyIds(effects: seq<Effect>): (r: seq<ResultId>)
    ensures |r| <= |effects|
    ensures forall id :: id in r <==> exists i :: 0 <= i < |effects| && IsReply(effects[i]) && effects[i].result == id
    decreases |effects|
  {
    if |effects| == 0 then []
    else if IsReply(effects[0]) then
      assert forall i :: 0 < i < |effects| ==> effects[i] == effects[1..][i - 1];
      [effects[0].result] + ReplyIds(effects[1..])
    else
      assert forall i :: 0 < i < |effects| ==> effects[i] == effects[1..][i - 1];
      ReplyIds(effects[1..])
  }

  /** The results handed in by the requests among `events`, in order. */
  function RequestIds(events: seq<Event>): (r: seq<ResultId>)
    ensures forall id :: id in r <==> exists i :: 0 <= i < |events| && events[i].ChooseImage? && events[i].result == id
    decreases |events|
  {
    if |events| == 0 then []
    else if events[0].ChooseImage? then
      assert forall i :: 0 < i < |events| ==> events[i] == events[1..][i - 1];
      [events[0].result] + RequestIds(events[1..])
    else
      assert forall i :: 0 < i < |events| ==> events[i] == events[1..][i - 1];
      RequestIds(events[1..])
  }

  predicate NoDuplicates(xs: seq<ResultId>) {
    forall i, j :: 0 <= i < j < |xs| ==> xs[i] != xs[j]
  }

  /** The host framework hands every request a result object of its own. */
  predicate FreshRequests(s: State, events: seq<Event>) {
    && NoDuplicates(RequestIds(events))
    && (s.pendingResult.Some? ==> s.pendingResult.value !in RequestIds(events))
  }

  lemma {:induction false} ReplyIdsAppend(a: seq<Effect>, b: seq<Effect>)
    ensures ReplyIds(a + b) == ReplyIds(a) + ReplyIds(b)
    decreases |a|
  {
    if |a| > 0 {
      assert (a + b)[0] == a[0];
      assert (a + b)[1..] == a[1..] + b;
      ReplyIdsAppend(a[1..], b);
    } else {
      assert a + b == b;
    }
  }

  lemma NoDuplicatesAppend(a: seq<ResultId>, b: seq<ResultId>)
    requires NoDuplicates(a) && NoDuplicates(b)
    requires forall x :: x in a ==> x !in b
    ensures NoDuplicates(a + b)
  {
    forall i, j | 0 <= i < j < |a + b|
      ensures (a + b)[i] != (a + b)[j]
    {
      if j >= |a| && i < |a| {
        assert (a + b)[i] in a;
        assert (a + b)[j] == b[j - |a|];
      }
    }
  }

  /** One event's effect on the slot: a reply answers exactly the result that was
      pending and empties the slot; without a reply, the slot keeps its result
      or, on an accepted request, takes the new caller's. */
  lemma SlotDiscipline(s: State, e: Event)
    requires Deliver(s, e).Ok?
    ensures var step := Deliver(s, e).value;
      if |ReplyIds(step.effects)| > 0 then
        && s.pendingResult.Some?
        && ReplyIds(step.effects) == [s.pendingResult.value]
        && step.next == Idle
      else
        || step.next.pendingResult == s.pendingResult
        || (s.pendingResult.None? && e.ChooseImage? && step.next.pendingResult == Some(e.result))
  {
  }

  /** Each pending result is answered at most once over a whole run. */
  lemma {:induction false} RepliedAtMostOnce(s: State, events: seq<Event>)
    requires FreshRequests(s, events)
    ensures NoDuplicates(ReplyIds(Run(s, events).effects))
    decreases |events|
  {
    if |events| > 0 && Deliver(s, events[0]).Ok? {
      var e := events[0];
      var rest := events[1..];
      var step := Deliver(s, e).value;
      assert events == [e] + rest;
      assert RequestIds(events) == (if e.ChooseImage? then [e.result] else []) + RequestIds(rest);
      SlotDiscipline(s, e);
      assert FreshRequests(step.next, rest) by {
        forall i, j | 0 <= i < j < |RequestIds(rest)|
          ensures RequestIds(rest)[i] != RequestIds(rest)[j]
        {
          if e.ChooseImage? {
            assert RequestIds(rest)[i] == RequestIds(events)[i + 1];
            assert RequestIds(rest)[j] == RequestIds(events)[j + 1];
          } else {
            assert RequestIds(rest)[i] == RequestIds(events)[i];
            assert RequestIds(rest)[j] == RequestIds(events)[j];
          }
        }
        if e.ChooseImage? && step.next.pendingResult == Some(e.result) {
          assert RequestIds(events)[0] == e.result;
          forall k | 0 <= k < |RequestIds(rest)|
            ensures RequestIds(rest)[k] != e.result
          {
            assert RequestIds(rest)[k] == RequestIds(events)[k + 1];
          }
        }
      }
      RepliedAtMostOnce(step.next, rest);
      RepliesNameKnownResults(step.next, rest);
      var t := Run(step.next, rest);
      assert Run(s, events).effects == step.effects + t.effects;
      ReplyIdsAppend(step.effects, t.effects);
      NoDuplicatesAppend(ReplyIds(step.effects), ReplyIds(t.effects));
    }
  }

  /** A finished request leaves the delegate ready for the next one: after any
      event that replied, a new request is stored. */
  lemma AcceptedAfterReply(s: State, e: Event, call: CallId, result: ResultId, granted: bool)
    requires Deliver(s, e).Ok? && |ReplyIds(Deliver(s, e).value.effects)| > 0
    ensures ChooseImageFromGallery(Deliver(s, e).value.next, call, result, granted).value.next.pendingResult == Some(result)
  {
  }

  /** The permission callback launches the picker exactly when the first grant
      result is PERMISSION_GRANTED, and answers the caller exactly when it is not. */
  lemma PickerLaunchedIffGranted(s: State, grantResults: seq<int>)
    requires OnRequestPermissionsResult(s, ImageStoragePermissionCode, grantResults).Ok?
    ensures var reaction := OnRequestPermissionsResult(s, ImageStoragePermissionCode, grantResults).value;
      && reaction.handled
      && (PickImageIntent() in reaction.step.effects <==> IsPermissionGranted(grantResults))
      && (|ReplyIds(reaction.step.effects)| > 0 <==> !IsPermissionGranted(grantResults))
  {
  }

  /** Unfolds one event of a run. */
  lemma RunCons(s: State, e: Event, rest: seq<Event>)
    ensures Deliver(s, e).Err? ==> Run(s, [e] + rest) == Trace(s, [], Some(Deliver(s, e).error))
    ensures Deliver(s, e).Ok? ==>
      var step := Deliver(s, e).value;
      var t := Run(step.next, rest);
      Run(s, [e] + rest) == Trace(t.final, step.effects + t.effects, t.fault)
  {
  }

  /** Permission already held: one picker launch, and the first detected code
      becomes the caller's answer. */
  lemma PickedCodeAnswersCaller(call: CallId, result: ResultId, code: string, more: seq<string>)
    ensures Run(Idle, [ChooseImage(call, result, true),
                       ActivityResult(ChooseImageFromGalleryCode, ResultOk, Some(PickedImage([code] + more)))])
         == Trace(Idle, [PickImageIntent(), ReplySuccess(result, Some(code))], None)
  {
    var e1 := ChooseImage(call, result, true);
    var e2 := ActivityResult(ChooseImageFromGalleryCode, ResultOk, Some(PickedImage([code] + more)));
    RunCons(Idle, e1, [e2]);
    RunCons(State(Some(call), Some(result)), e2, []);
    assert [e1] + [e2] == [e1, e2];
  }

  /** Permission prompted and refused (an empty answer included): the caller is
      answered with null and the slot is free again. */
  lemma DeniedPermissionAnswersNull(call: CallId, result: ResultId, grantResults: seq<int>)
    requires !IsPermissionGranted(grantResults)
    ensures Run(Idle, [ChooseImage(call, result, false),
                       PermissionsResult(ImageStoragePermissionCode, grantResults)])
         == Trace(Idle, [AskForPermission(ReadExternalStorage, ImageStoragePermissionCode), ReplySuccess(result, None)], None)
  {
    var e1 := ChooseImage(call, result, false);
    var e2 := PermissionsResult(ImageStoragePermissionCode, grantResults);
    RunCons(Idle, e1, [e2]);
    RunCons(State(Some(call), Some(result)), e2, []);
    assert [e1] + [e2] == [e1, e2];
  }

  /** Permission prompted and granted: exactly one picker launch follows and the
      caller stays pending. */
  lemma GrantedPermissionLaunchesPicker(call: CallId, result: ResultId, grantResults: seq<int>)
    requires IsPermissionGranted(grantResults)
    ensures Run(Idle, [ChooseImage(call, result, false),
                       PermissionsResult(ImageStoragePermissionCode, grantResults)])
         == Trace(State(Some(call), Some(result)),
                  [AskForPermission(ReadExternalStorage, ImageStoragePermissionCode), PickImageIntent()], None)
  {
    var e1 := ChooseImage(call, result, false);
    var e2 := PermissionsResult(ImageStoragePermissionCode, grantResults);
    RunCons(Idle, e1, [e2]);
    RunCons(State(Some(call), Some(result)), e2, []);
    assert [e1] + [e2] == [e1, e2];
  }

  /** The picker cancelled or returned no data: the caller is answered with null. */
  lemma CancelledPickAnswersNull(call: CallId, result: ResultId, resultCode: int, data: Option<PickedImage>)
    requires resultCode != ResultOk || data.None?
    ensures Run(Idle, [ChooseImage(call, result, true),
                       ActivityResult(ChooseImageFromGalleryCode, resultCode, data)])
         == Trace(Idle, [PickImageIntent(), ReplySuccess(result, None)], None)
  {
    var e1 := ChooseImage(call, result, true);
    var e2 := ActivityResult(ChooseImageFromGalleryCode, resultCode, data);
    RunCons(Idle, e1, [e2]);
    RunCons(State(Some(call), Some(result)), e2, []);
    assert [e1] + [e2] == [e1, e2];
  }

  /** A picked image with no detectable code faults, and the caller's result is
      left in the slot unanswered. */
  lemma EmptyDetectionFaults(call: CallId, result: ResultId)
    ensures Run(Idle, [ChooseImage(call, result, true),
                       ActivityResult(ChooseImageFromGalleryCode, ResultOk, Some(PickedImage([])))])
         == Trace(State(Some(call), Some(result)), [PickImageIntent()], Some(NoBarcodeDetected))
  {
  }

  /** A second request while the first is waiting on the picker answers the
      FIRST caller with the already-active error and empties the slot; the second
      caller is never answered, and the first request's own picker result then
      finds no pending result and faults. */
  lemma SecondRequestPreemptsFirst(c1: CallId, r1: ResultId, c2: CallId, r2: ResultId, g2: bool,
                                   resultCode: int, data: Option<PickedImage>)
    requires resultCode != ResultOk || data.None? || |data.value.barcodes| > 0
    ensures Run(Idle, [ChooseImage(c1, r1, true), ChooseImage(c2, r2, g2),
                       ActivityResult(ChooseImageFromGalleryCode, resultCode, data)])
         == Trace(Idle, [PickImageIntent(), ReplyError(r1, AlreadyActiveCode, AlreadyActiveMessage)],
                  Some(NullPendingResult))
  {
    var e1 := ChooseImage(c1, r1, true);
    var e2 := ChooseImage(c2, r2, g2);
    var e3 := ActivityResult(ChooseImageFromGalleryCode, resultCode, data);
    RunCons(Idle, e1, [e2, e3]);
    RunCons(State(Some(c1), Some(r1)), e2, [e3]);
    RunCons(Idle, e3, []);
    assert [e2] + [e3] == [e2, e3];
    assert [e1] + [e2, e3] == [e1, e2, e3];
  }

  /** The same preemption while the first request waits on the permission prompt:
      a later refusal finds no pending result and faults, and a later grant
      launches a picker for a request nobody is waiting on. */
  lemma SecondRequestPreemptsPrompt(c1: CallId, r1: ResultId, c2: CallId, r2: ResultId, g2: bool,
                                    grantResults: seq<int>)
    ensures Run(Idle, [ChooseImage(c1, r1, false), ChooseImage(c2, r2, g2),
                       PermissionsResult(ImageStoragePermissionCode, grantResults)])
         == if IsPermissionGranted(grantResults) then
              Trace(Idle, [AskForPermission(ReadExternalStorage, ImageStoragePermissionCode),
                           ReplyError(r1, AlreadyActiveCode, AlreadyActiveMessage),
                           PickImageIntent()], None)
            else
              Trace(Idle, [AskForPermission(ReadExternalStorage, ImageStoragePermissionCode),
                           ReplyError(r1, AlreadyActiveCode, AlreadyActiveMessage)],
                    Some(NullPendingResult))
  {
    var e1 := ChooseImage(c1, r1, false);
    var e2 := ChooseImage(c2, r2, g2);
    var e3 := PermissionsResult(ImageStoragePermissionCode, grantResults);
    RunCons(Idle, e1, [e2, e3]);
    RunCons(State(Some(c1), Some(r1)), e2, [e3]);
    RunCons(Idle, e3, []);
    assert [e2] + [e3] == [e2, e3];
    assert [e1] + [e2, e3] == [e1, e2, e3];
  }

  /** A further effect of the preemption: once the slot is emptied, a third
      request is accepted, and the first request's picker result then answers
      that third caller with the code from the first caller's image. */
  lemma StalePickerAnswersLaterCaller(c1: CallId, r1: ResultId, c2: CallId, r2: ResultId, g2: bool,
                                      c3: CallId, r3: ResultId, code: string, more: seq<string>)
    ensures Run(Idle, [ChooseImage(c1, r1, true), ChooseImage(c2, r2, g2), ChooseImage(c3, r3, false),
                       ActivityResult(ChooseImageFromGalleryCode, ResultOk, Some(PickedImage([code] + more)))])
         == Trace(Idle, [PickImageIntent(),
                         ReplyError(r1, AlreadyActiveCode, AlreadyActiveMessage),
                         AskForPermission(ReadExternalStorage, ImageStoragePermissionCode),
                         ReplySuccess(r3, Some(code))], None)
  {
    var e1 := ChooseImage(c1, r1, true);
    var e2 := ChooseImage(c2, r2, g2);
    var e3 := ChooseImage(c3, r3, false);
    var e4 := ActivityResult(ChooseImageFromGalleryCode, ResultOk, Some(PickedImage([code] + more)));
    RunCons(Idle, e1, [e2, e3, e4]);
    RunCons(State(Some(c1), Some(r1)), e2, [e3, e4]);
    RunCons(Idle, e3, [e4]);
    RunCons(State(Some(c3), Some(r3)), e4, []);
    assert [e3] + [e4] == [e3, e4];
    assert [e2] + [e3, e4] == [e2, e3, e4];
    assert [e1] + [e2, e3, e4] == [e1, e2, e3, e4];
  }

  /** Every result a run answers was pending when the run began or was handed in
      by one of its requests. */
  lemma {:induction false} RepliesNameKnownResults(s: State, events: seq<Event>)
    ensures forall id :: id in ReplyIds(Run(s, events).effects) ==>
      Some(id) == s.pendingResult || id in RequestIds(events)
    decreases |events|
  {
    if |events| > 0 && Deliver(s, events[0]).Ok? {
      var e := events[0];
      var rest := events[1..];
      var step := Deliver(s, e).value;
      assert events == [e] + rest;
      assert RequestIds(events) == (if e.ChooseImage? then [e.result] else []) + RequestIds(rest);
      SlotDiscipline(s, e);
      RepliesNameKnownResults(step.next, rest);
      var t := Run(step.next, rest);
      assert Run(s, events).effects == step.effects + t.effects;
      ReplyIdsAppend(step.effects, t.effects);
    }
  }

  /** As written, a request rejected as already active is never answered, by that
      event or by any later one (unless a later request hands the same result
      object in again). */
  lemma RejectedRequestNeverAnswered(s: State, call: CallId, result: ResultId, granted: bool, rest: seq<Event>)
    requires s.pendingResult.Some? && s.pendingResult.value != result
    requires result !in RequestIds(rest)
    ensures result !in ReplyIds(Run(s, [ChooseImage(call, result, granted)] + rest).effects)
  {
    var e := ChooseImage(call, result, granted);
    var step := Deliver(s, e).value;
    RunCons(s, e, rest);
    RepliesNameKnownResults(Idle, rest);
    ReplyIdsAppend(step.effects, Run(Idle, rest).effects);
    assert ReplyIds(step.effects) == [s.pendingResult.value];
  }

  /** With the corrected rejection, the second caller gets the already-active
      error, the first request keeps the slot, and its picker result still
      answers the first caller with the detected code. */
  lemma IntendedRejectionKeepsFirst(c1: CallId, r1: ResultId, c2: CallId, r2: ResultId, g2: bool,
                                    code: string, more: seq<string>)
    ensures var busy := State(Some(c1), Some(r1));
      && ChooseImageFromGalleryIntended(busy, c2, r2, g2)
         == Ok(Step(busy, [ReplyError(r2, AlreadyActiveCode, AlreadyActiveMessage)]))
      && OnActivityResult(busy, ChooseImageFromGalleryCode, ResultOk, Some(PickedImage([code] + more)))
         == Ok(Reaction(true, Step(Idle, [ReplySuccess(r1, Some(code))])))
  {
  }
}
