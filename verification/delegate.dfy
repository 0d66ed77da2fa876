/** The image-picker delegate of the Android plugin: a single pending-result slot
    driven by one request (`ChooseImageFromGallery`) and two operating-system
    callbacks (`OnRequestPermissionsResult`, `OnActivityResult`).

    Every entry point is a pure function from the current state and the event's
    inputs to the next state plus the effects it emits, or to the fault the Java
    code would raise. The permission manager, the picker activity and the barcode
    detector are opaque: their answers arrive as parameters, and the requests made
    to them leave as effects. */
module ImagePicker {
  import opened Wrappers

  // Request codes owned by the delegate.
  const ChooseImageFromGalleryCode: int := 2342
  const ImageStoragePermissionCode: int := 2344

  // Platform constants the delegate compares against or passes on.
  const PermissionGranted: int := 0        // PackageManager.PERMISSION_GRANTED
  const ResultOk: int := -1                // Activity.RESULT_OK
  const ReadExternalStorage: string := "android.permission.READ_EXTERNAL_STORAGE"
  const ImageMimeType: string := "image/*"

  // The one error the delegate reports itself.
  const AlreadyActiveCode: string := "already_active"
  const AlreadyActiveMessage: string := "Image picker is already active"

  /** Identities of the host framework's method-call and result objects. */
  type CallId = nat
  type ResultId = nat

  /** The delegate's mutable fields that carry behaviour: the stored method call
      and the pending result, each possibly null. */
  datatype State = State(methodCall: Option<CallId>, pendingResult: Option<ResultId>)

  /** The state of a freshly constructed delegate, and the state every finish
      path leaves behind. */
  const Idle: State := State(None, None)

  /** The gallery image handed back by the picker, abstracted to the raw values
      the barcode detector reports for it, in the detector's index order. */
  datatype PickedImage = PickedImage(barcodes: seq<string>)

  /** What the delegate asks of the outside world. */
  datatype Effect =
    | AskForPermission(permission: string, requestCode: int)
    | StartPicker(mimeType: string, requestCode: int)
    | ReplySuccess(result: ResultId, value: Option<string>)
    | ReplyError(result: ResultId, code: string, message: string)

  /** The exceptions the Java code lets escape. */
  datatype Fault =
    | NullPendingResult   // a finish helper called while no result is pending
    | NoBarcodeDetected   // the first detected barcode read from an empty detection

  /** The next state and the effects emitted on the way, in order. */
  datatype Step = Step(next: State, effects: seq<Effect>)

  /** A callback's step together with the boolean it returns to the framework:
      whether the request code was the delegate's. */
  datatype Reaction = Reaction(handled: bool, step: Step)

  /** Replies complete a pending result; the other effects do not. */
  predicate IsReply(e: Effect) {
    e.ReplySuccess? || e.ReplyError?
  }

  /** Both fields are set together and cleared together. */
  predicate Consistent(s: State) {
    s.methodCall.Some? <==> s.pendingResult.Some?
  }

  /** The effect of launching the gallery picker. */
  function PickImageIntent(): Effect {
    StartPicker(ImageMimeType, ChooseImageFromGalleryCode)
  }

  /** Stores the call and its result unless a result is already pending; the
      boolean says whether the new pair was stored. */
  function SetPendingMethodCallAndResult(s: State, call: CallId, result: ResultId): (r: (bool, State))
    ensures r.0 <==> s.pendingResult.None?
    ensures r.0 ==> r.1.pendingResult == Some(result) && r.1.methodCall == Some(call)
    ensures !r.0 ==> r.1 == s
  {
    if s.pendingResult.Some? then (false, s)
    else (true, State(Some(call), Some(result)))
  }

  /** Completes the pending result with a value and empties the slot; faults
      when nothing is pending, as the unguarded dereference does. */
  function FinishWithSuccess(s: State, value: Option<string>): (r: Result<Step, Fault>)
    ensures r.Err? <==> s.pendingResult.None?
    ensures r.Err? ==> r.error == NullPendingResult
    ensures r.Ok? ==> r.value.next == Idle
    ensures r.Ok? ==> r.value.effects == [ReplySuccess(s.pendingResult.value, value)]
  {
    match s.pendingResult
    case None => Err(NullPendingResult)
    case Some(p) => Ok(Step(Idle, [ReplySuccess(p, value)]))
  }

  /** Completes the pending result with an error and empties the slot; faults
      when nothing is pending. The details argument is always null. */
  function FinishWithError(s: State, code: string, message: string): (r: Result<Step, Fault>)
    ensures r.Err? <==> s.pendingResult.None?
    ensures r.Err? ==> r.error == NullPendingResult
    ensures r.Ok? ==> r.value.next == Idle
    ensures r.Ok? ==> r.value.effects == [ReplyError(s.pendingResult.value, code, message)]
  {
    match s.pendingResult
    case None => Err(NullPendingResult)
    case Some(p) => Ok(Step(Idle, [ReplyError(p, code, message)]))
  }

  /** Reports "already active" to whichever result is currently pending. */
  function FinishWithAlreadyActiveError(s: State): (r: Result<Step, Fault>)
    ensures r.Err? <==> s.pendingResult.None?
    ensures r.Err? ==> r.error == NullPendingResult
    ensures r.Ok? ==> r.value.next == Idle
    ensures r.Ok? ==> r.value.effects == [ReplyError(s.pendingResult.value, AlreadyActiveCode, AlreadyActiveMessage)]
  {
    FinishWithError(s, AlreadyActiveCode, AlreadyActiveMessage)
  }

  /** The request. `permissionGranted` is the permission manager's answer for
      READ_EXTERNAL_STORAGE at the time of the call. */
  function ChooseImageFromGallery(s: State, call: CallId, result: ResultId, permissionGranted: bool): (r: Result<Step, Fault>)
    // the request itself never faults
    ensures r.Ok?
    // idle and permitted: the new result is stored and the picker launched once
    ensures s.pendingResult.None? && permissionGranted ==>
      r.value == Step(State(Some(call), Some(result)), [PickImageIntent()])
    // idle and not permitted: the new result is stored and the permission requested
    ensures s.pendingResult.None? && !permissionGranted ==>
      r.value == Step(State(Some(call), Some(result)), [AskForPermission(ReadExternalStorage, ImageStoragePermissionCode)])
    // busy: the result already pending gets the error, the slot is emptied,
    // and the new caller is neither stored nor answered
    ensures s.pendingResult.Some? ==>
      && r.value.next == Idle
      && r.value.effects == [ReplyError(s.pendingResult.value, AlreadyActiveCode, AlreadyActiveMessage)]
  {
    var (stored, s1) := SetPendingMethodCallAndResult(s, call, result);
    if !stored then FinishWithAlreadyActiveError(s1)
    else if !permissionGranted then
      Ok(Step(s1, [AskForPermission(ReadExternalStorage, ImageStoragePermissionCode)]))
    else Ok(Step(s1, [PickImageIntent()]))
  }

  /** The request as its rejection path is evidently meant to behave: a request
      made while another is pending is answered with the already-active error
      itself, and the pending request is left alone. */
  function ChooseImageFromGalleryIntended(s: State, call: CallId, result: ResultId, permissionGranted: bool): (r: Result<Step, Fault>)
    ensures r.Ok?
    // busy: only the new caller is answered, and the slot is untouched
    ensures s.pendingResult.Some? ==>
      r.value == Step(s, [ReplyError(result, AlreadyActiveCode, AlreadyActiveMessage)])
    // idle: exactly as the request as written
    ensures s.pendingResult.None? ==> r == ChooseImageFromGallery(s, call, result, permissionGranted)
  {
    var (stored, s1) := SetPendingMethodCallAndResult(s, call, result);
    if !stored then Ok(Step(s1, [ReplyError(result, AlreadyActiveCode, AlreadyActiveMessage)]))
    else if !permissionGranted then
      Ok(Step(s1, [AskForPermission(ReadExternalStorage, ImageStoragePermissionCode)]))
    else Ok(Step(s1, [PickImageIntent()]))
  }

  /** The permission counts as granted when the first grant result says so. */
  predicate IsPermissionGranted(grantResults: seq<int>) {
    |grantResults| > 0 && grantResults[0] == PermissionGranted
  }

  /** The permission callback. */
  function OnRequestPermissionsResult(s: State, requestCode: int, grantResults: seq<int>): (r: Result<Reaction, Fault>)
    // a code the delegate does not own is declined and changes nothing
    ensures requestCode != ImageStoragePermissionCode ==> r == Ok(Reaction(false, Step(s, [])))
    // granted: the picker is launched and the slot kept, whatever it holds
    ensures requestCode == ImageStoragePermissionCode && IsPermissionGranted(grantResults) ==>
      r == Ok(Reaction(true, Step(s, [PickImageIntent()])))
    // refused (an empty answer included): the pending result gets null
    ensures requestCode == ImageStoragePermissionCode && !IsPermissionGranted(grantResults) ==>
      if s.pendingResult.None? then r == Err(NullPendingResult)
      else r == Ok(Reaction(true, Step(Idle, [ReplySuccess(s.pendingResult.value, None)])))
  {
    var granted := IsPermissionGranted(grantResults);
    if requestCode != ImageStoragePermissionCode then Ok(Reaction(false, Step(s, [])))
    else if granted then Ok(Reaction(true, Step(s, [PickImageIntent()])))
    else
      var step :- FinishWithSuccess(s, None);
      Ok(Reaction(true, step))
  }

  /** The tail of the detection step: the first barcode's raw value completes the
      pending result. An empty detection faults before anything is emitted. */
  function Qr(s: State, image: PickedImage): (r: Result<Step, Fault>)
    ensures |image.barcodes| == 0 ==> r == Err(NoBarcodeDetected)
    ensures |image.barcodes| > 0 && s.pendingResult.None? ==> r == Err(NullPendingResult)
    ensures |image.barcodes| > 0 && s.pendingResult.Some? ==>
      r == Ok(Step(Idle, [ReplySuccess(s.pendingResult.value, Some(image.barcodes[0]))]))
  {
    if |image.barcodes| == 0 then Err(NoBarcodeDetected)
    else FinishWithSuccess(s, Some(image.barcodes[0]))
  }

  /** The picker's answer: an image only when the activity reported RESULT_OK
      and returned data; anything else completes with null. */
  function HandleChooseImageResult(s: State, resultCode: int, data: Option<PickedImage>): (r: Result<Step, Fault>)
    ensures (resultCode != ResultOk || data.None?) ==>
      if s.pendingResult.None? then r == Err(NullPendingResult)
      else r == Ok(Step(Idle, [ReplySuccess(s.pendingResult.value, None)]))
    ensures resultCode == ResultOk && data.Some? ==> r == Qr(s, data.value)
  {
    if resultCode == ResultOk && data.Some? then Qr(s, data.value)
    else FinishWithSuccess(s, None)
  }

  /** The activity-result callback. */
  function OnActivityResult(s: State, requestCode: int, resultCode: int, data: Option<PickedImage>): (r: Result<Reaction, Fault>)
    ensures requestCode != ChooseImageFromGalleryCode ==> r == Ok(Reaction(false, Step(s, [])))
    // cancelled, or no data: the pending result gets null
    ensures requestCode == ChooseImageFromGalleryCode && (resultCode != ResultOk || data.None?) ==>
      if s.pendingResult.None? then r == Err(NullPendingResult)
      else r == Ok(Reaction(true, Step(Idle, [ReplySuccess(s.pendingResult.value, None)])))
    // a picked image: no code found faults, else the first code answers the pending result
    ensures requestCode == ChooseImageFromGalleryCode && resultCode == ResultOk && data.Some? ==>
      if |data.value.barcodes| == 0 then r == Err(NoBarcodeDetected)
      else if s.pendingResult.None? then r == Err(NullPendingResult)
      else r == Ok(Reaction(true, Step(Idle, [ReplySuccess(s.pendingResult.value, Some(data.value.barcodes[0]))])))
  {
    if requestCode != ChooseImageFromGalleryCode then Ok(Reaction(false, Step(s, [])))
    else
      var step :- HandleChooseImageResult(s, resultCode, data);
      Ok(Reaction(true, step))
  }
}
