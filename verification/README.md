# Image-picker delegate of read_qr_gallery, in Dafny

`ImagePickerDelegate` is the Android class of the `read_qr_gallery` Flutter
plugin that picks an image from the gallery and answers with the text of the
first barcode found in it. It holds one pending-result slot: two fields, the
stored method call and the pending result. Three entry points move that slot:

- `chooseImageFromGallery` is the request;
- `onRequestPermissionsResult` is the permission callback;
- `onActivityResult` is the gallery-picker callback.

The delegate is modelled on its own. In this repository nothing constructs it
or registers it as a permission or activity-result listener. The plugin's
channel handler (`ReadQrGalleryPlugin.java:17-24`) answers only
`getPlatformVersion` and replies `notImplemented` to every other method. So in
this source no request ever reaches `chooseImageFromGallery`. The model
describes what the delegate does when some host does call it.

This project models the delegate as pure functions over an immutable `State`
(`wrappers.dfy`, `delegate.dfy`). Each entry point returns either the next
state plus the effects it emitted, in order, or the fault that the Java code
would throw:

- effects: ask for a permission, start the picker, and complete the pending
  result with `success` or `error`;
- the callbacks also return the boolean the Java method returns, which says
  whether the request code belongs to the delegate;
- faults: the finish helpers dereference the pending result without a null
  check, and the detection tail reads element 0 of a detection result that
  may be empty.

`session.dfy` runs event sequences through the delegate and proves properties
of whole runs. The main one is that every result is answered at most once.

The opaque collaborators become inputs:

- the permission manager's answer is a `bool`;
- the grant results are a `seq<int>`;
- the picker's answer is a result code plus a `data` that may be null;
- the barcode detector's output for the picked image is a sequence of raw strings.

Launching the picker (`launchPickImageFromGalleryIntent`) is the effect
`PickImageIntent()`: a `StartPicker` for `image/*` with request code 2342.

Three platform constants come from Android, not from the repository:
`PERMISSION_GRANTED = 0`, `RESULT_OK = -1` and the permission name
`android.permission.READ_EXTERNAL_STORAGE`.

The rejection path routes its error to the wrong caller. When a request
arrives while another is pending, `chooseImageFromGallery` (lines 148-149)
calls `finishWithAlreadyActiveError`. That helper reports through the field
`pendingResult` (line 261), not through the new `result` parameter. So the
caller who was already waiting gets the already-active error and the slot is
emptied. The new caller is never stored and never answered. Afterwards, a later
permission refusal, or the picker's result, finds no pending result and
throws. A later permission grant reads no result: it launches a picker that
nobody is waiting on. If a third request is accepted in the meantime, the
first request's picker result answers that third caller with the code from the
first caller's image. The main model keeps this behaviour as written
(`ImagePicker.ChooseImageFromGallery`, `Session.RejectedRequestNeverAnswered`,
`Session.SecondRequestPreemptsFirst`, `Session.SecondRequestPreemptsPrompt`,
`Session.StalePickerAnswersLaterCaller`).
`ImagePicker.ChooseImageFromGalleryIntended` is the corrected request step; see
"## Findings".

## Model

| member | source | states |
|---|---|---|
| ImagePicker.SetPendingMethodCallAndResult | android/src/main/java/com/exameple/readqrgallery/ImagePickerDelegate.java:240-247 | The call and result are stored exactly when no result is pending. If one is pending, the state is returned untouched, so the slot is never overwritten. |
| ImagePicker.FinishWithSuccess | android/src/main/java/com/exameple/readqrgallery/ImagePickerDelegate.java:249-254 | If a result is pending, it gets exactly one `success(value)` and both fields are cleared. If none is pending, it faults with a null dereference. |
| ImagePicker.FinishWithError | android/src/main/java/com/exameple/readqrgallery/ImagePickerDelegate.java:260-268 | If a result is pending, it gets exactly one `error(code, message)` and both fields are cleared. If none is pending, it faults. |
| ImagePicker.FinishWithAlreadyActiveError | android/src/main/java/com/exameple/readqrgallery/ImagePickerDelegate.java:256-258 | The pending result gets `error("already_active", "Image picker is already active")` and the slot is emptied. |
| ImagePicker.ChooseImageFromGallery | android/src/main/java/com/exameple/readqrgallery/ImagePickerDelegate.java:147-164 | The request never faults, given that the operating-system calls it makes return normally. When idle with the permission held: the new result is stored and the picker starts once with code 2342. When idle without it: the result is stored and READ_EXTERNAL_STORAGE is requested with code 2344. When busy: the OLD pending result gets the already-active error, the slot ends empty, and the new caller is neither stored nor answered. |
| ImagePicker.OnRequestPermissionsResult | android/src/main/java/com/exameple/readqrgallery/ImagePickerDelegate.java:166-187 | A code other than 2344 returns false, emits nothing and changes nothing. For 2344, the permission is granted when the answer is non-empty and its first element is PERMISSION_GRANTED. Granted: the picker starts and the slot is kept. Not granted (an empty answer included): the pending result gets `success(null)`, or the call faults if none is pending. It returns true in both cases. |
| ImagePicker.Qr | android/src/main/java/com/exameple/readqrgallery/ImagePickerDelegate.java:231-236 | An empty detection faults before anything is emitted. Otherwise the pending result gets the raw value of the first detected barcode. |
| ImagePicker.HandleChooseImageResult | android/src/main/java/com/exameple/readqrgallery/ImagePickerDelegate.java:200-209 | A result code other than RESULT_OK, or null data, completes with `success(null)`. Otherwise the detection step decides the outcome. |
| ImagePicker.OnActivityResult | android/src/main/java/com/exameple/readqrgallery/ImagePickerDelegate.java:189-209 | A code other than 2342 returns false and changes nothing. For 2342 it returns true. A result code other than RESULT_OK, or null data, answers the pending result with `success(null)`. Otherwise an empty detection faults and a non-empty one answers with the first code. With nothing pending, the reply faults. |
| Session.Run | android/src/main/java/com/exameple/readqrgallery/ImagePickerDelegate.java:240-247 | Along any event sequence, the stored call and the pending result stay set together or cleared together. |
| Session.SlotDiscipline | android/src/main/java/com/exameple/readqrgallery/ImagePickerDelegate.java:240-268 | On any single event, a reply goes to exactly the result that was pending, and the slot is then empty. With no reply, the slot keeps its result, or an accepted request puts the new caller's result in an empty slot. |
| Session.RepliedAtMostOnce | android/src/main/java/com/exameple/readqrgallery/ImagePickerDelegate.java:147-150 | Assume each request brings a result of its own. Then over any run, no result is answered twice. |
| Session.AcceptedAfterReply | android/src/main/java/com/exameple/readqrgallery/ImagePickerDelegate.java:265-268 | After any event that answered a result, the next request is accepted and stored. |
| Session.PickerLaunchedIffGranted | android/src/main/java/com/exameple/readqrgallery/ImagePickerDelegate.java:169-186 | For code 2344, the callback starts the picker if and only if the permission was granted. It answers the caller if and only if it was not. It always returns true. |
| Session.PickedCodeAnswersCaller | android/src/main/java/com/exameple/readqrgallery/ImagePickerDelegate.java:200-236 | With the permission held, a request followed by a picked image starts the picker once. The caller gets the first detected code, and the slot ends empty. |
| Session.DeniedPermissionAnswersNull | android/src/main/java/com/exameple/readqrgallery/ImagePickerDelegate.java:152-156 | A request that prompts for the permission, followed by a refusal, answers the caller with `success(null)` and frees the slot. |
| Session.GrantedPermissionLaunchesPicker | android/src/main/java/com/exameple/readqrgallery/ImagePickerDelegate.java:172-177 | A request that prompts for the permission, followed by a grant, starts the picker exactly once, and the caller stays pending. |
| Session.CancelledPickAnswersNull | android/src/main/java/com/exameple/readqrgallery/ImagePickerDelegate.java:202-208 | A cancelled pick, or one that returns no data, answers the caller with `success(null)`. |
| Session.EmptyDetectionFaults | android/src/main/java/com/exameple/readqrgallery/ImagePickerDelegate.java:231-233 | An image with no detectable code faults. The caller is never answered and stays in the slot. |
| Session.SecondRequestPreemptsFirst | android/src/main/java/com/exameple/readqrgallery/ImagePickerDelegate.java:147-150 | Take a first request waiting on the picker. A second request answers the first caller with the already-active error and never answers the second caller. The first request's picker result then faults on the empty slot. |
| Session.SecondRequestPreemptsPrompt | android/src/main/java/com/exameple/readqrgallery/ImagePickerDelegate.java:147-150 | Take a first request waiting on the permission prompt. A second request answers the first caller with the already-active error. A later refusal then faults on the empty slot. A later grant launches a picker that nobody is waiting on. |
| Session.StalePickerAnswersLaterCaller | android/src/main/java/com/exameple/readqrgallery/ImagePickerDelegate.java:147-150 | After the preemption a third request is accepted. The first request's picker result then answers the third caller with the code from the first caller's image, and the slot ends empty. |
| Session.RepliesNameKnownResults | android/src/main/java/com/exameple/readqrgallery/ImagePickerDelegate.java:240-268 | Over any run, every result answered was pending when the run began or was handed in by one of its requests. |
| Session.RejectedRequestNeverAnswered | android/src/main/java/com/exameple/readqrgallery/ImagePickerDelegate.java:148-150 | A request rejected as already active is never answered, by that event or by any later one, unless a later request hands the same result in again. |
| ImagePicker.ChooseImageFromGalleryIntended | android/src/main/java/com/exameple/readqrgallery/ImagePickerDelegate.java:148-150 | The corrected request step. When busy, only the new caller gets the already-active error and the slot is untouched. When idle, it acts exactly as the request as written. |
| Session.IntendedRejectionKeepsFirst | android/src/main/java/com/exameple/readqrgallery/ImagePickerDelegate.java:148-150 | With the corrected step, a rejected second request leaves the first request pending. The first request's picker result still answers the first caller with the detected code. |

Two helpers carry no contract of their own and are checked through the rows
above. `ImagePicker.PickImageIntent` models `launchPickImageFromGalleryIntent`
(ImagePickerDelegate.java:160-164): a `StartPicker` for `image/*` with request
code 2342. `ImagePicker.IsPermissionGranted` models the grant test
(ImagePickerDelegate.java:169-170): the answer is non-empty and its first
element is PERMISSION_GRANTED. `OnRequestPermissionsResult` and
`PickerLaunchedIffGranted` state what follows from each.

## Left out

- `ReadQrGalleryPlugin.java` and `SwiftReadQrGalleryPlugin.swift`: the Android handler answers only `getPlatformVersion` and replies `notImplemented` to anything else. The Swift handler answers every method with the iOS version string. Neither creates, registers or calls the delegate, so no wiring between the channel and the delegate is modelled; there is none in this source.
- Permission checks and requests, intent construction, `startActivityForResult`: operating-system calls. Their answers are parameters and the requests are effects. Their own failures are not modelled, for example `startActivityForResult` finding no picker activity. So "the request never faults" holds only on the assumption that these calls return normally.
- `FileProvider` and `MediaScannerConnection`: they appear only in the default `FileUriResolver` (ImagePickerDelegate.java:97-116), which no modelled method calls.
- The content-resolver and cursor path lookup in `qr`, and `fileUtils.getPathFromUri`: their results reach only a log line or the bitmap decoder. Their own failures, such as a null cursor, are not modelled.
- `BarcodeDetector`, `BitmapFactory`, `Frame`: a third-party vision library. Its output is an input sequence of raw strings.
- All `Log.i` calls: no behaviour depends on them.
- `externalFilesDirectory`, `imageResizer`, `pendingCameraMediaUri`, `fileProviderName`, and the video codes 2352/2354: unused by the modelled behaviour.
- The `permissions` argument of the permission callback: the code never reads it.
- Null arguments: the model assumes that a host calling the delegate passes a non-null method call, result and grant-result array. No call site in this source shows what a host passes.
- Delivery on the main thread: events are modelled as a sequence, one at a time.
- What happens after a fault: a run stops at the first fault.

## Findings

| source | as written | input that shows it | evidently intended | confidence | as-written member | corrected member |
|---|---|---|---|---|---|---|
| android/src/main/java/com/exameple/readqrgallery/ImagePickerDelegate.java:148-150 | A request made while another is pending sends the already-active error to the result that was already pending, empties the slot, and never answers the new caller. | A request with result r1 (permission held), then a request with result r2, then a picker result with code 2342: r1 gets `already_active`, r2 gets nothing, and the picker result faults on the empty slot. | The new caller gets `error("already_active", "Image picker is already active")` and the pending request is left alone. | medium (not executed) | Session.RejectedRequestNeverAnswered | ImagePicker.ChooseImageFromGalleryIntended |
