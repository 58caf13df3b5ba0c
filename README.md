# CalorieSnap in Dafny

A model of the core of CalorieSnap, a single-page React application. The user uploads a food photo or captures one with the device camera. The app asks a Gemini model for a calorie estimate and shows the answer. The model covers four parts:

- **Image encoder** (`utils/imageUtils.ts`). `fileToBase64` checks the declared type. It then splits the FileReader's data URL on `,` and requires exactly two pieces. The media type comes from the first piece by the regular expression `/:(.*?);/`, and a type outside the allow-list earns only a console warning. The model is pure functions over the reader's string, with the JavaScript built-ins (`split`, `match`, `includes`, `trim`, `toLowerCase`) written out in `JsString` and `ImageUtils.MimeMatch`.
- **Estimation service** (`services/geminiService.ts`). `estimateCaloriesFromImage` has three steps: the key guard, the empty-text check inside the `try`, and the `catch` that turns everything thrown into the message of the caller's `Error`. The SDK's answer is an input (`SdkOutcome`).
- **Display** (`components/CalorieDisplay.tsx`). It chooses one of four panels from three props, tested by JavaScript truthiness.
- **Application controller** (`App.tsx`). The state is one record, `AppState.UiState`, and every handler and effect is a pure transition on it. Setters batch and the last write wins. A handler that awaits is cut at each await: the part before the first await and each continuation are separate transitions, and the caller decides how events interleave. `AppComponent.App` is the same component as an object: its fields are the state, its methods are the handlers, each proved equal to its transition, and `tracks` holds the camera stream's tracks. `StopCameraStream` stops them one by one.

Besides restating each handler, the model proves what follows from the code as written.

- A data URL built from a payload without `,` and a media type without `;`, `,` or a line terminator decodes back to exactly that payload and media type (`ImageUtils.RoundTrip`). The last hypothesis is needed because `.` does not match line terminators (`ImageUtils.LineTerminatorDefeatsMatch`).
- The allow-list never rejects anything, and it ignores letter case.
- The service's errors always carry a message. The App therefore shows that message and never its own fallback text.
- The App has no staleness check:
  - a late encode overwrites the image of a later selection (`AppState.StaleEncodingWins`);
  - a stream that arrives after the camera was closed fails to attach and is reported as a camera error (`AppState.LateStreamAfterCameraOff`);
  - a stream stopped while its `play()` is pending is marked ready anyway if the `play()` resolves, or reported as "Camera access was aborted" if it is aborted (`AppState.StopWhilePlayPending`);
  - two requests in flight leave the first stream's track live with nothing referring to it (`AppComponent.DoubleRequestLeaks`).
- The "Camera playback was prevented" message is always overwritten by the `catch` before it can be seen (`AppState.PlaybackMessageReplaced`).
- A canvas capture is stored as `image/jpeg` whatever the data URL says, and its payload agrees with what the file path decodes from the same JPEG data URL (`AppState.CaptureAgreesWithDecoder`).

The model follows the code as written:

- The code has no generation or staleness check, so stale continuations are applied. Their consequences are the lemmas listed above.
- Readiness is set as soon as the stream has played (App.tsx:138), with no check of the video's dimensions. A capture that finds zero dimensions reports it and clears readiness (App.tsx:262-265).
- The App's key check reads `process.env.API_KEY` (App.tsx:29). The service reads `import.meta.env.VITE_GEMINI_API_KEY` (services/geminiService.ts:4). They are two independent inputs, so the App can pass its check and still receive the service's key error (`AppState.ServiceOutcomeShown`).

## Model

| member | source | states |
|---|---|---|
| JsString.Split | utils/imageUtils.ts:16 | `split(',')` gives at least one piece, no piece holds the separator, and joining the pieces with it gives the input back |
| JsString.SplitCount | utils/imageUtils.ts:16-17 | the number of pieces is the number of separators plus one, so the test `parts.length !== 2` rejects exactly the strings without exactly one comma |
| JsString.SplitUnique | utils/imageUtils.ts:16 | every cutting into separator-free pieces that joins back to the input is the one `split` returns |
| JsString.SplitSecondPiece | App.tsx:282 | `split(',')[1]` of a string holding a comma is the text after the first comma up to the next comma or the end: a comma-free prefix of that text followed by a comma or by nothing, and all of that text when there is only one comma |
| JsString.IncludesIff | services/geminiService.ts:44 | `includes` holds exactly when the substring occurs at some offset |
| JsString.TrimEmptyIff | services/geminiService.ts:33 | `trim()` yields `""` exactly when every character is ECMAScript white space or a line terminator |
| JsString.ToLower | utils/imageUtils.ts:32 | lower-casing keeps the length and maps each character on its own |
| ImageUtils.MimeMatch | utils/imageUtils.ts:23-28 | the regular expression matches exactly when some `:` is followed by `;` with no line terminator between; the captured type is the leftmost match's group and holds no `;` |
| ImageUtils.FirstColonToFirstSemicolon | utils/imageUtils.ts:23-28 | without line terminators, a type is found exactly when there is a `:` with a `;` after it, and it is the text between the first `:` and the next `;` |
| ImageUtils.DecodeDataUrl | utils/imageUtils.ts:13-37 | the onload body rejects with the format error iff the comma count is not 1, with the media-type error iff the prefix has no match, and with no other error; a success returns the text after the comma and the matched type |
| ImageUtils.FileToBase64 | utils/imageUtils.ts:4-40 | a non-`image/` declared type rejects; a read error rejects with its detail; otherwise the result is the data URL decoding; the warning is emitted iff the result succeeded with a type outside the allow-list |
| ImageUtils.Message | utils/imageUtils.ts:7-39 | every rejection carries a non-empty message, and a read error's message ends with the reader's detail |
| ImageUtils.MessageIdentifiesError | utils/imageUtils.ts:7-39 | distinct rejections carry distinct messages, so a message tells which check failed and, for a read error, its detail |
| ImageUtils.TypeGuardBeforeRead | utils/imageUtils.ts:6-12 | the declared-type rejection happens before reading: the reader's outcome does not matter |
| ImageUtils.AdvisoryNeverRejects | utils/imageUtils.ts:30-37 | the allow-list never turns a success into a rejection |
| ImageUtils.SupportedIgnoresCase | utils/imageUtils.ts:31-32 | two types equal up to letter case are both supported or both unsupported |
| ImageUtils.IsSupported | utils/imageUtils.ts:31-32 | every supported type, lower-cased, starts with `image/`, and holds neither `;` nor `,` |
| ImageUtils.SupportedExamples | utils/imageUtils.ts:31-32 | `IMAGE/JPEG` and `image/Heic` are supported; `image/gif` is not |
| ImageUtils.DecodeAtComma | utils/imageUtils.ts:16-37 | a prefix and a payload without commas, joined by one comma, decode by the media type matched in the prefix |
| ImageUtils.MimeOfDataPrefix | utils/imageUtils.ts:23-28 | the type matched in `data:<m>;base64` is `m` when `m` has no `;` and no line terminator |
| ImageUtils.RoundTrip | utils/imageUtils.ts:13-37 | `data:<m>;base64,<b>` decodes to payload `b` and type `m` |
| ImageUtils.DeclaredTypeRoundTrip | utils/imageUtils.ts:4-37 | a file whose reader writes its declared image type into the data URL resolves to that type and the reader's payload |
| ImageUtils.LineTerminatorDefeatsMatch | utils/imageUtils.ts:23-27 | `data:\n;base64,QQ==` is rejected as having no media type, because `.` does not match a line feed |
| GeminiService.TryBlock | services/geminiService.ts:25-37 | the `try` returns the text iff the SDK answered with a text that is not blank; a blank or missing text throws the empty-response error; an SDK error passes through |
| GeminiService.CatchMessage | services/geminiService.ts:39-50 | the `catch` maps an error mentioning `API key not valid` to the invalid-key message, any other error with a message to the prefixed message, and anything else to the generic message; none of these messages is empty |
| GeminiService.Estimate | services/geminiService.ts:6-51 | a falsy key fails with the key message; success holds exactly for a configured key and a non-blank text, which is returned; every failure's message, per case, is the one the `catch` produces, and it is never empty |
| GeminiService.EmptyResponseHasNoKeyMarker | services/geminiService.ts:33-45 | the empty-response error does not mention `API key not valid`, so the `catch` prefixes it instead of replacing it |
| GeminiService.EmptyResponseIsRewrapped | services/geminiService.ts:33-47 | the caller never receives the bare empty-response message |
| GeminiService.KeyMissingOnlyFromGuard | services/geminiService.ts:7-10 | the key-missing message is received exactly when the key is falsy |
| CalorieDisplay.Render | components/CalorieDisplay.tsx:11-44 | the spinner iff loading; otherwise the error panel iff the error is truthy, then the result panel iff the result is truthy, else nothing |
| CalorieDisplay.LoadingHidesEverything | components/CalorieDisplay.tsx:12-21 | while loading, error and result do not matter |
| CalorieDisplay.ErrorHidesResult | components/CalorieDisplay.tsx:23-30 | a truthy error hides any result |
| CalorieDisplay.FalsyRendersNothing | components/CalorieDisplay.tsx:23-43 | null and the empty string both render nothing |
| AppState.MountState | App.tsx:13-33 | after mounting, the key notice shows exactly when the key is unset or empty, and no panel is shown |
| AppState.BaseClearState | App.tsx:35-42 | the six data fields are cleared and nothing else changes |
| AppState.ResetForNewEstimation | App.tsx:44-51 | data cleared, next steps hidden, camera off, key and stream untouched |
| AppState.ResetIdempotent | App.tsx:44-51 | resetting twice is resetting once |
| AppState.StopCameraStream | App.tsx:54-68 | the stream is released and nothing else changes |
| AppState.StopIdempotent | App.tsx:54-68 | stopping twice is stopping once, and stopping with no stream changes nothing |
| AppState.Initial | App.tsx:13-26 | the initial record is empty, with camera, readiness, next steps and stream all off, and it is at rest |
| AppState.ImageSelect | App.tsx:209-231 | camera off, data cleared, the file recorded; the invalid-image error iff a file was given whose type does not start with `image/`, no error otherwise; key, readiness and stream untouched |
| AppState.ImageEncoded | App.tsx:232-240 | success stores the image; failure sets the processing error and clears preview and image, changing nothing else |
| AppState.PreviewLoaded | App.tsx:226-229 | the preview becomes the reader's result, or null |
| AppState.EncodingPassesTypeGuard | App.tsx:221-233 | a file that passes the component's type check never meets the encoder's type rejection |
| AppState.StaleEncodingWins | App.tsx:209-240 | the encode of an earlier selection, settling late, overwrites the image of the later selection |
| AppState.ToggleCamera | App.tsx:243-253 | data cleared, next steps hidden, camera flag flipped, readiness cleared when switching on |
| AppState.CameraErrorMessage | App.tsx:143-163 | the message is never empty; each recognised error name gets its own message (the abort message only with no stream); any other name gets the message-based text when the message is set and does not mention `play()`, else the default text with a stream held and the initialisation text without one |
| AppState.ReportsCameraError | App.tsx:150-165 | with no stream held every error is reported; an abort is reported iff no stream is held; with a stream held only an error whose message is set and does not mention `play()` is reported |
| AppState.CameraCatch | App.tsx:141-169 | a reported error sets its message, closes the camera and releases the stream; an unreported one changes nothing |
| AppState.ClassifierWithoutStream | App.tsx:143-169 | with no stream held, every error sets its message, which is never the default text, and closes the camera; nothing else changes |
| AppState.ClassifierWithStream | App.tsx:150-169 | with a stream held, only a non-abort error whose message does not mention `play()` changes the state; an abort changes nothing |
| AppState.Layout | App.tsx:340-447 | key notice iff key missing; the display's panel; next-step choices iff next steps are shown with a truthy result and no loading; no controls iff loading; camera block iff camera on; capture enabled iff ready; estimate button iff an image exists, enabled iff the key is present |
| AppState.VideoMounted | App.tsx:352-379 | the video element exists exactly when the camera is on, nothing is loading and the next-step choices are not shown |
| AppState.OnePreviewAtATime | App.tsx:397-419 | the uploaded-file preview and the captured preview are never both shown |
| AppState.BeginCameraStream | App.tsx:70-176 | readiness cleared; no video element: the view error and camera off; no media API: the API error and camera off; otherwise it awaits a stream |
| AppState.StreamReady | App.tsx:129-139 | a stream that plays makes the camera ready and clears the error, and nothing else changes |
| AppState.StreamObtained | App.tsx:84-110 | a refusal goes to the `catch`; a failed attach holds the stream and then goes to the `catch`; an attached stream is held, and is ready at once unless the video is paused, in which case `play()` is awaited |
| AppState.PlaySettled | App.tsx:110-169 | a resolved `play()` makes the camera ready and clears the error; a rejection as not allowed or aborted releases the stream, closes the camera and ends with the message for its name; any other rejection goes to the `catch` |
| AppState.PlaybackMessageReplaced | App.tsx:107-152 | after a direct `play()` rejected as not allowed or aborted, the error shown is the access-denied or aborted message, never the playback message |
| AppState.LatePlayFailed | App.tsx:93-105 | the late `play()` failure sets its message, releases the stream and closes the camera |
| AppState.TrackEnded | App.tsx:129-136 | an ended track sets its message, releases the stream and closes the camera |
| AppState.TrackEndedLeavesReadiness | App.tsx:129-136 | right after a track ends, readiness is still set with no stream held |
| AppState.CameraEffectCleanup | App.tsx:197-205 | the cleanup releases any stream and clears readiness if it was set when the effect last ran |
| AppState.CameraEffect | App.tsx:179-196 | camera off: stream released and readiness cleared; camera on with no stream and a video element: the stream is started; otherwise nothing |
| AppState.CameraFlagChanged | App.tsx:179-206 | a flag change runs the cleanup, then the effect; switching on starts a fresh request with no stream and no readiness |
| AppState.CameraOnStartsRequest | App.tsx:179-253 | switching the camera on mounts the video and starts a request, or reports that the camera API is missing |
| AppState.LateStreamAfterCameraOff | App.tsx:84-169 | a stream arriving after the camera was closed fails to attach; the TypeError this raises has a message without `play()`, so the stream is stopped and a camera error is shown with the camera off; an error without such a message, which the program does not raise here, would leave the stream held |
| AppState.StopWhilePlayPending | App.tsx:84-205 | a stream whose `play()` is pending is held; closing the camera stops it; a `play()` that then resolves leaves the camera ready with no stream, which breaks consistency, and an abort shows the aborted message |
| AppState.CaptureAndProcess | App.tsx:255-288 | without a mounted, held, ready stream or with zero dimensions, the matching error is set, readiness cleared and nothing else changed; without a 2D context the data is cleared, next steps hidden and the canvas error set; past the guards the stream stays held and ready |
| AppState.CaptureSuccess | App.tsx:278-287 | a capture stores a JPEG whose payload is the second piece of the data URL (the text after its first comma up to the next comma or the end), shows the data URL as preview and closes the camera; the other data is cleared; stream, readiness and key are unchanged |
| AppState.CaptureAgreesWithDecoder | App.tsx:280-284 | for a JPEG data URL with one comma, the captured image is what the encoder decodes from the same URL |
| AppState.EstimateCalories | App.tsx:291-304 | no image: the no-image error; no key: the key error; otherwise loading with error, result and next steps cleared, nothing else changed |
| AppState.EstimateSettled | App.tsx:306-317 | loading ends; success stores the result and shows next steps; failure shows the error's message, or the fallback for an empty one, and hides next steps |
| AppState.ServiceOutcomeShown | App.tsx:306-317 | a service failure is shown with the service's own message; a success is a non-blank text shown with next steps; a missing service key is reported even when the App found its key |
| AppState.ClearCapturedImagePreview | App.tsx:320-325 | with no file, data cleared and next steps hidden; with a file, nothing changes |
| AppState.NoEstimateWhilePending | App.tsx:346-368 | while an estimate is pending the spinner shows and no controls are rendered |
| AppState.SuccessShowsResultAndChoices | App.tsx:306-367 | a non-empty result shows the result panel and the next-step choices |
| AppState.FailureShowsError | App.tsx:311-444 | a failure shows its message in the error panel and gives back an enabled estimate button |
| AppState.ImageHandlersKeepConsistency | App.tsx:209-240 | the image handlers, reset and preview clearing keep readiness within a held stream, and next steps within a present, settled result |
| AppState.CameraHandlersKeepConsistency | App.tsx:70-253 | toggling and starting keep the record consistent; so does an obtained stream when the record is not yet ready, and a settled `play()` when its stream is still held and not yet ready |
| AppState.CameraFlagChangeKeepsConsistency | App.tsx:179-206 | a flag change keeps consistency unless it leaves a camera that is on and ready |
| AppState.StreamEndingRestoresConsistency | App.tsx:93-206 | after a late play failure or an ended track, the effect the closed camera triggers restores consistency |
| AppState.CaptureKeepsConsistency | App.tsx:255-288 | every capture outcome keeps the record consistent |
| AppState.EstimationKeepsConsistency | App.tsx:291-317 | starting and settling an estimate keep the record consistent |
| AppState.ResetReturnsToInitial | App.tsx:44-51 | from a settled record, either next-step button, followed by the effect it triggers, gives the initial state |
| AppComponent.Track.Stop | App.tsx:57 | a stopped track is no longer live |
| AppComponent.App.constructor | App.tsx:13-33 | the fields hold the initial state, with the key flag from the mount effect, and no tracks |
| AppComponent.App.BaseClearState | App.tsx:35-42 | the fields change as `AppState.BaseClearState` |
| AppComponent.App.ResetForNewEstimation | App.tsx:44-51 | the fields change as the reset transition; the tracks are untouched |
| AppComponent.App.StopCameraStream | App.tsx:54-68 | every track of the held stream is stopped, the ref is cleared, the fields change as the stop transition |
| AppComponent.App.ImageSelect | App.tsx:209-231 | the fields change as `AppState.ImageSelect` |
| AppComponent.App.ImageEncoded | App.tsx:232-240 | the fields change as `AppState.ImageEncoded` |
| AppComponent.App.PreviewLoaded | App.tsx:226-229 | the fields change as `AppState.PreviewLoaded` |
| AppComponent.App.ToggleCamera | App.tsx:243-253 | the fields change as `AppState.ToggleCamera` |
| AppComponent.App.BeginCameraStream | App.tsx:70-176 | the fields change as `AppState.BeginCameraStream` |
| AppComponent.App.CameraCatch | App.tsx:141-169 | the fields change as `AppState.CameraCatch`; a released stream's tracks are all stopped; a stream still held keeps its tracks with their liveness unchanged |
| AppComponent.App.HoldStream | App.tsx:86 | the ref holds the new stream's tracks |
| AppComponent.App.PlayRejected | App.tsx:110-118 | a `play()` rejected as not allowed or aborted sets the playback message, stops the tracks and closes the camera; otherwise the fields, the tracks and their liveness are unchanged |
| AppComponent.App.StreamObtained | App.tsx:84-110 | the fields change as `AppState.StreamObtained`; a held stream keeps its tracks live as they were; a released one has all tracks stopped; old tracks that a new stream replaces in the ref keep their liveness, so they are not stopped |
| AppComponent.App.PlaySettled | App.tsx:110-169 | the fields change as `AppState.PlaySettled`; a stream still held keeps its tracks with their liveness unchanged; a released one has all its tracks stopped |
| AppComponent.App.LatePlayFailed | App.tsx:93-105 | the fields change as `AppState.LatePlayFailed`; the tracks are stopped |
| AppComponent.App.TrackEnded | App.tsx:129-136 | the fields change as `AppState.TrackEnded`; the tracks are stopped |
| AppComponent.App.CameraEffectCleanup | App.tsx:197-205 | the fields change as the cleanup transition; the tracks are stopped |
| AppComponent.App.CameraEffect | App.tsx:179-196 | the fields change as `AppState.CameraEffect`; a released stream's tracks are stopped; a stream still held keeps its tracks with their liveness unchanged |
| AppComponent.App.CameraFlagChanged | App.tsx:179-206 | the fields change as the flag-change transition; the previous stream's tracks are stopped |
| AppComponent.App.CaptureAndProcess | App.tsx:255-288 | the fields change as `AppState.CaptureAndProcess` |
| AppComponent.App.EstimateCalories | App.tsx:291-304 | the fields change as `AppState.EstimateCalories` |
| AppComponent.App.EstimateSettled | App.tsx:306-317 | the fields change as `AppState.EstimateSettled` |
| AppComponent.App.ClearCapturedImagePreview | App.tsx:320-325 | the fields change as `AppState.ClearCapturedImagePreview` |
| AppComponent.DoubleRequestLeaks | App.tsx:84-86 | camera on, off and on before the first stream arrives: when both streams arrive, the first stream's track stays live but is no longer held |

## Left out

- FileReader, `getUserMedia`, `play()`, the canvas and the Gemini SDK are not modelled as code. What they deliver is an input: `ReadOutcome`, `StreamAttempt` with the tracks passed to `StreamObtained`, `PlayOutcome`, the canvas's data URL and dimensions, and `SdkOutcome`.
- The prompt text and the model name the service sends are left out, because they do not affect any state.
- Console logging and warnings are left out. The one console warning the encoder decides is kept, as the flag `Encoded.warned`.
- `components/ImageUploader.tsx` and the JSX markup, styles and icons are left out. Only the selection of what is rendered (`AppState.Layout`) is modelled.
- `stopCameraStream` also clears the video element's source and pauses it (App.tsx:60-67). This is not modelled, because no field of the record depends on it.
- The branch `readyState >= 3` (App.tsx:119-121) and the still-paused check (App.tsx:125-127) only log, so they are left out.
- `onloadedmetadata` and `onended` are modelled only by the transitions their failures cause: `AppState.LatePlayFailed` and `AppState.TrackEnded`. Which event comes when is up to the caller.
- AppState.LatePlayFailed: the model lets the late `play()` failure follow any state, including a stop. In the code, `stopCameraStream` clears `onloadedmetadata` while the video is mounted (App.tsx:62), so after such a stop that handler, and with it the failure, cannot occur. The model does not track whether the handler is installed.
- Event order is not modelled. There is no scheduler: a property about a sequence of events is a lemma about that sequence.
- React's render, commit and memoisation are reduced to two assumptions: each handler sees the latest committed record, and the camera effect runs (`CameraFlagChanged`) after a change of `isCameraActive`. The one stale closure value that matters, the cleanup's view of readiness, is the parameter `readyAtLastRun`. Unmounting is the cleanup alone.
- JsString.ToLower: lower-cases ASCII letters only, not all of Unicode. For the allow-list this gives the same membership answer as JavaScript for every input. A non-ASCII character stays non-ASCII under JavaScript's lower-casing with two exceptions: U+0130 becomes `i` followed by the non-ASCII U+0307, and U+212A becomes `k`, which no allow-list entry contains.
- AppState.CaptureAndProcess: requires the data URL to contain a comma. Every data URL a canvas returns has one.
- GeminiService.CatchMessage: a thrown object's `message` is taken as the string `String(error.message)` yields; the conversion itself is not modelled.
- AppState.CameraErrorMessage: a thrown camera error is taken to be an object whose `name` and `message` are strings. The `typeof` test on the message (App.tsx:159) and the one on `err` itself (App.tsx:165) then always pass; other thrown values, such as a non-object or an error whose `message` is not a string, are not modelled.
- The code has no generation marker and no re-entrancy guard, so the model has none either. Their absence is stated in `AppState.StaleEncodingWins`, `AppState.LateStreamAfterCameraOff`, `AppState.StopWhilePlayPending` and `AppComponent.DoubleRequestLeaks`.
