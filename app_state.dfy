/**
 * The state of the `App` component (App.tsx) as one record, and each handler
 * and effect as a transition on it. React batches the setter calls of a
 * handler and the handler reads the values of the render it was created in,
 * so a transition reads the old record and its writes apply in order, the
 * last one winning. Handlers that `await` are cut at the await: the part
 * before it and the continuation are two transitions, and nothing orders
 * them against other events (the component keeps no generation counter).
 *
 * Besides the React state, the record holds `streamHeld`: whether
 * `cameraStreamRef.current` is a stream. Whether the video element is
 * mounted is not stored: it is read off the rendered view (`VideoMounted`).
 */
module AppState {
  import opened Wrappers
  import opened JsString
  import ImageUtils
  import CalorieDisplay
  import GeminiService

  /** A selected `File`, as far as the component looks at it. */
  datatype FileInfo = FileInfo(name: string, mediaType: string)

  datatype UiState = UiState(
    imageFile: Option<FileInfo>,
    processedImage: Option<ImageUtils.Base64Image>,
    previewUrl: Option<string>,
    calorieResult: Option<string>,
    isLoading: bool,
    error: Option<string>,
    apiKeyMissing: bool,
    isCameraActive: bool,
    isStreamActiveAndReady: bool,
    showNextStepOptions: bool,
    streamHeld: bool)

  /** An error thrown while starting the camera: its `name` and `message`. */
  datatype CameraError = CameraError(name: string, message: string)

  /** How `await getUserMedia(...)` ended, and how far the code after it got before its next await. */
  datatype StreamAttempt =
    | Refused(err: CameraError)       // `getUserMedia` rejected with `err`
    | AttachFailed(err: CameraError)  // the stream was obtained and held, but no video element was mounted
                                      // any more, and assigning its `srcObject` threw `err`; in the program
                                      // that is a TypeError whose message is set and does not mention `play()`
    | Attached(paused: bool)          // the stream was held and attached; a paused video awaits `play()`

  /** How the awaited direct `play()` ended. */
  datatype PlayOutcome = Played | PlayFailed(err: CameraError)

  // Messages the component sets (long ones in pieces; each is the source's text).
  const NoImageMessage: string := "Please upload or capture an image first."
  const KeyMissingMessage: string := "API Key is not configured. " + "Calorie estimation is unavailable."
  const GenericEstimateMessage: string :=
    "Failed to estimate calories. " + "The AI may be busy or unable to process the image. " + "Please try again later."
  const InvalidImageMessage: string := "Please upload a valid image file (e.g., PNG, JPG, WEBP)."
  const ProcessFailedMessage: string := "Failed to process image file. " + "Please try another image."
  const CaptureNotReadyMessage: string := "Camera not ready or stream inactive for capture."
  const ZeroDimensionsMessage: string :=
    "Camera feed not fully loaded or invalid (dimensions are zero). " + "Cannot capture. Please wait or restart camera."
  const CanvasContextMessage: string := "Could not process video frame (canvas context)."
  const ViewNotReadyMessage: string := "Camera view is not ready. " + "Please try toggling the camera again."
  const ApiUnavailableMessage: string := "Camera API (getUserMedia) not available on this browser."
  const PlaybackPreventedMessage: string :=
    "Camera playback " + "was prevented. " + "Please check browser/OS permissions or try again."
  const LatePlayFailedMessage: string :=
    "Could not play camera stream. " + "Ensure permissions are granted and try again."
  const TrackEndedMessage: string := "Camera stream ended. " + "Please try reactivating the camera."
  const CameraDefaultMessage: string :=
    "Could not access camera. " + "Please ensure permissions are granted in your browser AND operating system settings. "
    + "Also, check that no other app (e.g., Zoom, Skype, Teams) is using the camera. "
    + "Check console (F12) for more details."
  const AccessDeniedMessage: string :=
    "Camera access " + "denied by browser or OS. "
    + "Please grant permission in your browser settings AND check your OS privacy settings for camera access. "
    + "Then refresh the page. " + "Ensure no other app is using the camera."
  const NoCameraMessage: string :=
    "No camera found. " + "Please ensure a camera is connected, enabled, and not being used by another application. "
    + "If you have multiple cameras, the default one might not be working."
  const CameraInUseMessage: string :=
    "Camera is " + "already in use by another application or a hardware error occurred. "
    + "Please close any other app that might be using the camera and try again. "
    + "Restarting your browser or computer may also help."
  const AbortedMessage: string :=
    "Camera access " + "was aborted. " + "This can happen if the request took too long or due to a system issue. "
    + "Please try again."
  const SecurityMessage: string :=
    "Camera access denied due to security settings " + "(e.g., page not served over HTTPS, or iframe restrictions). "
    + "Ensure the page is secure."
  const InitFailedMessage: string :=
    "Failed to initialize camera. " + "Check permissions and ensure no other app is using it."

  /** `Camera error: <message>. ...`, the message for an unrecognised error name. */
  function OtherCameraErrorMessage(message: string): string {
    "Camera error: " + message + ". Please check console for details, "
    + "ensure camera drivers are up to date, and that no other app is using it."
  }

  /** The `useState` initial values, after the mount effect has checked the key (App.tsx:13-33). */
  function Initial(apiKeyMissing: bool): (s: UiState)
    ensures DataCleared(s) && s.apiKeyMissing == apiKeyMissing
    ensures !s.isCameraActive && !s.isStreamActiveAndReady && !s.showNextStepOptions && !s.streamHeld
    ensures AtRest(s)
  {
    UiState(None, None, None, None, false, None, apiKeyMissing, false, false, false, false)
  }

  /** The mount effect's test `!process.env.API_KEY`. */
  predicate KeyMissing(apiKey: Option<string>) {
    !Truthy(apiKey)
  }

  /** The record right after mounting carries the key notice exactly when the key is unset or empty. */
  lemma MountState(apiKey: Option<string>)
    ensures var s := Initial(KeyMissing(apiKey));
      && (s.apiKeyMissing <==> apiKey.None? || apiKey.value == "")
      && Layout(s).keyNotice == s.apiKeyMissing
      && Layout(s).panel == CalorieDisplay.NoPanel
  {
  }

  /** Nothing of the current image, result or error is left, and nothing is loading. */
  predicate DataCleared(s: UiState) {
    && s.previewUrl.None? && s.processedImage.None? && s.imageFile.None?
    && s.calorieResult.None? && s.error.None? && !s.isLoading
  }

  /** `baseClearState` clears the data fields and touches nothing else. */
  function BaseClearState(s: UiState): (t: UiState)
    ensures DataCleared(t)
    ensures t.(previewUrl := s.previewUrl, processedImage := s.processedImage, imageFile := s.imageFile,
               calorieResult := s.calorieResult, error := s.error, isLoading := s.isLoading) == s
  {
    s.(previewUrl := None, processedImage := None, imageFile := None,
       calorieResult := None, error := None, isLoading := false)
  }

  /** `handleResetForNewEstimation`, behind both next-step buttons. */
  function ResetForNewEstimation(s: UiState): (t: UiState)
    ensures DataCleared(t) && !t.showNextStepOptions && !t.isCameraActive
    ensures t.apiKeyMissing == s.apiKeyMissing && t.isStreamActiveAndReady == s.isStreamActiveAndReady
    ensures t.streamHeld == s.streamHeld
  {
    var t := BaseClearState(s).(showNextStepOptions := false);
    if s.isCameraActive then t.(isCameraActive := false) else t
  }

  lemma ResetIdempotent(s: UiState)
    ensures ResetForNewEstimation(ResetForNewEstimation(s)) == ResetForNewEstimation(s)
  {
  }

  /** `stopCameraStream`: the stream's tracks are stopped (see the class) and the ref cleared. */
  function StopCameraStream(s: UiState): (t: UiState)
    ensures !t.streamHeld && t.(streamHeld := s.streamHeld) == s
  {
    s.(streamHeld := false)
  }

  lemma StopIdempotent(s: UiState)
    ensures StopCameraStream(StopCameraStream(s)) == StopCameraStream(s)
    ensures !s.streamHeld ==> StopCameraStream(s) == s
  {
  }

  /** Whether `handleImageSelect` goes on to read the file. */
  predicate StartsEncoding(file: Option<FileInfo>) {
    file.Some? && StartsWith(file.value.mediaType, "image/")
  }

  /** `handleImageSelect` up to the `await fileToBase64(file)` (App.tsx:209-231). */
  function ImageSelect(s: UiState, file: Option<FileInfo>): (t: UiState)
    ensures !t.isCameraActive && !t.showNextStepOptions && t.imageFile == file
    ensures t.previewUrl.None? && t.processedImage.None? && t.calorieResult.None? && !t.isLoading
    ensures file.Some? && !StartsEncoding(file) <==> t.error == Some(InvalidImageMessage)
    ensures file.None? || StartsEncoding(file) <==> t.error.None?
    ensures t.isStreamActiveAndReady == s.isStreamActiveAndReady && t.streamHeld == s.streamHeld
    ensures t.apiKeyMissing == s.apiKeyMissing
  {
    var s1 := if s.isCameraActive then s.(isCameraActive := false) else s;
    var s2 := BaseClearState(s1).(showNextStepOptions := false, imageFile := file);
    if file.None? then s2
    else if !StartsWith(file.value.mediaType, "image/") then s2.(error := Some(InvalidImageMessage))
    else s2
  }

  /** The continuation after `await fileToBase64(file)` (App.tsx:232-240). */
  function ImageEncoded(s: UiState, r: Result<ImageUtils.Base64Image, ImageUtils.EncodeError>): (t: UiState)
    ensures r.Success? ==> t == s.(processedImage := Some(r.value))
    ensures r.Failure? ==> t.error == Some(ProcessFailedMessage) && t.previewUrl.None? && t.processedImage.None?
    ensures r.Failure? ==> t.(error := s.error, previewUrl := s.previewUrl, processedImage := s.processedImage) == s
  {
    match r
    case Success(img) => s.(processedImage := Some(img))
    case Failure(_) => s.(error := Some(ProcessFailedMessage), previewUrl := None, processedImage := None)
  }

  /** The preview reader's `onloadend` (App.tsx:227-229): `reader.result`, or null after a read error. */
  function PreviewLoaded(s: UiState, result: Option<string>): (t: UiState)
    ensures t.previewUrl == result && t.(previewUrl := s.previewUrl) == s
  {
    s.(previewUrl := result)
  }

  /**
   * A selected image file always passes the type guard of `fileToBase64`,
   * since both check the same prefix: that rejection cannot reach the component.
   */
  lemma EncodingPassesTypeGuard(file: Option<FileInfo>, read: ImageUtils.ReadOutcome)
    requires StartsEncoding(file)
    ensures ImageUtils.FileToBase64(file.value.mediaType, read).result != Failure(ImageUtils.InvalidFileType)
  {
  }

  /**
   * The component has no staleness check: the continuation of an earlier
   * selection overwrites the image of a later one.
   */
  lemma StaleEncodingWins(s: UiState, f1: FileInfo, f2: FileInfo, img1: ImageUtils.Base64Image)
    requires StartsEncoding(Some(f1)) && StartsEncoding(Some(f2))
    ensures var t := ImageEncoded(ImageSelect(ImageSelect(s, Some(f1)), Some(f2)), Success(img1));
      t.imageFile == Some(f2) && t.processedImage == Some(img1)
  {
  }

  /** `handleToggleCamera`. */
  function ToggleCamera(s: UiState): (t: UiState)
    ensures DataCleared(t) && !t.showNextStepOptions
    ensures t.isCameraActive == !s.isCameraActive
    ensures !s.isCameraActive ==> !t.isStreamActiveAndReady
    ensures s.isCameraActive ==> t.isStreamActiveAndReady == s.isStreamActiveAndReady
    ensures t.streamHeld == s.streamHeld && t.apiKeyMissing == s.apiKeyMissing
  {
    var t := BaseClearState(s).(showNextStepOptions := false);
    if s.isCameraActive then t.(isCameraActive := false)
    else t.(isStreamActiveAndReady := false, isCameraActive := true)
  }

  /**
   * The message picked by the `catch` of `startCameraStream` (App.tsx:143-163),
   * given whether `cameraStreamRef.current` still holds a stream.
   */
  function CameraErrorMessage(err: CameraError, streamHeld: bool): (m: string)
    ensures m != ""
    ensures err.name == "NotAllowedError" ==> m == AccessDeniedMessage
    ensures err.name in {"NotFoundError", "DevicesNotFoundError"} ==> m == NoCameraMessage
    ensures err.name in {"NotReadableError", "TrackStartError"} ==> m == CameraInUseMessage
    ensures err.name == "AbortError" && !streamHeld ==> m == AbortedMessage
    ensures err.name == "SecurityError" ==> m == SecurityMessage
    ensures err.name !in KnownCameraErrors ==>
      m == if err.message != "" && !Includes(err.message, "play()") then OtherCameraErrorMessage(err.message)
           else if streamHeld then CameraDefaultMessage else InitFailedMessage
  {
    if err.name == "NotAllowedError" then AccessDeniedMessage
    else if err.name == "NotFoundError" || err.name == "DevicesNotFoundError" then NoCameraMessage
    else if err.name == "NotReadableError" || err.name == "TrackStartError" then CameraInUseMessage
    else if err.name == "AbortError" then AbortedMessage   // only used when no stream is held
    else if err.name == "SecurityError" then SecurityMessage
    else if err.message != "" && !Includes(err.message, "play()") then OtherCameraErrorMessage(err.message)
    else if !streamHeld then InitFailedMessage
    else CameraDefaultMessage
  }

  /** The error names the `catch` recognises. */
  const KnownCameraErrors: set<string> :=
    {"NotAllowedError", "NotFoundError", "DevicesNotFoundError", "NotReadableError",
     "TrackStartError", "AbortError", "SecurityError"}

  /**
   * Whether the `catch` sets the message and tears the camera down (App.tsx:165):
   * always when no stream is held; with a stream held, never for an abort (which
   * returns early, App.tsx:150-156) and only for an error whose message is set
   * and does not mention `play()`.
   */
  predicate ReportsCameraError(err: CameraError, streamHeld: bool): (r: bool)
    ensures !streamHeld ==> r
    ensures err.name == "AbortError" ==> (r <==> !streamHeld)
    ensures r && streamHeld ==> err.message != "" && !Includes(err.message, "play()")
  {
    !streamHeld || (err.name != "AbortError" && err.message != "" && !Includes(err.message, "play()"))
  }

  /** The `catch` block of `startCameraStream` (App.tsx:141-169). */
  function CameraCatch(s: UiState, err: CameraError): (t: UiState)
    ensures ReportsCameraError(err, s.streamHeld) ==>
      t == StopCameraStream(s.(error := Some(CameraErrorMessage(err, s.streamHeld)), isCameraActive := false))
    ensures !ReportsCameraError(err, s.streamHeld) ==> t == s
  {
    if ReportsCameraError(err, s.streamHeld) then
      StopCameraStream(s.(error := Some(CameraErrorMessage(err, s.streamHeld)), isCameraActive := false))
    else s
  }

  /**
   * With no stream held, every camera failure is reported: the message for
   * its name is set, the camera is deactivated and the stream stopped.
   */
  lemma ClassifierWithoutStream(s: UiState, err: CameraError)
    requires !s.streamHeld
    ensures var t := CameraCatch(s, err);
      && t.error == Some(CameraErrorMessage(err, false)) && t.error != Some(CameraDefaultMessage)
      && !t.isCameraActive && !t.streamHeld
      && t.(error := s.error, isCameraActive := s.isCameraActive) == s
  {
    assert CameraDefaultMessage[1] == 'o';
    assert AccessDeniedMessage[1] == 'a' && AbortedMessage[1] == 'a' && SecurityMessage[1] == 'a';
    assert NoCameraMessage[1] == 'o' && NoCameraMessage[0] == 'N';
    assert CameraInUseMessage[1] == 'a' && InitFailedMessage[1] == 'a';
    assert OtherCameraErrorMessage(err.message)[1] == 'a';
  }

  /**
   * With a stream still held, the failure changes nothing unless it is not an
   * abort and carries a message that does not mention `play()`; in particular
   * an abort returns without any state change.
   */
  lemma ClassifierWithStream(s: UiState, err: CameraError)
    requires s.streamHeld
    ensures err.name == "AbortError" ==> CameraCatch(s, err) == s
    ensures CameraCatch(s, err) != s <==>
      err.name != "AbortError" && err.message != "" && !Includes(err.message, "play()")
  {
    if err.name != "AbortError" && err.message != "" && !Includes(err.message, "play()") {
      assert CameraCatch(s, err).streamHeld == false;
    }
  }

  // The rendered view (App.tsx:340-447).

  /** The block under the display when the camera is on, or when it is off. */
  datatype Mode =
    | LiveCamera(cameraIssue: Option<string>, captureEnabled: bool)
    | Uploader(uploaderPreview: Option<string>, capturedPreview: Option<string>)

  /** What follows the display. */
  datatype Body =
    | NextStepChoices
    | Controls(mode: Mode, estimateButton: Option<bool>)   // the estimate button, and whether it is enabled
    | NoControls

  datatype Screen = Screen(keyNotice: bool, panel: CalorieDisplay.Panel, body: Body)

  function Layout(s: UiState): (v: Screen)
    ensures v.keyNotice == s.apiKeyMissing
    ensures v.panel == CalorieDisplay.Render(s.isLoading, s.error, s.calorieResult)
    ensures v.body == NextStepChoices <==> s.showNextStepOptions && Truthy(s.calorieResult) && !s.isLoading
    ensures v.body == NoControls <==> s.isLoading
    ensures v.body.Controls? ==> (v.body.mode.LiveCamera? <==> s.isCameraActive)
    ensures v.body.Controls? ==> (v.body.estimateButton.Some? <==> s.processedImage.Some?)
    ensures v.body.Controls? && v.body.estimateButton.Some? ==> (v.body.estimateButton.value <==> !s.apiKeyMissing)
    ensures v.body.Controls? && v.body.mode.LiveCamera? ==> (v.body.mode.captureEnabled <==> s.isStreamActiveAndReady)
    ensures v.body.Controls? && v.body.mode.LiveCamera? ==>
      (v.body.mode.cameraIssue.Some? <==> Truthy(s.error) && !s.isStreamActiveAndReady && !Truthy(s.calorieResult))
    ensures v.body.Controls? && v.body.mode.Uploader? ==>
      && (v.body.mode.uploaderPreview.Some? <==> s.imageFile.Some? && Truthy(s.previewUrl))
      && (v.body.mode.capturedPreview.Some? <==> s.imageFile.None? && Truthy(s.previewUrl))
  {
    var panel := CalorieDisplay.Render(s.isLoading, s.error, s.calorieResult);
    var body :=
      if s.showNextStepOptions && Truthy(s.calorieResult) && !s.isLoading then NextStepChoices
      else if !s.isLoading then
        var mode :=
          if s.isCameraActive then
            LiveCamera(
              if Truthy(s.error) && !s.isStreamActiveAndReady && !Truthy(s.calorieResult) then s.error else None,
              s.isStreamActiveAndReady)
          else
            Uploader(
              if s.imageFile.Some? && Truthy(s.previewUrl) then s.previewUrl else None,
              if Truthy(s.previewUrl) && s.imageFile.None? && !s.isCameraActive then s.previewUrl else None);
        Controls(mode, if s.processedImage.Some? && !s.isLoading then Some(!(s.isLoading || s.apiKeyMissing)) else None)
      else NoControls;
    Screen(s.apiKeyMissing, panel, body)
  }

  /**
   * Whether the `<video>` element, and so `videoRef.current`, is mounted: exactly
   * when the camera is on and neither the next-step choices nor the spinner replace it.
   */
  predicate VideoMounted(s: UiState): (r: bool)
    ensures r <==> s.isCameraActive && !s.isLoading && !(s.showNextStepOptions && Truthy(s.calorieResult))
  {
    var b := Layout(s).body;
    b.Controls? && b.mode.LiveCamera?
  }

  /** The uploaded-file preview and the captured preview are never shown together. */
  lemma OnePreviewAtATime(s: UiState)
    ensures var b := Layout(s).body;
      b.Controls? && b.mode.Uploader? ==> !(b.mode.uploaderPreview.Some? && b.mode.capturedPreview.Some?)
  {
  }

  // The camera's life cycle.

  /**
   * `startCameraStream` up to `await getUserMedia(...)`: the two guards, the
   * missing view (App.tsx:72-79) and the missing API (App.tsx:171-176).
   */
  function BeginCameraStream(s: UiState, hasMediaApi: bool): (t: UiState)
    ensures !t.isStreamActiveAndReady
    ensures !VideoMounted(s) ==> t == s.(isStreamActiveAndReady := false, error := Some(ViewNotReadyMessage), isCameraActive := false)
    ensures VideoMounted(s) && !hasMediaApi ==>
      t == s.(isStreamActiveAndReady := false, error := Some(ApiUnavailableMessage), isCameraActive := false)
    ensures VideoMounted(s) && hasMediaApi ==> t == s.(isStreamActiveAndReady := false)
  {
    var s1 := s.(isStreamActiveAndReady := false);
    if !VideoMounted(s) then s1.(error := Some(ViewNotReadyMessage), isCameraActive := false)
    else if !hasMediaApi then s1.(error := Some(ApiUnavailableMessage), isCameraActive := false)
    else s1
  }

  /** The end of `startCameraStream` once the stream plays (App.tsx:129-139): ready, and no error. */
  function StreamReady(s: UiState): (t: UiState)
    ensures t.isStreamActiveAndReady && t.error.None?
    ensures t.(isStreamActiveAndReady := s.isStreamActiveAndReady, error := s.error) == s
  {
    s.(isStreamActiveAndReady := true, error := None)
  }

  /**
   * `startCameraStream` from `await getUserMedia(...)` to its next await
   * (App.tsx:84-110): the stream is put in the ref, attached, and either
   * played directly or, when the video is paused, `play()` is awaited.
   */
  function StreamObtained(s: UiState, attempt: StreamAttempt): (t: UiState)
    ensures attempt.Refused? ==> t == CameraCatch(s, attempt.err)
    ensures attempt.AttachFailed? ==> t == CameraCatch(s.(streamHeld := true), attempt.err)
    ensures attempt == Attached(false) ==> t == s.(streamHeld := true, isStreamActiveAndReady := true, error := None)
    ensures attempt == Attached(true) ==> t == s.(streamHeld := true)
  {
    match attempt
    case Refused(err) => CameraCatch(s, err)
    case AttachFailed(err) => CameraCatch(s.(streamHeld := true), err)
    case Attached(paused) =>
      var held := s.(streamHeld := true);
      if paused then held else StreamReady(held)
  }

  /**
   * The continuation of `startCameraStream` after the awaited `play()`
   * (App.tsx:110-169): a rejection as not allowed or aborted stops the stream
   * before it is rethrown, and every rejection reaches the `catch`, which
   * reads the ref as it is now.
   */
  function PlaySettled(s: UiState, outcome: PlayOutcome): (t: UiState)
    ensures outcome.Played? ==> t == s.(isStreamActiveAndReady := true, error := None)
    ensures outcome.PlayFailed? && outcome.err.name in {"NotAllowedError", "AbortError"} ==>
      t == s.(isCameraActive := false, error := Some(CameraErrorMessage(outcome.err, false)), streamHeld := false)
    ensures outcome.PlayFailed? && outcome.err.name !in {"NotAllowedError", "AbortError"} ==>
      t == CameraCatch(s, outcome.err)
  {
    match outcome
    case Played => StreamReady(s)
    case PlayFailed(err) =>
      var afterPlay :=
        if err.name == "NotAllowedError" || err.name == "AbortError" then
          StopCameraStream(s.(error := Some(PlaybackPreventedMessage), isCameraActive := false))
        else s;
      CameraCatch(afterPlay, err)
  }

  /**
   * The playback message of the direct `play()` failure never survives: the
   * rethrown error reaches the `catch`, which finds no stream and replaces it
   * by the message for the error's name.
   */
  lemma PlaybackMessageReplaced(s: UiState, err: CameraError)
    requires err.name in {"NotAllowedError", "AbortError"}
    ensures var t := PlaySettled(s, PlayFailed(err));
      && t.error == Some(if err.name == "NotAllowedError" then AccessDeniedMessage else AbortedMessage)
      && t.error != Some(PlaybackPreventedMessage)
  {
    assert PlaybackPreventedMessage[7..13] == "playba";
    assert AccessDeniedMessage[7..13] == "access";
    assert AbortedMessage[7..13] == "access";
  }

  /** `onloadedmetadata`'s own `play()` rejected (App.tsx:98-103). */
  function LatePlayFailed(s: UiState): (t: UiState)
    ensures t == s.(error := Some(LatePlayFailedMessage), streamHeld := false, isCameraActive := false)
  {
    StopCameraStream(s.(error := Some(LatePlayFailedMessage))).(isCameraActive := false)
  }

  /** A video track's `onended` (App.tsx:130-135). */
  function TrackEnded(s: UiState): (t: UiState)
    ensures t == s.(error := Some(TrackEndedMessage), streamHeld := false, isCameraActive := false)
  {
    StopCameraStream(s.(error := Some(TrackEndedMessage))).(isCameraActive := false)
  }

  /**
   * The effect's cleanup (App.tsx:197-205), run before the effect runs again
   * because `isCameraActive` changed: it stops a held stream and clears
   * readiness if readiness was set in the render the effect last ran in.
   */
  function CameraEffectCleanup(s: UiState, readyAtLastRun: bool): (t: UiState)
    ensures !t.streamHeld
    ensures t.isStreamActiveAndReady == (s.isStreamActiveAndReady && !readyAtLastRun)
    ensures t.(streamHeld := s.streamHeld, isStreamActiveAndReady := s.isStreamActiveAndReady) == s
  {
    var s1 := if s.streamHeld then StopCameraStream(s) else s;
    if readyAtLastRun then s1.(isStreamActiveAndReady := false) else s1
  }

  /**
   * The effect on `isCameraActive` (App.tsx:179-195): with the camera off it
   * stops a held stream and clears readiness; with the camera on, no stream
   * and a mounted video element it calls `startCameraStream`.
   */
  function CameraEffect(s: UiState, hasMediaApi: bool): (t: UiState)
    ensures !s.isCameraActive ==> t == s.(streamHeld := false, isStreamActiveAndReady := false)
    ensures s.isCameraActive && !s.streamHeld && VideoMounted(s) ==> t == BeginCameraStream(s, hasMediaApi)
    ensures s.isCameraActive && (s.streamHeld || !VideoMounted(s)) ==> t == s
  {
    if s.isCameraActive then
      if !s.streamHeld && VideoMounted(s) then BeginCameraStream(s, hasMediaApi) else s
    else
      var s1 := if s.streamHeld then StopCameraStream(s) else s;
      if s.isStreamActiveAndReady then s1.(isStreamActiveAndReady := false) else s1
  }

  /** The commit after `isCameraActive` changed: the old effect's cleanup, then the effect. */
  function CameraFlagChanged(s: UiState, readyAtLastRun: bool, hasMediaApi: bool): (t: UiState)
    ensures !s.isCameraActive ==> t == s.(streamHeld := false, isStreamActiveAndReady := false)
    ensures s.isCameraActive && VideoMounted(s) ==>
      t == BeginCameraStream(CameraEffectCleanup(s, readyAtLastRun), hasMediaApi)
    ensures s.isCameraActive && VideoMounted(s) ==> !t.streamHeld && !t.isStreamActiveAndReady
  {
    CameraEffect(CameraEffectCleanup(s, readyAtLastRun), hasMediaApi)
  }

  /** Whether a flag change makes the component await a camera stream. */
  predicate AwaitsStream(s: UiState, hasMediaApi: bool) {
    s.isCameraActive && VideoMounted(s) && hasMediaApi
  }

  /** Switching the camera on starts a request when the API exists, and reports its absence otherwise. */
  lemma CameraOnStartsRequest(s: UiState, readyAtLastRun: bool, hasMediaApi: bool)
    requires !s.isCameraActive
    ensures var on := ToggleCamera(s);
      && VideoMounted(on)
      && CameraFlagChanged(on, readyAtLastRun, hasMediaApi) ==
         (if hasMediaApi then on.(streamHeld := false)
          else on.(streamHeld := false, error := Some(ApiUnavailableMessage), isCameraActive := false))
  {
  }

  /**
   * A stream that arrives after the camera was switched off finds no video
   * element; the failed attachment goes through the same `catch` (nothing
   * checks, after the await, whether the camera is still wanted). The error
   * a null element throws is a TypeError with a message not mentioning
   * `play()`, so what happens is the first case: the stream is stopped and a
   * camera error the user did not cause is shown. The second case, an error
   * without such a message leaving the stream held, is stated for
   * completeness; the program does not produce that input.
   */
  lemma LateStreamAfterCameraOff(s: UiState, readyAtLastRun: bool, hasMediaApi: bool, err: CameraError)
    requires AwaitsStream(s, hasMediaApi) && !s.streamHeld
    requires err.name !in KnownCameraErrors
    ensures var off := CameraFlagChanged(ToggleCamera(s), readyAtLastRun, hasMediaApi);
      var late := StreamObtained(off, AttachFailed(err));
      && !VideoMounted(off) && !off.isCameraActive && !late.isCameraActive
      && (err.message != "" && !Includes(err.message, "play()") ==>
            !late.streamHeld && late.error == Some(OtherCameraErrorMessage(err.message)))
      && (err.message == "" || Includes(err.message, "play()") ==> late.streamHeld && late.error.None?)
  {
  }

  /**
   * The stream is held while `play()` is pending, so switching the camera off
   * in that window stops it, and the `play()` that then settles still acts:
   * if it resolves, readiness is set with no stream and the camera off; if it
   * is aborted, the `catch` finds no stream and shows the aborted message.
   */
  lemma StopWhilePlayPending(s: UiState, readyAtLastRun: bool, hasMediaApi: bool, message: string)
    requires AwaitsStream(s, hasMediaApi) && !s.streamHeld
    ensures var pending := StreamObtained(s, Attached(true));
      var off := CameraFlagChanged(ToggleCamera(pending), readyAtLastRun, hasMediaApi);
      var played := PlaySettled(off, Played);
      var aborted := PlaySettled(off, PlayFailed(CameraError("AbortError", message)));
      && pending.streamHeld && !off.streamHeld && !off.isCameraActive
      && played.isStreamActiveAndReady && !played.streamHeld && !played.isCameraActive && !Consistent(played)
      && aborted.error == Some(AbortedMessage) && !aborted.isCameraActive
  {
  }

  /**
   * `handleCaptureAndProcess` (App.tsx:255-288), given the video's
   * dimensions, whether a 2D context exists and what `canvas.toDataURL`
   * returned; a data URL always holds a comma.
   */
  function CaptureAndProcess(s: UiState, videoWidth: nat, videoHeight: nat, hasContext: bool, dataUrl: string): (t: UiState)
    requires ',' in dataUrl
    ensures !CaptureReady(s, videoWidth, videoHeight) ==>
      t == s.(error := Some(if VideoMounted(s) && s.streamHeld && s.isStreamActiveAndReady
                            then ZeroDimensionsMessage else CaptureNotReadyMessage),
              isStreamActiveAndReady := false)
    ensures CaptureReady(s, videoWidth, videoHeight) && !hasContext ==>
      t == BaseClearState(s).(showNextStepOptions := false, error := Some(CanvasContextMessage))
    ensures CaptureReady(s, videoWidth, videoHeight) ==>
      && t.streamHeld && t.isStreamActiveAndReady && t.apiKeyMissing == s.apiKeyMissing
      && DataCleared(t.(processedImage := None, previewUrl := None, error := None))
      && !t.showNextStepOptions
  {
    if !VideoMounted(s) || !s.streamHeld || !s.isStreamActiveAndReady then
      s.(error := Some(CaptureNotReadyMessage), isStreamActiveAndReady := false)
    else if videoWidth == 0 || videoHeight == 0 then
      s.(error := Some(ZeroDimensionsMessage), isStreamActiveAndReady := false)
    else
      var s1 := BaseClearState(s).(showNextStepOptions := false);
      if !hasContext then s1.(error := Some(CanvasContextMessage))
      else
        var base64 := Split(dataUrl, ',')[1];
        s1.(processedImage := Some(ImageUtils.Base64Image(base64, "image/jpeg")),
            previewUrl := Some(dataUrl), imageFile := None, isCameraActive := false)
  }

  /** Whether the capture gets past its two guards. */
  predicate CaptureReady(s: UiState, videoWidth: nat, videoHeight: nat) {
    VideoMounted(s) && s.streamHeld && s.isStreamActiveAndReady && videoWidth != 0 && videoHeight != 0
  }

  /**
   * A successful capture stores a JPEG whose payload is the data URL's text
   * after its first comma up to the next one (all of the rest when there is
   * no other), shows the data URL as preview and leaves camera mode. The
   * payload is a comma-free prefix of that text that ends where the text
   * ends or at a comma.
   */
  lemma CaptureSuccess(s: UiState, w: nat, h: nat, dataUrl: string)
    requires ',' in dataUrl
    requires CaptureReady(s, w, h)
    ensures var t := CaptureAndProcess(s, w, h, true, dataUrl);
      var comma := IndexOfFrom(dataUrl, ',', 0);
      && comma.Some?
      && t.processedImage.Some? && t.processedImage.value.mimeType == "image/jpeg"
      && ',' !in t.processedImage.value.base64
      && StartsWith(dataUrl[comma.value + 1..], t.processedImage.value.base64)
      && (comma.value + 1 + |t.processedImage.value.base64| == |dataUrl|
          || dataUrl[comma.value + 1 + |t.processedImage.value.base64|] == ',')
      && (Count(dataUrl, ',') == 1 ==> t.processedImage.value.base64 == dataUrl[comma.value + 1..])
      && t.previewUrl == Some(dataUrl) && t.imageFile.None? && !t.isCameraActive
      && t.error.None? && t.calorieResult.None? && !t.showNextStepOptions && !t.isLoading
      && t.streamHeld == s.streamHeld && t.isStreamActiveAndReady == s.isStreamActiveAndReady
      && t.apiKeyMissing == s.apiKeyMissing
  {
    SplitSecondPiece(dataUrl, ',');
  }

  /**
   * A capture's image agrees with what the file path decodes from the same
   * JPEG data URL: the capture path and `fileToBase64` give one image.
   */
  lemma CaptureAgreesWithDecoder(s: UiState, w: nat, h: nat, payload: string)
    requires ',' !in payload
    requires CaptureReady(s, w, h)
    ensures var dataUrl := "data:" + "image/jpeg" + ";base64," + payload;
      && ',' in dataUrl
      && Success(CaptureAndProcess(s, w, h, true, dataUrl).processedImage.value)
         == ImageUtils.DecodeDataUrl(dataUrl)
  {
    var prefix := "data:" + "image/jpeg" + ";base64";
    assert "data:" + "image/jpeg" + ";base64," + payload == prefix + [','] + payload;
    assert ',' !in prefix;
    SplitTwoPieces(prefix, ',', payload);
    JpegTypeIsPlain();
    ImageUtils.RoundTrip("image/jpeg", payload);
  }

  /** The JPEG media type of a canvas capture holds no separator and no line terminator. */
  lemma JpegTypeIsPlain()
    ensures ';' !in "image/jpeg" && ',' !in "image/jpeg"
    ensures forall k :: 0 <= k < |"image/jpeg"| ==> !IsLineTerminator("image/jpeg"[k])
  {
  }

  // Estimation.

  /** Whether `handleEstimateCalories` gets past its two guards and calls the service. */
  predicate InvokesService(s: UiState) {
    s.processedImage.Some? && !s.apiKeyMissing
  }

  /** `handleEstimateCalories` up to the `await` (App.tsx:291-304). */
  function EstimateCalories(s: UiState): (t: UiState)
    ensures s.processedImage.None? ==> t == s.(error := Some(NoImageMessage))
    ensures s.processedImage.Some? && s.apiKeyMissing ==> t == s.(error := Some(KeyMissingMessage))
    ensures InvokesService(s) ==>
      t.isLoading && t.error.None? && t.calorieResult.None? && !t.showNextStepOptions
    ensures InvokesService(s) ==>
      t.(isLoading := s.isLoading, error := s.error, calorieResult := s.calorieResult,
         showNextStepOptions := s.showNextStepOptions) == s
  {
    if s.processedImage.None? then s.(error := Some(NoImageMessage))
    else if s.apiKeyMissing then s.(error := Some(KeyMissingMessage))
    else s.(isLoading := true, error := None, calorieResult := None, showNextStepOptions := false)
  }

  /** The continuation after the service settles (App.tsx:306-317); a failure carries the error's message. */
  function EstimateSettled(s: UiState, outcome: Result<string, string>): (t: UiState)
    ensures !t.isLoading
    ensures outcome.Success? ==>
      t.calorieResult == Some(outcome.value) && t.showNextStepOptions && t.error.None?
    ensures outcome.Failure? ==>
      && t.error == Some(if outcome.error == "" then GenericEstimateMessage else outcome.error)
      && !t.showNextStepOptions && t.calorieResult == s.calorieResult
    ensures t.(isLoading := s.isLoading, calorieResult := s.calorieResult, error := s.error,
               showNextStepOptions := s.showNextStepOptions) == s
  {
    match outcome
    case Success(text) =>
      s.(calorieResult := Some(text), showNextStepOptions := true, error := None, isLoading := false)
    case Failure(message) =>
      s.(error := Some(if message == "" then GenericEstimateMessage else message),
         showNextStepOptions := false, isLoading := false)
  }

  /**
   * The service's errors always carry a message, so the component shows that
   * message and never its own fallback, and shows a result only for text
   * that is not blank. The service reads its own key variable: the component
   * can pass its key check and still receive the service's key error.
   */
  lemma ServiceOutcomeShown(s: UiState, serviceKey: Option<string>, outcome: GeminiService.SdkOutcome)
    requires InvokesService(s)
    ensures var r := GeminiService.Estimate(serviceKey, outcome);
      var t := EstimateSettled(EstimateCalories(s), r);
      && (r.Failure? ==> t.error == Some(r.error) && !t.showNextStepOptions)
      && (r.Success? ==> t.calorieResult == Some(r.value) && !AllTrimmable(r.value) && t.showNextStepOptions)
      && (!Truthy(serviceKey) ==> t.error == Some(GeminiService.KeyMissingMessage))
  {
  }

  /** `clearCapturedImagePreview`: only a captured image (no file) is cleared. */
  function ClearCapturedImagePreview(s: UiState): (t: UiState)
    ensures s.imageFile.None? ==> t == BaseClearState(s).(showNextStepOptions := false)
    ensures s.imageFile.Some? ==> t == s
  {
    if s.imageFile.None? then BaseClearState(s).(showNextStepOptions := false) else s
  }

  /**
   * While an estimation is pending the spinner is shown and no estimate
   * button exists, so no second request can be triggered from the screen.
   */
  lemma NoEstimateWhilePending(s: UiState)
    requires InvokesService(s)
    ensures var v := Layout(EstimateCalories(s));
      v.panel == CalorieDisplay.Spinner && v.body == NoControls
  {
  }

  /**
   * A successful estimate with a non-empty text shows the result panel and
   * the two next-step choices in place of the controls.
   */
  lemma SuccessShowsResultAndChoices(s: UiState, text: string)
    requires InvokesService(s) && text != ""
    ensures var v := Layout(EstimateSettled(EstimateCalories(s), Success(text)));
      v.panel == CalorieDisplay.ResultPanel(text) && v.body == NextStepChoices
  {
  }

  /** A failed estimate shows its error, keeps no result and gives the controls back. */
  lemma FailureShowsError(s: UiState, message: string)
    requires InvokesService(s) && message != ""
    ensures var t := EstimateSettled(EstimateCalories(s), Failure(message));
      var v := Layout(t);
      v.panel == CalorieDisplay.ErrorPanel(message) && v.body.Controls? && v.body.estimateButton == Some(true)
  {
  }

  // Invariants.

  /** Relations between the record's fields that every handler keeps. */
  predicate Consistent(s: UiState) {
    && (s.isStreamActiveAndReady ==> s.streamHeld)
    && (s.showNextStepOptions ==> s.calorieResult.Some? && !s.isLoading)
  }

  lemma ImageHandlersKeepConsistency(s: UiState, file: Option<FileInfo>,
                                     r: Result<ImageUtils.Base64Image, ImageUtils.EncodeError>, preview: Option<string>)
    requires Consistent(s)
    ensures Consistent(Initial(s.apiKeyMissing))
    ensures Consistent(ResetForNewEstimation(s)) && Consistent(ClearCapturedImagePreview(s))
    ensures Consistent(ImageSelect(s, file)) && Consistent(ImageEncoded(s, r)) && Consistent(PreviewLoaded(s, preview))
  {
  }

  /**
   * The camera handlers keep consistency. An obtained stream does so when it
   * follows its own start, which cleared readiness, and a settled `play()`
   * when its stream is still held and not yet ready (`StopWhilePlayPending`
   * shows a stream stopped in between); the flag change does when it turns the camera on, which only the
   * toggle does, clearing readiness. A late playback failure and an ended
   * track stop the stream but leave readiness set until the effect on the
   * camera flag has run.
   */
  lemma CameraHandlersKeepConsistency(s: UiState, hasMediaApi: bool, attempt: StreamAttempt, outcome: PlayOutcome)
    requires Consistent(s)
    ensures Consistent(ToggleCamera(s)) && Consistent(BeginCameraStream(s, hasMediaApi))
    ensures !s.isStreamActiveAndReady ==> Consistent(StreamObtained(s, attempt))
    ensures s.streamHeld && !s.isStreamActiveAndReady ==> Consistent(PlaySettled(s, outcome))
  {
  }

  lemma CameraFlagChangeKeepsConsistency(s: UiState, readyAtLastRun: bool, hasMediaApi: bool)
    requires Consistent(s)
    ensures !(s.isCameraActive && s.isStreamActiveAndReady) ==> Consistent(CameraFlagChanged(s, readyAtLastRun, hasMediaApi))
  {
  }

  lemma StreamEndingRestoresConsistency(s: UiState, readyAtLastRun: bool, hasMediaApi: bool)
    requires Consistent(s) && s.isCameraActive
    ensures Consistent(CameraFlagChanged(LatePlayFailed(s), readyAtLastRun, hasMediaApi))
    ensures Consistent(CameraFlagChanged(TrackEnded(s), readyAtLastRun, hasMediaApi))
  {
  }

  /** The transient state after a track ends: no stream, but readiness still set. */
  lemma TrackEndedLeavesReadiness(s: UiState)
    requires s.isCameraActive && s.streamHeld && s.isStreamActiveAndReady
    ensures !Consistent(TrackEnded(s)) && !Consistent(LatePlayFailed(s))
  {
  }

  lemma CaptureKeepsConsistency(s: UiState, w: nat, h: nat, hasContext: bool, dataUrl: string)
    requires Consistent(s)
    requires ',' in dataUrl
    ensures Consistent(CaptureAndProcess(s, w, h, hasContext, dataUrl))
  {
  }

  lemma EstimationKeepsConsistency(s: UiState, outcome: Result<string, string>)
    requires Consistent(s)
    ensures Consistent(EstimateCalories(s)) && Consistent(EstimateSettled(s, outcome))
  {
  }

  /**
   * A record at rest: consistent, no stream without the camera, and no
   * readiness without it.
   */
  predicate AtRest(s: UiState) {
    && Consistent(s)
    && (s.streamHeld ==> s.isCameraActive)
    && (!s.isCameraActive ==> !s.isStreamActiveAndReady)
  }

  /**
   * Either next-step choice brings a record at rest back to the initial empty
   * phase, once the camera effect has run when the choice closed the camera.
   */
  lemma ResetReturnsToInitial(s: UiState, readyAtLastRun: bool, hasMediaApi: bool)
    requires AtRest(s)
    ensures var t := ResetForNewEstimation(s);
      (if s.isCameraActive then CameraFlagChanged(t, readyAtLastRun, hasMediaApi) else t) == Initial(s.apiKeyMissing)
  {
  }
}
