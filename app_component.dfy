/**
 * The `App` component as an object: its React state and `cameraStreamRef`
 * are fields, each handler is a method whose effect on them is the
 * transition of the same name in `AppState`, and the held stream is the
 * sequence of its tracks, which `stopCameraStream` stops one by one.
 */
module AppComponent {
  import opened Wrappers
  import opened JsString
  import S = AppState
  import ImageUtils

  /** A `MediaStreamTrack`, as far as the component uses it: live until stopped. */
  class Track {
    var live: bool

    constructor ()
      ensures live
    {
      live := true;
    }

    /** `track.stop()`. */
    method Stop()
      modifies this
      ensures !live
    {
      live := false;
    }
  }

  class App {
    var imageFile: Option<S.FileInfo>
    var processedImage: Option<ImageUtils.Base64Image>
    var previewUrl: Option<string>
    var calorieResult: Option<string>
    var isLoading: bool
    var error: Option<string>
    var apiKeyMissing: bool
    var isCameraActive: bool
    var isStreamActiveAndReady: bool
    var showNextStepOptions: bool
    /** `cameraStreamRef.current !== null`. */
    var streamHeld: bool
    /** The tracks of the stream in `cameraStreamRef.current`. */
    var tracks: seq<Track>

    /** The fields as the record the transitions work on. */
    function State(): S.UiState
      reads this
    {
      S.UiState(imageFile, processedImage, previewUrl, calorieResult, isLoading, error,
                apiKeyMissing, isCameraActive, isStreamActiveAndReady, showNextStepOptions, streamHeld)
    }

    /** Only a held stream has tracks. */
    ghost predicate Valid()
      reads this
    {
      !streamHeld ==> tracks == []
    }

    /** Mounting: the `useState` initial values, then the effect that checks the key (App.tsx:13-33). */
    constructor (apiKey: Option<string>)
      ensures Valid() && State() == S.Initial(S.KeyMissing(apiKey)) && tracks == []
    {
      imageFile, processedImage, previewUrl, calorieResult := None, None, None, None;
      isLoading, error, apiKeyMissing := false, None, false;
      isCameraActive, isStreamActiveAndReady, showNextStepOptions := false, false, false;
      streamHeld, tracks := false, [];
      if !Truthy(apiKey) {
        apiKeyMissing := true;
      }
    }

    method BaseClearState()
      modifies this
      ensures State() == S.BaseClearState(old(State())) && tracks == old(tracks)
    {
      previewUrl := None;
      processedImage := None;
      imageFile := None;
      calorieResult := None;
      error := None;
      isLoading := false;
    }

    method ResetForNewEstimation()
      requires Valid()
      modifies this
      ensures Valid() && State() == S.ResetForNewEstimation(old(State())) && tracks == old(tracks)
    {
      var cameraWasActive := isCameraActive;
      BaseClearState();
      showNextStepOptions := false;
      if cameraWasActive {
        isCameraActive := false;
      }
    }

    /** `stopCameraStream`: every track of the held stream is stopped and the ref cleared. */
    method StopCameraStream()
      requires Valid()
      modifies this, tracks
      ensures Valid() && State() == S.StopCameraStream(old(State())) && tracks == []
      ensures forall t :: t in old(tracks) ==> !t.live
    {
      if streamHeld {
        var i := 0;
        while i < |tracks|
          invariant 0 <= i <= |tracks|
          invariant forall k :: 0 <= k < i ==> !tracks[k].live
          modifies tracks
        {
          tracks[i].Stop();
          i := i + 1;
        }
        streamHeld := false;
        tracks := [];
      }
    }

    /** `handleImageSelect` up to the `await` (App.tsx:209-231). */
    method ImageSelect(file: Option<S.FileInfo>)
      requires Valid()
      modifies this
      ensures Valid() && State() == S.ImageSelect(old(State()), file) && tracks == old(tracks)
    {
      if isCameraActive {
        isCameraActive := false;
      }
      BaseClearState();
      showNextStepOptions := false;
      imageFile := file;
      if file.None? {
        return;
      }
      if !StartsWith(file.value.mediaType, "image/") {
        error := Some(S.InvalidImageMessage);
        return;
      }
    }

    /** The continuation of `handleImageSelect` (App.tsx:232-240). */
    method ImageEncoded(r: Result<ImageUtils.Base64Image, ImageUtils.EncodeError>)
      requires Valid()
      modifies this
      ensures Valid() && State() == S.ImageEncoded(old(State()), r) && tracks == old(tracks)
    {
      match r
      case Success(img) =>
        processedImage := Some(img);
      case Failure(_) =>
        error := Some(S.ProcessFailedMessage);
        previewUrl := None;
        processedImage := None;
    }

    /** The preview reader's `onloadend` (App.tsx:227-229). */
    method PreviewLoaded(result: Option<string>)
      requires Valid()
      modifies this
      ensures Valid() && State() == S.PreviewLoaded(old(State()), result) && tracks == old(tracks)
    {
      previewUrl := result;
    }

    method ToggleCamera()
      requires Valid()
      modifies this
      ensures Valid() && State() == S.ToggleCamera(old(State())) && tracks == old(tracks)
    {
      var cameraWasActive := isCameraActive;
      BaseClearState();
      showNextStepOptions := false;
      if cameraWasActive {
        isCameraActive := false;
      } else {
        isStreamActiveAndReady := false;
        isCameraActive := true;
      }
    }

    /** `startCameraStream` up to `await getUserMedia(...)` (App.tsx:72-81, 171-176). */
    method BeginCameraStream(hasMediaApi: bool)
      requires Valid()
      modifies this
      ensures Valid() && State() == S.BeginCameraStream(old(State()), hasMediaApi) && tracks == old(tracks)
    {
      var mounted := S.VideoMounted(State());
      isStreamActiveAndReady := false;
      if !mounted {
        error := Some(S.ViewNotReadyMessage);
        isCameraActive := false;
        return;
      }
      if !hasMediaApi {
        error := Some(S.ApiUnavailableMessage);
        isCameraActive := false;
      }
    }

    /** The `catch` of `startCameraStream` (App.tsx:141-169). */
    method CameraCatch(err: S.CameraError)
      requires Valid()
      modifies this, tracks
      ensures Valid() && State() == S.CameraCatch(old(State()), err)
      ensures streamHeld ==> tracks == old(tracks) && forall t :: t in tracks ==> t.live == old(t.live)
      ensures !streamHeld ==> tracks == [] && forall t :: t in old(tracks) ==> !t.live
    {
      var message := S.CameraErrorMessage(err, streamHeld);
      if S.ReportsCameraError(err, streamHeld) {
        error := Some(message);
        isCameraActive := false;
        StopCameraStream();
      }
    }

    /** `cameraStreamRef.current = stream` (App.tsx:86). */
    method HoldStream(newTracks: seq<Track>)
      modifies this
      ensures Valid() && State() == old(State()).(streamHeld := true) && tracks == newTracks
    {
      streamHeld, tracks := true, newTracks;
    }

    /** The direct `play()` rejected: the handler of App.tsx:110-118 before it rethrows. */
    method PlayRejected(err: S.CameraError)
      requires Valid()
      modifies this, tracks
      ensures Valid()
      ensures State() == (if err.name == "NotAllowedError" || err.name == "AbortError"
        then S.StopCameraStream(old(State()).(error := Some(S.PlaybackPreventedMessage), isCameraActive := false))
        else old(State()))
      ensures streamHeld ==> tracks == old(tracks) && forall t :: t in tracks ==> t.live == old(t.live)
      ensures !streamHeld ==> tracks == [] && forall t :: t in old(tracks) ==> !t.live
    {
      if err.name == "NotAllowedError" || err.name == "AbortError" {
        error := Some(S.PlaybackPreventedMessage);
        StopCameraStream();
        isCameraActive := false;
      }
    }

    /**
     * `startCameraStream` from `await getUserMedia(...)` to its next await
     * (App.tsx:84-110); `newTracks` are the tracks of the stream
     * `getUserMedia` returned, if it returned one. A new stream replaces the
     * one in the ref without stopping it.
     */
    method StreamObtained(attempt: S.StreamAttempt, newTracks: seq<Track>)
      requires Valid()
      modifies this, tracks, newTracks
      ensures Valid() && State() == S.StreamObtained(old(State()), attempt)
      ensures streamHeld ==> tracks == (if attempt.Refused? then old(tracks) else newTracks)
      ensures streamHeld ==> forall t :: t in tracks ==> t.live == old(t.live)
      ensures !streamHeld && attempt.Refused? ==> forall t :: t in old(tracks) ==> !t.live
      ensures attempt.Refused? ==> forall t :: t in newTracks && t !in old(tracks) ==> t.live == old(t.live)
      ensures !streamHeld && !attempt.Refused? ==> forall t :: t in newTracks ==> !t.live
      ensures !attempt.Refused? ==> forall t :: t in old(tracks) && t !in newTracks ==> t.live == old(t.live)
    {
      match attempt {
        case Refused(err) =>
          CameraCatch(err);
        case AttachFailed(err) =>
          HoldStream(newTracks);
          CameraCatch(err);
        case Attached(paused) =>
          HoldStream(newTracks);
          if !paused {
            isStreamActiveAndReady := true;
            error := None;
          }
      }
    }

    /** The continuation of `startCameraStream` after the awaited `play()` (App.tsx:110-169). */
    method PlaySettled(outcome: S.PlayOutcome)
      requires Valid()
      modifies this, tracks
      ensures Valid() && State() == S.PlaySettled(old(State()), outcome)
      ensures streamHeld ==> tracks == old(tracks) && forall t :: t in tracks ==> t.live == old(t.live)
      ensures !streamHeld ==> tracks == [] && forall t :: t in old(tracks) ==> !t.live
    {
      match outcome {
        case Played =>
          isStreamActiveAndReady := true;
          error := None;
        case PlayFailed(err) =>
          PlayRejected(err);
          CameraCatch(err);
      }
    }

    /** `onloadedmetadata`'s own `play()` rejected (App.tsx:98-103). */
    method LatePlayFailed()
      requires Valid()
      modifies this, tracks
      ensures Valid() && State() == S.LatePlayFailed(old(State()))
      ensures tracks == [] && forall t :: t in old(tracks) ==> !t.live
    {
      error := Some(S.LatePlayFailedMessage);
      StopCameraStream();
      isCameraActive := false;
    }

    /** A video track's `onended` (App.tsx:130-135). */
    method TrackEnded()
      requires Valid()
      modifies this, tracks
      ensures Valid() && State() == S.TrackEnded(old(State()))
      ensures tracks == [] && forall t :: t in old(tracks) ==> !t.live
    {
      error := Some(S.TrackEndedMessage);
      StopCameraStream();
      isCameraActive := false;
    }

    /** The camera effect's cleanup (App.tsx:197-205). */
    method CameraEffectCleanup(readyAtLastRun: bool)
      requires Valid()
      modifies this, tracks
      ensures Valid() && State() == S.CameraEffectCleanup(old(State()), readyAtLastRun)
      ensures tracks == [] && forall t :: t in old(tracks) ==> !t.live
    {
      if streamHeld {
        StopCameraStream();
      }
      if readyAtLastRun {
        isStreamActiveAndReady := false;
      }
    }

    /** The camera effect (App.tsx:179-195). */
    method CameraEffect(hasMediaApi: bool)
      requires Valid()
      modifies this, tracks
      ensures Valid() && State() == S.CameraEffect(old(State()), hasMediaApi)
      ensures streamHeld ==> tracks == old(tracks) && forall t :: t in tracks ==> t.live == old(t.live)
      ensures !streamHeld ==> tracks == [] && forall t :: t in old(tracks) ==> !t.live
    {
      if isCameraActive {
        if !streamHeld && S.VideoMounted(State()) {
          BeginCameraStream(hasMediaApi);
        }
      } else {
        if streamHeld {
          StopCameraStream();
        }
        if isStreamActiveAndReady {
          isStreamActiveAndReady := false;
        }
      }
    }

    /** The commit after `isCameraActive` changed: the old effect's cleanup, then the effect. */
    method CameraFlagChanged(readyAtLastRun: bool, hasMediaApi: bool)
      requires Valid()
      modifies this, tracks
      ensures Valid() && State() == S.CameraFlagChanged(old(State()), readyAtLastRun, hasMediaApi)
      ensures tracks == [] && forall t :: t in old(tracks) ==> !t.live
    {
      CameraEffectCleanup(readyAtLastRun);
      CameraEffect(hasMediaApi);
    }

    /** `handleCaptureAndProcess` (App.tsx:255-288). */
    method CaptureAndProcess(videoWidth: nat, videoHeight: nat, hasContext: bool, dataUrl: string)
      requires Valid()
      requires ',' in dataUrl
      modifies this
      ensures Valid() && State() == S.CaptureAndProcess(old(State()), videoWidth, videoHeight, hasContext, dataUrl)
      ensures tracks == old(tracks)
    {
      if !S.VideoMounted(State()) || !streamHeld || !isStreamActiveAndReady {
        error := Some(S.CaptureNotReadyMessage);
        isStreamActiveAndReady := false;
        return;
      }
      if videoWidth == 0 || videoHeight == 0 {
        error := Some(S.ZeroDimensionsMessage);
        isStreamActiveAndReady := false;
        return;
      }
      BaseClearState();
      showNextStepOptions := false;
      if !hasContext {
        error := Some(S.CanvasContextMessage);
        return;
      }
      var base64 := Split(dataUrl, ',')[1];
      processedImage := Some(ImageUtils.Base64Image(base64, "image/jpeg"));
      previewUrl := Some(dataUrl);
      imageFile := None;
      isCameraActive := false;
    }

    /** `handleEstimateCalories` up to the `await` (App.tsx:291-304). */
    method EstimateCalories()
      requires Valid()
      modifies this
      ensures Valid() && State() == S.EstimateCalories(old(State())) && tracks == old(tracks)
    {
      if processedImage.None? {
        error := Some(S.NoImageMessage);
        return;
      }
      if apiKeyMissing {
        error := Some(S.KeyMissingMessage);
        return;
      }
      isLoading := true;
      error := None;
      calorieResult := None;
      showNextStepOptions := false;
    }

    /** The continuation of `handleEstimateCalories` (App.tsx:306-317). */
    method EstimateSettled(outcome: Result<string, string>)
      requires Valid()
      modifies this
      ensures Valid() && State() == S.EstimateSettled(old(State()), outcome) && tracks == old(tracks)
    {
      match outcome {
        case Success(text) =>
          calorieResult := Some(text);
          showNextStepOptions := true;
          error := None;
        case Failure(message) =>
          error := Some(if message == "" then S.GenericEstimateMessage else message);
          showNextStepOptions := false;
      }
      isLoading := false;   // the `finally` block
    }

    method ClearCapturedImagePreview()
      requires Valid()
      modifies this
      ensures Valid() && State() == S.ClearCapturedImagePreview(old(State())) && tracks == old(tracks)
    {
      if imageFile.None? {
        BaseClearState();
        showNextStepOptions := false;
      }
    }
  }

  /**
   * With no staleness check, two camera requests can be in flight: switching
   * the camera on, off and on again before the first `getUserMedia` answers
   * starts a second request, and when both streams arrive the second replaces
   * the first in the ref without stopping it, so the first stream's track
   * stays live with nothing left to stop it.
   */
  method DoubleRequestLeaks() returns (app: App, first: Track)
    ensures app.Valid() && app.streamHeld && app.isCameraActive
    ensures first.live && first !in app.tracks
  {
    app := new App(Some("key"));
    app.ToggleCamera();
    app.CameraFlagChanged(false, true);   // the first request is awaited
    app.ToggleCamera();
    app.CameraFlagChanged(false, true);   // nothing held, nothing to stop
    app.ToggleCamera();
    app.CameraFlagChanged(false, true);   // the second request is awaited
    first := new Track();
    app.StreamObtained(S.Attached(false), [first]);
    var second := new Track();
    app.StreamObtained(S.Attached(false), [second]);
  }
}
