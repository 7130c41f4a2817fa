/** The booth's state and its operations, as the `App` component holds them:
    every `useState` slot is a field, the two hidden canvases are fixed
    `Canvas` objects, and each handler is a method. React's batching of
    state updates is not modelled: a setter takes effect where it is called.
    What the browser decides (whether camera access is granted, whether a
    capture yields a picture, the order in which images finish loading, when
    the user presses "new photoshoot") is passed in as a parameter. */
module App {
  import opened Types
  import opened Constants
  import opened Canvas2D
  import opened Layout
  import opened Timeline
  import opened ExportFilter
  import opened FrameCapture
  import opened LayoutSteps
  import opened CameraRequests
  import Studio

  const CAMERA_UNAVAILABLE: string := "Kamera nem elérhető. Engedélyezd a böngésződben!"
  const CAPTURE_FAILED: string := "Nem sikerült képet készíteni."
  const IDEAL_WIDTH: nat := 1280
  const IDEAL_HEIGHT: nat := 720

  /** The video constraints of one `getUserMedia` call. */
  datatype MediaRequest = MediaRequest(facingMode: string, idealWidth: nat, idealHeight: nat)

  /** The settings and the camera bookkeeping a photo session leaves alone. */
  datatype Controls = Controls(
    layout: LayoutType, countdown: int, front: bool, flash: bool,
    cameraActive: bool, stream: Option<StreamId>,
    granted: seq<StreamId>, stopped: seq<StreamId>, requests: seq<MediaRequest>)

  /** A file handed to the platform by download or share. */
  datatype ExportFile = ExportFile(name: string, image: Raster)

  /** How far a share gets before `navigator.share` takes over. */
  datatype ShareAttempt = NotShared | ProcessingFailed | ReadyToShare(file: ExportFile)

  /** The facing mode requested for the front or the back camera. */
  function FacingMode(front: bool): (m: string)
    ensures m == "user" || m == "environment"
    ensures (m == "user") <==> front
  {
    if front then "user" else "environment"
  }

  /** The picture download and share export from a composition `image` whose
      canvas is `width`×`height`: the image drawn at its natural size, at the
      origin, under the filter the selected effect maps to. */
  function ExportImage(image: Raster, width: nat, height: nat, filter: FilterType): Raster
  {
    Raster(width, height, [Draw(Decoded(image), Rect(0, 0, image.width, image.height), Identity, ExportCss(filter))])
  }

  /** The file download and share produce at time `now`. */
  function Exported(image: Raster, width: nat, height: nat, filter: FilterType, now: nat): ExportFile
  {
    ExportFile(FileName(now), ExportImage(image, width, height, filter))
  }

  /** What one capture yields when the video is `video`, the capture canvas,
      its context and the camera are all there exactly when `ready`, and the
      front camera is in use exactly when `front`. */
  function Shoot(video: Option<Video>, ready: bool, front: bool): (r: Option<Raster>)
    ensures r.Some? <==> ready && video.Some?
    ensures r.Some? ==> r.value.width == video.value.videoWidth && r.value.height == video.value.videoHeight
  {
    if ready && video.Some? then Some(Still(video.value, front)) else None
  }

  /** The outcomes of capturing from each of `videos` in turn. */
  function Outcomes(videos: seq<Option<Video>>, ready: bool, front: bool): (r: seq<Option<Raster>>)
    ensures |r| == |videos|
    ensures forall k :: 0 <= k < |videos| ==> r[k] == Shoot(videos[k], ready, front)
  {
    seq(|videos|, k requires 0 <= k < |videos| => Shoot(videos[k], ready, front))
  }

  /** Whether "new photoshoot" was pressed during one of the first `n` shots. */
  function ResetBefore(resets: set<nat>, n: nat): (r: bool)
    ensures r <==> exists j :: j in resets && j < n
  {
    n > 0 && (n - 1 in resets || ResetBefore(resets, n - 1))
  }

  /** The last shot among the first `n` during which "new photoshoot" was pressed, or 0. */
  function LastReset(resets: set<nat>, n: nat): (r: nat)
    ensures r <= n && (n > 0 ==> r < n)
    ensures ResetBefore(resets, n) ==> r in resets && forall j :: r < j < n ==> j !in resets
    ensures !ResetBefore(resets, n) ==> r == 0
  {
    if n == 0 then 0 else if n - 1 in resets then n - 1 else LastReset(resets, n - 1)
  }

  /** How the photos kept since the last reset grow with shot `i`. */
  lemma KeptStep(outs: seq<Option<Raster>>, resets: set<nat>, i: nat)
    requires i < |outs|
    ensures Photos(outs[LastReset(resets, i + 1)..i + 1]) ==
              (if i in resets then [] else Photos(outs[LastReset(resets, i)..i])) +
              (if outs[i].Some? then [outs[i].value] else [])
  {
    var l := LastReset(resets, i + 1);
    var piece := outs[l..i + 1];
    assert piece[..|piece| - 1] == outs[l..i];
    assert piece[|piece| - 1] == outs[i];
    if i in resets {
      assert outs[l..i] == [];
    }
  }

  /** The last capture attempted succeeds exactly when every capture does. */
  lemma LastAttempted(outs: seq<Option<Raster>>)
    requires outs != []
    ensures outs[Attempted(outs) - 1].Some? <==> AllCaptured(outs)
  {
  }

  /** The part of the booth's state a photo session writes (all but the countdown display). */
  datatype Record = Record(
    timeline: seq<Step>, captured: seq<Raster>, composedImage: Option<Raster>,
    selectedFilter: FilterType, isTakingPhoto: bool, photoError: Option<string>, isComposing: bool)

  /** That part after the state writes of `handleNewPhotoshoot`. */
  function Cleared(r: Record): (c: Record)
    ensures c.timeline == r.timeline
  {
    r.(captured := [], composedImage := None, selectedFilter := Original,
       isTakingPhoto := false, photoError := None, isComposing := false)
  }

  /** The record when a shot with countdown `d` reaches its capture, with
      "new photoshoot" pressed during the countdown exactly when `reset`. */
  function Prepared(r: Record, d: int, flash: bool, reset: bool): Record
  {
    (if reset then Cleared(r) else r).(timeline := r.timeline + Prelude(d, flash))
  }

  /** The record after the capture of shot `i` gave `photo`: the photo is
      kept and the pause follows, or the failure is reported. */
  function Recorded(r: Record, i: nat, photo: Option<Raster>): Record
  {
    r.(timeline := r.timeline + [Capture(photo)] + (if photo.Some? then Pause(i) else []),
       captured := r.captured + (if photo.Some? then [photo.value] else []),
       isTakingPhoto := r.isTakingPhoto && photo.Some?,
       photoError := if photo.Some? then r.photoError else Some(CAPTURE_FAILED))
  }

  /** The record after shot `i`. */
  function AfterShot(r: Record, i: nat, d: int, flash: bool, reset: bool, photo: Option<Raster>): (a: Record)
    ensures a.timeline == r.timeline + Turn(d, flash, i, photo)
  {
    var a := Recorded(Prepared(r, d, flash, reset), i, photo);
    assert a.timeline == r.timeline + Turn(d, flash, i, photo);
    a
  }

  /** The record after the first `n` shots of a session that began at `r0`. */
  function ShotsTaken(r0: Record, outs: seq<Option<Raster>>, resets: set<nat>, n: nat, d: int, flash: bool): Record
    requires n <= |outs|
  {
    if n == 0 then r0
    else AfterShot(ShotsTaken(r0, outs, resets, n - 1, d, flash), n - 1, d, flash, n - 1 in resets, outs[n - 1])
  }

  /** One pass of the session loop, on values: shot `i`, attempted because
      every earlier capture succeeded, extends the record, the photos kept so
      far, and decides whether the loop goes on. */
  lemma ShotsTakenNext(r0: Record, outs: seq<Option<Raster>>, resets: set<nat>, i: nat, d: int, flash: bool,
                       photos: seq<Raster>, r: Record)
    requires outs != [] && i < Attempted(outs)
    requires photos == Photos(outs[..i])
    requires r == AfterShot(ShotsTaken(r0, outs, resets, i, d, flash), i, d, flash, i in resets, outs[i])
    ensures r == ShotsTaken(r0, outs, resets, i + 1, d, flash)
    ensures photos + (if outs[i].Some? then [outs[i].value] else []) == Photos(outs[..i + 1])
    ensures outs[i].Some? <==> i + 1 < Attempted(outs) || AllCaptured(outs)
  {
    assert outs[..i + 1][..i] == outs[..i];
    LastAttempted(outs);
  }

  /** The timeline after the first `n` shots: their countdowns, shutters,
      captures and pauses, in order. */
  lemma {:induction false} ShotsTakenTimeline(r0: Record, outs: seq<Option<Raster>>, resets: set<nat>, n: nat, d: int, flash: bool)
    requires n <= |outs|
    ensures ShotsTaken(r0, outs, resets, n, d, flash).timeline == r0.timeline + Shots(d, flash, outs[..n])
  {
    if n == 0 {
      assert outs[..0] == [];
    } else {
      ShotsTakenTimeline(r0, outs, resets, n - 1, d, flash);
      assert outs[..n][..n - 1] == outs[..n - 1];
    }
  }

  /** One more shot keeps its photo, after the reset's clearing if there was one. */
  lemma CapturedNext(r0: Record, outs: seq<Option<Raster>>, resets: set<nat>, i: nat, d: int, flash: bool)
    requires i < |outs|
    ensures ShotsTaken(r0, outs, resets, i + 1, d, flash).captured ==
              (if i in resets then [] else ShotsTaken(r0, outs, resets, i, d, flash).captured) +
              (if outs[i].Some? then [outs[i].value] else [])
  {
  }

  /** The photos kept after the first `n` shots are those taken since the last reset. */
  lemma {:induction false} ShotsTakenCaptured(r0: Record, outs: seq<Option<Raster>>, resets: set<nat>, n: nat, d: int, flash: bool)
    requires n <= |outs| && r0.captured == []
    ensures ShotsTaken(r0, outs, resets, n, d, flash).captured == Photos(outs[LastReset(resets, n)..n])
  {
    if n == 0 {
      assert outs[0..0] == [];
    } else {
      var i := n - 1;
      ShotsTakenCaptured(r0, outs, resets, i, d, flash);
      KeptStep(outs, resets, i);
      CapturedNext(r0, outs, resets, i, d, flash);
      var kept := if outs[i].Some? then [outs[i].value] else [];
      var before := ShotsTaken(r0, outs, resets, i, d, flash).captured;
      assert before == Photos(outs[LastReset(resets, i)..i]);
      assert ShotsTaken(r0, outs, resets, n, d, flash).captured == (if i in resets then [] else before) + kept;
    }
  }

  /** After the first `n` shots, when every capture before the last of them
      succeeded: the session is still marked running and error-free exactly
      when the last capture succeeded and no reset came; a reset clears the
      effect and the composing flag; nothing is composed yet. */
  lemma {:induction false} ShotsTakenFlags(r0: Record, outs: seq<Option<Raster>>, resets: set<nat>, n: nat, d: int, flash: bool)
    requires n <= |outs|
    requires r0.isTakingPhoto && r0.composedImage == None && r0.photoError == None
    requires forall k :: 0 <= k < n - 1 ==> outs[k].Some?
    ensures var r := ShotsTaken(r0, outs, resets, n, d, flash);
            var ok := n == 0 || outs[n - 1].Some?;
            r.composedImage == None &&
            r.selectedFilter == (if ResetBefore(resets, n) then Original else r0.selectedFilter) &&
            r.isComposing == (r0.isComposing && !ResetBefore(resets, n)) &&
            r.isTakingPhoto == (ok && !ResetBefore(resets, n)) &&
            r.photoError == (if ok then None else Some(CAPTURE_FAILED))
  {
    if n > 0 {
      ShotsTakenFlags(r0, outs, resets, n - 1, d, flash);
    }
  }

  /** The state writes `startPhotoSession` makes before its first shot. */
  function Started(r: Record): Record
  {
    r.(isTakingPhoto := true, captured := [], composedImage := None, photoError := None)
  }

  /** The record after `composeFinalImage`: untouched but for the composing
      flag when there is no canvas or context (`ready` false); otherwise the
      published picture, if the last photo loaded, and composing until then. */
  function Composed(r: Record, photos: seq<Raster>, layout: LayoutType, order: seq<nat>, ready: bool): Record
    requires LoadOrder(order, |photos|)
  {
    if !ready then r.(isComposing := false)
    else
      r.(composedImage := PublishedOr(photos, layout, order, r.composedImage),
         isComposing := Published(photos, layout, order).None?)
  }

  /** The record after a whole session that started at `r` and whose captures gave `outs`. */
  function SessionRecord(r: Record, outs: seq<Option<Raster>>, resets: set<nat>, d: int, flash: bool,
                         layout: LayoutType, order: seq<nat>, ready: bool): Record
    requires outs != [] && LoadOrder(order, |outs|)
  {
    Concluded(ShotsTaken(Started(r), outs, resets, Attempted(outs), d, flash), outs, layout, order, ready)
  }

  /** The record after the shots `outs`, starting from `s`: the session ends,
      and when every capture succeeded its photos are composed. */
  function Concluded(s: Record, outs: seq<Option<Raster>>, layout: LayoutType, order: seq<nat>, ready: bool): Record
    requires LoadOrder(order, |outs|)
  {
    if AllCaptured(outs) then
      Composed(s.(isTakingPhoto := false, timeline := s.timeline + [Compose(Photos(outs), layout)]),
               Photos(outs), layout, order, ready)
    else s
  }

  /** The fields a session's compose step leaves alone. */
  lemma ComposedKeeps(r: Record, photos: seq<Raster>, layout: LayoutType, order: seq<nat>, ready: bool)
    requires LoadOrder(order, |photos|)
    ensures var c := Composed(r, photos, layout, order, ready);
            c.timeline == r.timeline && c.captured == r.captured && c.isTakingPhoto == r.isTakingPhoto &&
            c.photoError == r.photoError && c.selectedFilter == r.selectedFilter
  {
  }

  /** The end of a session adds the compose step to the timeline exactly
      when every capture succeeded. */
  lemma ConcludedTimeline(s: Record, outs: seq<Option<Raster>>, layout: LayoutType, order: seq<nat>, ready: bool)
    requires LoadOrder(order, |outs|)
    ensures Concluded(s, outs, layout, order, ready).timeline ==
            s.timeline + (if AllCaptured(outs) then [Compose(Photos(outs), layout)] else [])
  {
    if AllCaptured(outs) {
      ComposedKeeps(s.(isTakingPhoto := false, timeline := s.timeline + [Compose(Photos(outs), layout)]),
                    Photos(outs), layout, order, ready);
    } else {
      assert s.timeline + [] == s.timeline;
    }
  }

  /** A session's timeline is the one `Session` describes. */
  lemma SessionTimeline(r: Record, outs: seq<Option<Raster>>, resets: set<nat>, d: int, flash: bool,
                        layout: LayoutType, order: seq<nat>, ready: bool)
    requires outs != [] && LoadOrder(order, |outs|)
    ensures SessionRecord(r, outs, resets, d, flash, layout, order, ready).timeline == r.timeline + Session(d, flash, layout, outs)
  {
    var n := Attempted(outs);
    var t := ShotsTaken(Started(r), outs, resets, n, d, flash);
    var sh := Shots(d, flash, outs[..n]);
    var c: seq<Step> := if AllCaptured(outs) then [Compose(Photos(outs), layout)] else [];
    ShotsTakenTimeline(Started(r), outs, resets, n, d, flash);
    ConcludedTimeline(t, outs, layout, order, ready);
    assert t.timeline == r.timeline + sh;
    assert (r.timeline + sh) + c == r.timeline + (sh + c);
  }

  /** What every session leaves behind besides its timeline: no session
      running; the photos taken since the last reset; the failure message
      exactly when a capture failed; the effect reset to the original exactly
      when "new photoshoot" was pressed. */
  lemma SessionOutcome(r: Record, outs: seq<Option<Raster>>, resets: set<nat>, d: int, flash: bool,
                       layout: LayoutType, order: seq<nat>, ready: bool)
    requires outs != [] && LoadOrder(order, |outs|)
    ensures var s := SessionRecord(r, outs, resets, d, flash, layout, order, ready);
            var n := Attempted(outs);
            !s.isTakingPhoto &&
            s.captured == Photos(outs[LastReset(resets, n)..n]) &&
            s.photoError == (if AllCaptured(outs) then None else Some(CAPTURE_FAILED)) &&
            s.selectedFilter == (if ResetBefore(resets, n) then Original else r.selectedFilter)
  {
    var n := Attempted(outs);
    var r0 := Started(r);
    var t := ShotsTaken(r0, outs, resets, n, d, flash);
    ShotsTakenCaptured(r0, outs, resets, n, d, flash);
    ShotsTakenFlags(r0, outs, resets, n, d, flash);
    LastAttempted(outs);
    if AllCaptured(outs) {
      var c := [Compose(Photos(outs), layout)];
      ComposedKeeps(t.(isTakingPhoto := false, timeline := t.timeline + c), Photos(outs), layout, order, ready);
    }
  }

  /** A session with a failed capture publishes nothing and leaves the
      composing flag as it was, unless "new photoshoot" cleared it. */
  lemma FailedSessionPublishesNothing(r: Record, outs: seq<Option<Raster>>, resets: set<nat>, d: int, flash: bool,
                                      layout: LayoutType, order: seq<nat>, ready: bool)
    requires outs != [] && LoadOrder(order, |outs|) && !AllCaptured(outs)
    ensures var s := SessionRecord(r, outs, resets, d, flash, layout, order, ready);
            s.composedImage == None && s.isComposing == (r.isComposing && !ResetBefore(resets, Attempted(outs)))
  {
    ShotsTakenFlags(Started(r), outs, resets, Attempted(outs), d, flash);
  }

  /** A session whose captures all succeed ends with the picture the
      compositor publishes from them: none without a canvas or context, or
      while the last photo has not loaded. */
  lemma CompleteSessionPublishes(r: Record, outs: seq<Option<Raster>>, resets: set<nat>, d: int, flash: bool,
                                 layout: LayoutType, order: seq<nat>, ready: bool)
    requires outs != [] && LoadOrder(order, |outs|) && AllCaptured(outs)
    ensures |Photos(outs)| == |outs|
    ensures var s := SessionRecord(r, outs, resets, d, flash, layout, order, ready);
            s.composedImage == (if ready then Published(Photos(outs), layout, order) else None) &&
            s.isComposing == (ready && Published(Photos(outs), layout, order).None?)
  {
    AttemptedAll(outs);
    ShotsTakenFlags(Started(r), outs, resets, Attempted(outs), d, flash);
  }

  /** A session whose first capture fails leaves the studio's thumbnail panel hidden. */
  lemma UnreadySessionHidesPanel(r: Record, videos: seq<Option<Video>>, front: bool, resets: set<nat>, d: int, flash: bool,
                                 layout: LayoutType, order: seq<nat>, ready: bool)
    requires videos != [] && LoadOrder(order, |videos|)
    ensures !Studio.PanelShown(|SessionRecord(r, Outcomes(videos, false, front), resets, d, flash, layout, order, ready).captured|)
  {
    UnreadySessionFailsAtOnce(r, videos, front, resets, d, flash, layout, order, ready);
  }

  /** A session started while a capture cannot produce a picture (no capture
      canvas, no context, or the camera gone) fails at its first capture: it
      shows one countdown, keeps no photo, reports the failure and composes nothing. */
  lemma UnreadySessionFailsAtOnce(r: Record, videos: seq<Option<Video>>, front: bool, resets: set<nat>, d: int, flash: bool,
                                  layout: LayoutType, order: seq<nat>, ready: bool)
    requires videos != [] && LoadOrder(order, |videos|)
    ensures var s := SessionRecord(r, Outcomes(videos, false, front), resets, d, flash, layout, order, ready);
            s.timeline == r.timeline + Shot(d, flash, None) &&
            s.captured == [] && s.photoError == Some(CAPTURE_FAILED) && s.composedImage == None
  {
    var outs := Outcomes(videos, false, front);
    var s := SessionRecord(r, outs, resets, d, flash, layout, order, ready);
    assert outs[0] == None;
    assert Attempted(outs) == 1 && !AllCaptured(outs) by {
      AttemptedUpToFailure(outs, 0);
    }
    assert s.timeline == r.timeline + Shot(d, flash, None) by {
      SessionTimeline(r, outs, resets, d, flash, layout, order, ready);
      FailedSessionSteps(d, flash, layout, outs, 0);
      assert Shots(d, flash, outs[..0]) == [];
    }
    assert s.captured == [] && s.photoError == Some(CAPTURE_FAILED) by {
      SessionOutcome(r, outs, resets, d, flash, layout, order, ready);
      assert outs[LastReset(resets, 1)..1] == [None];
    }
    FailedSessionPublishesNothing(r, outs, resets, d, flash, layout, order, ready);
  }

  /** The filter step of `handleDownload` and `handleShare`: looks up the
      selected effect and, when its class is not empty, sets the canvas's
      filter to the mapped class. */
  method ApplyExportFilter(temp: Canvas, selected: FilterType)
    requires temp.filter == "none"
    modifies temp`filter
    ensures temp.filter == ExportCss(selected)
  {
    var entry := FindFilter(FILTER_OPTIONS, selected);
    if entry.Some? && entry.value.className != "" {
      temp.SetFilter(CssFilterValue(entry.value.className));
    }
    ExportCssLookup(selected);
  }

  /** The temporary canvas of `handleDownload` and `handleShare`: a fresh
      canvas sized `width`×`height` like the composition canvas which, when
      it yields a context, is given the selected effect's filter and has
      `image` drawn on it at its natural size. Its snapshot, if it was painted. */
  method PaintExport(image: Raster, width: nat, height: nat, selected: FilterType, tempHasContext: bool)
    returns (shot: Option<Raster>)
    ensures shot.Some? <==> tempHasContext
    ensures shot.Some? ==> shot.value == ExportImage(image, width, height, selected)
  {
    var temp := new Canvas(tempHasContext);
    temp.SetWidth(width);
    temp.SetHeight(height);
    if !tempHasContext {
      return None;
    }
    ApplyExportFilter(temp, selected);
    var draw := Draw(Decoded(image), Rect(0, 0, image.width, image.height), Identity, ExportCss(selected));
    temp.DrawImage(Decoded(image), Rect(0, 0, image.width, image.height));
    assert temp.paints == [draw];
    shot := Some(temp.Snapshot());
  }

  /** The drawing half of `captureFrame` on a canvas freshly sized to the
      video: the flip for the front camera, then the frame over the whole
      bitmap. The still is the canvas's snapshot. */
  method PaintStill(canvas: Canvas, v: Video, mirror: bool) returns (still: Raster)
    requires canvas.width == v.videoWidth && canvas.height == v.videoHeight && canvas.Cleared()
    modifies canvas
    ensures still == Still(v, mirror) && still == canvas.Snapshot()
  {
    if mirror {
      canvas.Translate(canvas.width, 0);
      canvas.Scale(-1, 1);
    }
    assert canvas.transform == CaptureTransform(v.videoWidth, mirror);
    canvas.DrawImage(VideoFrame(v.frame), Rect(0, 0, canvas.width, canvas.height));
    assert canvas.paints == [Draw(VideoFrame(v.frame), Rect(0, 0, v.videoWidth, v.videoHeight),
                                  CaptureTransform(v.videoWidth, mirror), "none")];
    still := canvas.Snapshot();
  }

  class Booth {
    var selectedLayout: LayoutType
    var countdownDuration: int
    var useFrontCamera: bool
    var isFlashOn: bool
    /** `capturedIndividualPhotos`. */
    var captured: seq<Raster>
    var composedImage: Option<Raster>
    var selectedFilter: FilterType
    var isCameraActive: bool
    var stream: Option<StreamId>
    var isTakingPhoto: bool
    var activeCountdown: Option<int>
    var photoError: Option<string>
    var isComposing: bool
    /** Every stream the browser has granted, every stream whose tracks were stopped, and every request made, in order. */
    var granted: seq<StreamId>
    var stopped: seq<StreamId>
    var requests: seq<MediaRequest>
    /** What the sessions so far have shown and waited for. */
    var timeline: seq<Step>
    /** The hidden canvases behind `captureCanvasRef` and `compositionCanvasRef` (null when unmounted). */
    const captureCanvas: Canvas?
    const compositionCanvas: Canvas?

    function ControlState(): Controls
      reads this`selectedLayout, this`countdownDuration, this`useFrontCamera, this`isFlashOn,
            this`isCameraActive, this`stream, this`granted, this`stopped, this`requests
    {
      Controls(selectedLayout, countdownDuration, useFrontCamera, isFlashOn,
               isCameraActive, stream, granted, stopped, requests)
    }

    function Rec(): Record
      reads this`timeline, this`captured, this`composedImage, this`selectedFilter, this`isTakingPhoto,
            this`photoError, this`isComposing
    {
      Record(timeline, captured, composedImage, selectedFilter, isTakingPhoto, photoError, isComposing)
    }

    /** The stream bookkeeping. */
    function Cam(): Camera
      reads this`stream, this`granted, this`stopped
    {
      Camera(stream, granted, stopped)
    }

    /** The camera is active exactly while a stream is held, and every stream
        ever granted has been stopped except the one held. */
    predicate CameraValid()
      reads this
    {
      (isCameraActive <==> stream.Some?) && Settled(Cam())
    }

    /** Whether a capture can produce a picture at all. */
    predicate CaptureReady()
      reads this`isCameraActive
    {
      captureCanvas != null && captureCanvas.hasContext && isCameraActive
    }

    /** Whether the composition canvas exists and yields a 2D context. */
    predicate CompositionReady()
    {
      compositionCanvas != null && compositionCanvas.hasContext
    }

    /** The state before the first render. */
    constructor (captureCanvas: Canvas?, compositionCanvas: Canvas?)
      ensures this.captureCanvas == captureCanvas && this.compositionCanvas == compositionCanvas
      ensures selectedLayout == Grid && countdownDuration == DEFAULT_COUNTDOWN
      ensures useFrontCamera && !isFlashOn && selectedFilter == Original
      ensures captured == [] && composedImage == None
      ensures !isCameraActive && stream == None && !isTakingPhoto && activeCountdown == None
      ensures photoError == None && !isComposing
      ensures granted == [] && stopped == [] && requests == [] && timeline == []
      ensures CameraValid()
    {
      this.captureCanvas, this.compositionCanvas := captureCanvas, compositionCanvas;
      selectedLayout, countdownDuration := Grid, DEFAULT_COUNTDOWN;
      useFrontCamera, isFlashOn, selectedFilter := true, false, Original;
      captured, composedImage := [], None;
      isCameraActive, stream, isTakingPhoto, activeCountdown := false, None, false, None;
      photoError, isComposing := None, false;
      granted, stopped, requests, timeline := [], [], [], [];
    }

    /** `startCamera(front)`: stops the held stream, asks for a new one facing
        `front`, and holds what the browser grants (`outcome`), or reports the
        camera unavailable. */
    method StartCamera(front: bool, outcome: Option<StreamId>)
      requires CameraValid()
      modifies this`photoError, this`stopped, this`requests, this`stream, this`isCameraActive, this`granted
      ensures CameraValid()
      ensures stopped == old(stopped) + (if old(stream).Some? then [old(stream).value] else [])
      ensures requests == old(requests) + [MediaRequest(FacingMode(front), IDEAL_WIDTH, IDEAL_HEIGHT)]
      ensures stream == outcome && isCameraActive == outcome.Some?
      ensures granted == old(granted) + (if outcome.Some? then [outcome.value] else [])
      ensures photoError == (if outcome.Some? then None else Some(CAMERA_UNAVAILABLE))
      ensures Cam() == Answer(Ask(old(Cam()), old(stream)), outcome)
    {
      photoError := None;
      if stream.Some? {
        stopped := stopped + [stream.value];
      }
      requests := requests + [MediaRequest(FacingMode(front), IDEAL_WIDTH, IDEAL_HEIGHT)];
      if outcome.Some? {
        granted := granted + [outcome.value];
        stream := outcome;
        isCameraActive := true;
      } else {
        photoError := Some(CAMERA_UNAVAILABLE);
        isCameraActive := false;
        stream := None;
      }
    }

    /** `toggleCamera` and the effect it triggers: ignored during a session;
        otherwise flips the facing and restarts the camera that way. */
    method ToggleCamera(outcome: Option<StreamId>)
      requires CameraValid()
      modifies this`useFrontCamera, this`photoError, this`stopped, this`requests, this`stream, this`isCameraActive, this`granted
      ensures CameraValid()
      ensures old(isTakingPhoto) ==> ControlState() == old(ControlState()) && photoError == old(photoError)
      ensures !old(isTakingPhoto) ==>
        useFrontCamera == !old(useFrontCamera) && stream == outcome &&
        requests == old(requests) + [MediaRequest(FacingMode(useFrontCamera), IDEAL_WIDTH, IDEAL_HEIGHT)] &&
        stopped == old(stopped) + (if old(stream).Some? then [old(stream).value] else []) &&
        granted == old(granted) + (if outcome.Some? then [outcome.value] else []) &&
        photoError == (if outcome.Some? then None else Some(CAMERA_UNAVAILABLE))
    {
      if isTakingPhoto {
        return;
      }
      useFrontCamera := !useFrontCamera;
      StartCamera(useFrontCamera, outcome);
    }

    /** `toggleFlash`: ignored during a session. */
    method ToggleFlash()
      modifies this`isFlashOn
      ensures isFlashOn == (if isTakingPhoto then old(isFlashOn) else !old(isFlashOn))
    {
      if isTakingPhoto {
        return;
      }
      isFlashOn := !isFlashOn;
    }

    /** `captureFrame`: a still of the video at its native size, flipped for
        the front camera; none without a video, a canvas, an active camera
        or a 2D context. The canvas is resized whenever the first three exist. */
    method CaptureFrame(video: Option<Video>) returns (photo: Option<Raster>)
      modifies captureCanvas
      ensures photo.Some? <==> video.Some? && captureCanvas != null && isCameraActive && captureCanvas.hasContext
      ensures photo.Some? ==> photo.value == Still(video.value, useFrontCamera)
      ensures photo == Shoot(video, CaptureReady(), useFrontCamera)
      ensures video.Some? && captureCanvas != null && isCameraActive ==>
        captureCanvas.width == video.value.videoWidth && captureCanvas.height == video.value.videoHeight
      ensures !(video.Some? && captureCanvas != null && isCameraActive) ==>
        captureCanvas == null || unchanged(captureCanvas)
    {
      if video.Some? && captureCanvas != null && isCameraActive {
        var v := video.value;
        var canvas := captureCanvas;
        canvas.SetWidth(v.videoWidth);
        canvas.SetHeight(v.videoHeight);
        if canvas.hasContext {
          var still := PaintStill(canvas, v, useFrontCamera);
          return Some(still);
        }
      }
      return None;
    }

    /** `composeFinalImage(photos, layout)`: sizes the composition canvas for
        the layout, paints it white, and lets each photo's load draw it into
        its cell; `order` is the order in which the loads finish. The picture
        is published when the photo with the last index has been drawn. */
    method ComposeFinalImage(photos: seq<Raster>, layout: LayoutType, order: seq<nat>)
      requires LoadOrder(order, |photos|)
      modifies this`isComposing, this`composedImage, compositionCanvas
      ensures compositionCanvas == null || !compositionCanvas.hasContext ==>
        !isComposing && composedImage == old(composedImage) &&
        (compositionCanvas == null || unchanged(compositionCanvas))
      ensures compositionCanvas != null && compositionCanvas.hasContext ==>
        var s := CanvasFor(layout);
        compositionCanvas.Snapshot() == Raster(s.width, s.height, Composition(photos, layout, order)) &&
        composedImage == PublishedOr(photos, layout, order, old(composedImage)) &&
        isComposing == Published(photos, layout, order).None?
    {
      isComposing := true;
      var canvas := compositionCanvas;
      if canvas == null {
        isComposing := false;
        return;
      }
      if !canvas.hasContext {
        isComposing := false;
        return;
      }
      var size := CanvasFor(layout);
      canvas.SetWidth(size.width);
      canvas.SetHeight(size.height);
      canvas.SetFillStyle("white");
      canvas.FillRect(Rect(0, 0, canvas.width, canvas.height));
      assert order[..0] == [];
      LoadPhotos(canvas, photos, layout, order);
    }

    /** The `onload` callbacks of `composeFinalImage`, run in `order` on the
        prepared canvas: each draws its photo in its cell, and the one for
        the photo with the last index publishes the canvas and ends composing. */
    method LoadPhotos(canvas: Canvas, photos: seq<Raster>, layout: LayoutType, order: seq<nat>)
      requires LoadOrder(order, |photos|) && isComposing
      requires canvas.width == CanvasFor(layout).width && canvas.height == CanvasFor(layout).height
      requires canvas.transform == Identity && canvas.filter == "none"
      requires canvas.paints == Composition(photos, layout, [])
      modifies canvas`paints, this`composedImage, this`isComposing
      ensures canvas.paints == Composition(photos, layout, order)
      ensures composedImage == PublishedOr(photos, layout, order, old(composedImage))
      ensures isComposing == Published(photos, layout, order).None?
    {
      ghost var prior := composedImage;
      var k := 0;
      assert order[..0] == [];
      while k < |order|
        invariant k <= |order| && Loaded(canvas, photos, layout, order, k, prior)
      {
        LoadOne(canvas, photos, layout, order, k, prior);
        k := k + 1;
      }
      assert order[..k] == order;
    }

    /** The canvas and the composing state once the first `k` loads of
        `order` have run, when the composed image was `prior` before. */
    ghost predicate Loaded(canvas: Canvas, photos: seq<Raster>, layout: LayoutType, order: seq<nat>, k: nat, prior: Option<Raster>)
      reads canvas`paints, this`composedImage, this`isComposing
    {
      k <= |order| && LoadOrder(order[..k], |photos|) &&
      canvas.paints == Composition(photos, layout, order[..k]) &&
      composedImage == PublishedOr(photos, layout, order[..k], prior) &&
      isComposing == Published(photos, layout, order[..k]).None?
    }

    /** The `onload` callback of the `k`-th photo to finish loading. */
    method LoadOne(canvas: Canvas, photos: seq<Raster>, layout: LayoutType, order: seq<nat>, k: nat, ghost prior: Option<Raster>)
      requires LoadOrder(order, |photos|) && k < |order|
      requires canvas.width == CanvasFor(layout).width && canvas.height == CanvasFor(layout).height
      requires canvas.transform == Identity && canvas.filter == "none"
      requires Loaded(canvas, photos, layout, order, k, prior)
      modifies canvas`paints, this`composedImage, this`isComposing
      ensures Loaded(canvas, photos, layout, order, k + 1, prior)
    {
      CompositionStep(photos, layout, order, k);
      PublishedStep(photos, layout, order, k);
      var index := order[k];
      canvas.DrawImage(Decoded(photos[index]), Cell(layout, index));
      if index == |photos| - 1 {
        composedImage := Some(canvas.Snapshot());
        isComposing := false;
      }
    }

    /** The countdown of one shot: show `d`, then once a second show one less, down to zero. */
    method CountDown(d: int)
      modifies this`activeCountdown, this`timeline
      ensures timeline == old(timeline) + [Show(d)] + Ticks(d, 0)
      ensures activeCountdown == Some(if d > 0 then 0 else d)
    {
      activeCountdown := Some(d);
      timeline := timeline + [Show(d)];
      var s := d;
      while s > 0
        invariant (d <= 0 && s == d) || (0 <= s <= d)
        invariant activeCountdown == Some(s)
        invariant timeline == old(timeline) + [Show(d)] + Ticks(d, s)
      {
        assert Ticks(d, s - 1) == Ticks(d, s) + [Wait(TICK_MS), Show(s - 1)];
        timeline := timeline + [Wait(TICK_MS), Show(s - 1)];
        activeCountdown := Some(s - 1);
        s := s - 1;
      }
    }

    /** The delay before the capture: a simulated flash, or a plain shutter wait. */
    method ShutterDelay(flash: bool)
      modifies this`timeline
      ensures timeline == old(timeline) + Shutter(flash)
    {
      if flash {
        timeline := timeline + [Overlay(true), Wait(FLASH_MS), Overlay(false), Wait(SETTLE_MS)];
      } else {
        timeline := timeline + [Wait(SHUTTER_MS)];
      }
    }

    /** Everything of shot `i` before the capture: the countdown, the
        shutter delay, and the state writes of "new photoshoot" when `reset`. */
    method AwaitShutter(d: int, flash: bool, reset: bool)
      modifies this`activeCountdown, this`timeline, this`captured, this`composedImage, this`selectedFilter,
               this`isTakingPhoto, this`photoError, this`isComposing
      ensures Rec() == Prepared(old(Rec()), d, flash, reset)
    {
      CountDown(d);
      ShutterDelay(flash);
      assert timeline == old(timeline) + Prelude(d, flash);
      if reset {
        ClearSession();
      }
    }

    /** What the loop does with the outcome of the capture of shot `i`. */
    method RecordOutcome(i: nat, photo: Option<Raster>)
      modifies this`activeCountdown, this`timeline, this`captured, this`isTakingPhoto, this`photoError
      ensures Rec() == Recorded(old(Rec()), i, photo)
      ensures photo.None? ==> activeCountdown == None
    {
      timeline := timeline + [Capture(photo)];
      if photo.Some? {
        captured := captured + [photo.value];
      } else {
        photoError := Some(CAPTURE_FAILED);
        isTakingPhoto := false;
        activeCountdown := None;
        return;
      }
      if i < PHOTOS_PER_SESSION - 1 {
        timeline := timeline + [Wait(PAUSE_MS)];
      }
    }

    /** One pass of the session loop for shot `i`: count down from `d`, wait
        for the shutter, capture from `video`, then keep the photo and pause
        (except after the last shot), or report the failure. `reset` says
        that "new photoshoot" was pressed during this shot, which lands its
        state writes just before the capture. */
    method TakeShot(i: nat, d: int, flash: bool, reset: bool, video: Option<Video>) returns (photo: Option<Raster>)
      modifies this`activeCountdown, this`timeline, this`captured, this`composedImage, this`selectedFilter,
               this`isTakingPhoto, this`photoError, this`isComposing, captureCanvas
      ensures photo == Shoot(video, old(CaptureReady()), old(useFrontCamera))
      ensures Rec() == AfterShot(old(Rec()), i, d, flash, reset, photo)
      ensures photo.None? ==> activeCountdown == None
      ensures CaptureReady() == old(CaptureReady()) && useFrontCamera == old(useFrontCamera)
    {
      AwaitShutter(d, flash, reset);
      photo := CaptureFrame(video);
      RecordOutcome(i, photo);
    }

    /** One pass of the session loop, as the loop sees it: shot `i` extends
        the record and the photos kept so far, and the loop goes on exactly
        when the shot succeeded and was not the last. */
    method ShootNext(videos: seq<Option<Video>>, ghost outs: seq<Option<Raster>>, resets: set<nat>, d: int, flash: bool,
                     i: nat, photos: seq<Raster>, ghost r0: Record)
      returns (photos': seq<Raster>, ok: bool)
      requires |videos| == PHOTOS_PER_SESSION && outs == Outcomes(videos, CaptureReady(), useFrontCamera)
      requires i < Attempted(outs) && photos == Photos(outs[..i])
      requires Rec() == ShotsTaken(r0, outs, resets, i, d, flash)
      modifies this`activeCountdown, this`timeline, this`captured, this`composedImage, this`selectedFilter,
               this`isTakingPhoto, this`photoError, this`isComposing, captureCanvas
      ensures Rec() == ShotsTaken(r0, outs, resets, i + 1, d, flash)
      ensures photos' == Photos(outs[..i + 1])
      ensures ok <==> i + 1 < Attempted(outs) || AllCaptured(outs)
      ensures !ok ==> activeCountdown == None
      ensures CaptureReady() == old(CaptureReady()) && useFrontCamera == old(useFrontCamera)
    {
      var photo := TakeShot(i, d, flash, i in resets, videos[i]);
      assert photo == outs[i];
      ShotsTakenNext(r0, outs, resets, i, d, flash, photos, Rec());
      photos' := photos + (if photo.Some? then [photo.value] else []);
      ok := photo.Some?;
    }

    /** The loop of `startPhotoSession`: up to four shots from `videos`,
        stopping after the first failed capture. */
    method ShootAll(videos: seq<Option<Video>>, ghost outs: seq<Option<Raster>>, resets: set<nat>, d: int, flash: bool)
      returns (photos: seq<Raster>, ok: bool)
      requires |videos| == PHOTOS_PER_SESSION && outs == Outcomes(videos, CaptureReady(), useFrontCamera)
      modifies this`activeCountdown, this`timeline, this`captured, this`composedImage, this`selectedFilter,
               this`isTakingPhoto, this`photoError, this`isComposing, captureCanvas
      ensures ok <==> AllCaptured(outs)
      ensures Rec() == ShotsTaken(old(Rec()), outs, resets, Attempted(outs), d, flash)
      ensures photos == Photos(outs[..Attempted(outs)])
      ensures !ok ==> activeCountdown == None
    {
      ghost var ready, front := CaptureReady(), useFrontCamera;
      ghost var n := Attempted(outs);
      ghost var r0 := Rec();
      LastAttempted(outs);
      photos := [];
      ok := true;
      var i := 0;
      assert outs[..0] == [];
      while i < PHOTOS_PER_SESSION && ok
        invariant 0 <= i <= n
        invariant CaptureReady() == ready && useFrontCamera == front
        invariant ok <==> i < n || AllCaptured(outs)
        invariant Rec() == ShotsTaken(r0, outs, resets, i, d, flash)
        invariant photos == Photos(outs[..i])
        invariant !ok ==> activeCountdown == None
      {
        photos, ok := ShootNext(videos, outs, resets, d, flash, i, photos, r0);
        i := i + 1;
      }
      assert i == n;
    }

    /** The state writes `startPhotoSession` makes before its first shot. */
    method BeginSession()
      modifies this`isTakingPhoto, this`captured, this`composedImage, this`photoError
      ensures Rec() == Started(old(Rec()))
    {
      isTakingPhoto := true;
      captured := [];
      composedImage := None;
      photoError := None;
    }

    /** What `startPhotoSession` does after a loop that ran to the end: the
        session stops, and four photos go to the compositor. */
    method FinishSession(photos: seq<Raster>, layout: LayoutType, order: seq<nat>)
      requires LoadOrder(order, PHOTOS_PER_SESSION)
      modifies this`isTakingPhoto, this`activeCountdown, this`timeline, this`isComposing, this`composedImage, compositionCanvas
      ensures activeCountdown == None
      ensures |photos| == PHOTOS_PER_SESSION ==>
        Rec() == Composed(old(Rec()).(isTakingPhoto := false, timeline := old(timeline) + [Compose(photos, layout)]),
                          photos, layout, order, CompositionReady())
      ensures |photos| == PHOTOS_PER_SESSION && CompositionReady() ==>
        var size := CanvasFor(layout);
        compositionCanvas.Snapshot() == Raster(size.width, size.height, Composition(photos, layout, order))
      ensures |photos| != PHOTOS_PER_SESSION ==> Rec() == old(Rec()).(isTakingPhoto := false)
    {
      isTakingPhoto := false;
      activeCountdown := None;
      if |photos| == PHOTOS_PER_SESSION {
        timeline := timeline + [Compose(photos, layout)];
        ComposeFinalImage(photos, layout, order);
      }
    }

    /** The end of `startPhotoSession` after its loop, whose outcomes were
        `outs`: composes the photos when every capture succeeded. */
    method Conclude(photos: seq<Raster>, ok: bool, ghost outs: seq<Option<Raster>>, layout: LayoutType, order: seq<nat>)
      requires |outs| == PHOTOS_PER_SESSION && LoadOrder(order, PHOTOS_PER_SESSION)
      requires ok <==> AllCaptured(outs)
      requires ok ==> photos == Photos(outs)
      requires !ok ==> activeCountdown == None
      modifies this`isTakingPhoto, this`activeCountdown, this`timeline, this`isComposing, this`composedImage, compositionCanvas
      ensures activeCountdown == None
      ensures Rec() == Concluded(old(Rec()), outs, layout, order, CompositionReady())
      ensures ok && CompositionReady() ==>
        var size := CanvasFor(layout);
        compositionCanvas.Snapshot() == Raster(size.width, size.height, Composition(Photos(outs), layout, order))
    {
      if ok {
        FinishSession(photos, layout, order);
      }
    }

    /** A session once `startPhotoSession` has let it start: clears the
        previous results, takes the shots, and composes when all four succeed. */
    method RunSession(videos: seq<Option<Video>>, resets: set<nat>, order: seq<nat>)
      requires |videos| == PHOTOS_PER_SESSION && LoadOrder(order, PHOTOS_PER_SESSION)
      modifies this`activeCountdown, this`timeline, this`captured, this`composedImage, this`selectedFilter,
               this`isTakingPhoto, this`photoError, this`isComposing, captureCanvas, compositionCanvas
      ensures activeCountdown == None
      ensures var outs := Outcomes(videos, old(CaptureReady()), old(useFrontCamera));
              Rec() == SessionRecord(old(Rec()), outs, resets, old(countdownDuration), old(isFlashOn),
                                     old(selectedLayout), order, CompositionReady())
      ensures var outs := Outcomes(videos, old(CaptureReady()), old(useFrontCamera));
              CompositionReady() && AllCaptured(outs) ==>
                var size := CanvasFor(old(selectedLayout));
                compositionCanvas.Snapshot() == Raster(size.width, size.height, Composition(Photos(outs), old(selectedLayout), order))
    {
      ghost var r0 := Rec();
      ghost var outs := Outcomes(videos, CaptureReady(), useFrontCamera);
      var d, flash, layout := countdownDuration, isFlashOn, selectedLayout;
      BeginSession();
      var photos, ok := ShootAll(videos, outs, resets, d, flash);
      ghost var s := ShotsTaken(Started(r0), outs, resets, Attempted(outs), d, flash);
      assert Rec() == s;
      if ok {
        AttemptedAll(outs);
      }
      Conclude(photos, ok, outs, layout, order);
      assert Rec() == Concluded(s, outs, layout, order, CompositionReady());
    }

    /** `startPhotoSession`: ignored unless the camera is active and no session
        runs. Otherwise clears the previous results and takes four shots with
        the countdown, flash and layout chosen when it started, capturing from
        `videos` in turn and stopping at the first failed capture; when all
        four succeed, hands them to the compositor, whose loads finish in
        `order`. `resets` holds the shots during which "new photoshoot" was
        pressed: the loop does not notice and carries on. */
    method StartPhotoSession(videos: seq<Option<Video>>, resets: set<nat>, order: seq<nat>)
      requires |videos| == PHOTOS_PER_SESSION && LoadOrder(order, PHOTOS_PER_SESSION)
      modifies this, captureCanvas, compositionCanvas
      ensures !old(isCameraActive) || old(isTakingPhoto) ==>
        unchanged(this) && (captureCanvas == null || unchanged(captureCanvas)) &&
        (compositionCanvas == null || unchanged(compositionCanvas))
      ensures unchanged(this`selectedLayout, this`countdownDuration, this`useFrontCamera, this`isFlashOn,
                        this`isCameraActive, this`stream, this`granted, this`stopped, this`requests)
      ensures old(isCameraActive) && !old(isTakingPhoto) ==>
        activeCountdown == None &&
        Rec() == SessionRecord(old(Rec()), Outcomes(videos, old(CaptureReady()), old(useFrontCamera)), resets,
                               old(countdownDuration), old(isFlashOn), old(selectedLayout), order, CompositionReady())
      ensures old(isCameraActive) && !old(isTakingPhoto) && CompositionReady() &&
              AllCaptured(Outcomes(videos, old(CaptureReady()), old(useFrontCamera))) ==>
        var photos := Photos(Outcomes(videos, old(CaptureReady()), old(useFrontCamera)));
        var size := CanvasFor(old(selectedLayout));
        |photos| == PHOTOS_PER_SESSION &&
        compositionCanvas.Snapshot() == Raster(size.width, size.height, Composition(photos, old(selectedLayout), order))
    {
      if !isCameraActive || isTakingPhoto {
        return;
      }
      RunSession(videos, resets, order);
    }

    /** The state writes of `handleNewPhotoshoot`: the session's results and the chosen effect are cleared. */
    method ClearSession()
      modifies this`captured, this`composedImage, this`selectedFilter, this`isTakingPhoto,
               this`activeCountdown, this`photoError, this`isComposing
      ensures captured == [] && composedImage == None && selectedFilter == Original
      ensures !isTakingPhoto && activeCountdown == None && photoError == None && !isComposing
      ensures Rec() == Cleared(old(Rec()))
    {
      captured, composedImage, selectedFilter := [], None, Original;
      isTakingPhoto, activeCountdown, photoError, isComposing := false, None, None, false;
    }

    /** `handleDownload`: ignored without a composed image or a composition
        canvas, and silent when the temporary canvas yields no context;
        otherwise the file handed to the download link. */
    method HandleDownload(tempHasContext: bool, now: nat) returns (file: Option<ExportFile>)
      ensures file.Some? <==> composedImage.Some? && compositionCanvas != null && tempHasContext
      ensures file.Some? ==>
        file.value == Exported(composedImage.value, compositionCanvas.width, compositionCanvas.height, selectedFilter, now)
    {
      if composedImage.None? || compositionCanvas == null {
        return None;
      }
      var shot := PaintExport(composedImage.value, compositionCanvas.width, compositionCanvas.height, selectedFilter, tempHasContext);
      if shot.None? {
        return None;
      }
      file := Some(ExportFile(FileName(now), shot.value));
    }

    /** `handleShare`, up to the point where the platform takes over: ignored
        without a composed image or a composition canvas, a processing failure
        when the temporary canvas yields no context, and otherwise the very
        file a download at the same moment would produce. */
    method HandleShare(tempHasContext: bool, now: nat) returns (attempt: ShareAttempt)
      ensures attempt == NotShared <==> composedImage.None? || compositionCanvas == null
      ensures attempt == ProcessingFailed <==> composedImage.Some? && compositionCanvas != null && !tempHasContext
      ensures attempt.ReadyToShare? ==>
        attempt.file == Exported(composedImage.value, compositionCanvas.width, compositionCanvas.height, selectedFilter, now)
    {
      if composedImage.None? || compositionCanvas == null {
        return NotShared;
      }
      var shot := PaintExport(composedImage.value, compositionCanvas.width, compositionCanvas.height, selectedFilter, tempHasContext);
      if shot.None? {
        return ProcessingFailed;
      }
      attempt := ReadyToShare(ExportFile(FileName(now), shot.value));
    }

    /** `handleNewPhotoshoot`: clears the session and restarts the camera if it is not active. */
    method NewPhotoshoot(outcome: Option<StreamId>)
      requires CameraValid()
      modifies this
      ensures CameraValid()
      ensures captured == [] && composedImage == None && selectedFilter == Original
      ensures !isTakingPhoto && activeCountdown == None && !isComposing
      ensures old(isCameraActive) ==> ControlState() == old(ControlState()) && photoError == None
      ensures !old(isCameraActive) ==>
        stream == outcome &&
        requests == old(requests) + [MediaRequest(FacingMode(useFrontCamera), IDEAL_WIDTH, IDEAL_HEIGHT)] &&
        photoError == (if outcome.Some? then None else Some(CAMERA_UNAVAILABLE))
      ensures selectedLayout == old(selectedLayout) && countdownDuration == old(countdownDuration)
      ensures useFrontCamera == old(useFrontCamera) && isFlashOn == old(isFlashOn) && timeline == old(timeline)
    {
      ClearSession();
      if !isCameraActive {
        StartCamera(useFrontCamera, outcome);
      }
    }
  }
}
