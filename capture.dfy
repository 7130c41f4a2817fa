/** What `captureFrame` produces: a still the size of the video's native
    resolution, drawn through a horizontal flip exactly when the front camera
    is in use (`translate(width, 0)` followed by `scale(-1, 1)`). */
module FrameCapture {
  import opened Canvas2D

  /** The video element at the moment of capture: its native size and the frame it shows. */
  datatype Video = Video(videoWidth: nat, videoHeight: nat, frame: nat)

  /** The transform in force when the frame is drawn on a freshly sized canvas of width `w`. */
  function CaptureTransform(w: nat, mirror: bool): (t: Transform)
    ensures forall x :: MapX(t, x) == if mirror then w - x else x
    ensures forall y :: MapY(t, y) == y
  {
    if mirror then Scaled(Translated(Identity, w, 0), -1, 1) else Identity
  }

  /** The still captured from `v`: one unfiltered draw of the frame over the
      whole bitmap, mirrored column by column exactly when `mirror`. */
  function Still(v: Video, mirror: bool): (r: Raster)
    ensures r.width == v.videoWidth && r.height == v.videoHeight && |r.paints| == 1
    ensures r.paints[0].Draw? && r.paints[0].source == VideoFrame(v.frame) && r.paints[0].filter == "none"
    ensures r.paints[0].dest == Rect(0, 0, r.width, r.height)
    ensures forall x :: MapX(r.paints[0].transform, x) == if mirror then r.width - x else x
    ensures forall y :: MapY(r.paints[0].transform, y) == y
  {
    Raster(v.videoWidth, v.videoHeight,
           [Draw(VideoFrame(v.frame), Rect(0, 0, v.videoWidth, v.videoHeight), CaptureTransform(v.videoWidth, mirror), "none")])
  }

  /** The front-camera flip sends column `x` of the frame to column `w - x` of
      the still: it maps the still's width onto itself, reverses the order of
      columns, and undoes itself; the back camera's still is not flipped. */
  lemma MirrorGeometry(w: nat, x: int, y: int)
    ensures 0 <= x <= w ==> 0 <= MapX(CaptureTransform(w, true), x) <= w
    ensures x < y ==> MapX(CaptureTransform(w, true), y) < MapX(CaptureTransform(w, true), x)
    ensures MapX(CaptureTransform(w, true), MapX(CaptureTransform(w, true), x)) == x
    ensures MapX(CaptureTransform(w, false), x) == x
  {
  }
}
