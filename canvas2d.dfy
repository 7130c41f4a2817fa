/** The part of the browser's 2D canvas the booth relies on. Pixels are not
    modelled: a canvas records the paint operations issued since its bitmap
    was last cleared, and `toDataURL` yields a snapshot of that record. Per
    the HTML standard, assigning `width` or `height` clears the bitmap and
    resets the context state (transform, fill style, filter). */
module Canvas2D {

  datatype Rect = Rect(x: int, y: int, w: int, h: int)

  /** An axis-preserving affine map `(x, y) ↦ (sx·x + tx, sy·y + ty)` from user
      space to the bitmap; the booth never rotates or skews. */
  datatype Transform = Transform(sx: int, sy: int, tx: int, ty: int)

  const Identity: Transform := Transform(1, 1, 0, 0)

  /** Where a user-space column lands on the bitmap. */
  function MapX(t: Transform, x: int): int
  {
    t.sx * x + t.tx
  }

  /** Where a user-space row lands on the bitmap. */
  function MapY(t: Transform, y: int): int
  {
    t.sy * y + t.ty
  }

  /** `ctx.translate(dx, dy)`: later drawing is offset by (dx, dy) in the current user space. */
  function Translated(t: Transform, dx: int, dy: int): (r: Transform)
    ensures forall x :: MapX(r, x) == MapX(t, x + dx)
    ensures forall y :: MapY(r, y) == MapY(t, y + dy)
  {
    Transform(t.sx, t.sy, t.sx * dx + t.tx, t.sy * dy + t.ty)
  }

  /** `ctx.scale(kx, ky)`: later drawing is scaled in the current user space. */
  function Scaled(t: Transform, kx: int, ky: int): (r: Transform)
    ensures forall x :: MapX(r, x) == MapX(t, kx * x)
    ensures forall y :: MapY(r, y) == MapY(t, ky * y)
  {
    Transform(t.sx * kx, t.sy * ky, t.tx, t.ty)
  }

  /** An image source handed to `drawImage`: a live video frame or an image
      decoded from an earlier snapshot. */
  datatype Picture = VideoFrame(frame: nat) | Decoded(image: Raster)

  /** One operation recorded on a bitmap. */
  datatype Paint =
    | Fill(area: Rect, style: string)
    | Draw(source: Picture, dest: Rect, transform: Transform, filter: string)

  /** A snapshot of a canvas: what `toDataURL` encodes (the encoding is not modelled). */
  datatype Raster = Raster(width: nat, height: nat, paints: seq<Paint>)

  class Canvas {
    var width: nat
    var height: nat
    var transform: Transform
    var fillStyle: string
    var filter: string
    var paints: seq<Paint>
    /** Whether `getContext('2d')` yields a context. */
    const hasContext: bool

    /** The context state of a freshly cleared bitmap. */
    predicate Cleared()
      reads this
    {
      paints == [] && transform == Identity && fillStyle == "#000000" && filter == "none"
    }

    /** `document.createElement('canvas')`: 300×150 and blank. */
    constructor (hasContext: bool)
      ensures this.hasContext == hasContext
      ensures width == 300 && height == 150 && Cleared()
    {
      this.hasContext := hasContext;
      width, height := 300, 150;
      transform, fillStyle, filter, paints := Identity, "#000000", "none", [];
    }

    method SetWidth(w: nat)
      modifies this
      ensures width == w && height == old(height) && Cleared()
    {
      width := w;
      transform, fillStyle, filter, paints := Identity, "#000000", "none", [];
    }

    method SetHeight(h: nat)
      modifies this
      ensures height == h && width == old(width) && Cleared()
    {
      height := h;
      transform, fillStyle, filter, paints := Identity, "#000000", "none", [];
    }

    method Translate(dx: int, dy: int)
      modifies this`transform
      ensures transform == Translated(old(transform), dx, dy)
    {
      transform := Translated(transform, dx, dy);
    }

    method Scale(kx: int, ky: int)
      modifies this`transform
      ensures transform == Scaled(old(transform), kx, ky)
    {
      transform := Scaled(transform, kx, ky);
    }

    method SetFillStyle(style: string)
      modifies this`fillStyle
      ensures fillStyle == style
    {
      fillStyle := style;
    }

    method SetFilter(f: string)
      modifies this`filter
      ensures filter == f
    {
      filter := f;
    }

    method FillRect(area: Rect)
      modifies this`paints
      ensures paints == old(paints) + [Fill(area, fillStyle)]
    {
      paints := paints + [Fill(area, fillStyle)];
    }

    /** `drawImage(source, x, y, w, h)` under the current transform and filter. */
    method DrawImage(source: Picture, dest: Rect)
      modifies this`paints
      ensures paints == old(paints) + [Draw(source, dest, transform, filter)]
    {
      paints := paints + [Draw(source, dest, transform, filter)];
    }

    /** `toDataURL(...)`: the current bitmap. */
    function Snapshot(): Raster
      reads this
    {
      Raster(width, height, paints)
    }
  }
}
