/** The compositor's fixed geometry and the picture it publishes. Every photo
    is stretched into a 400×400 cell: there is no cropping and no aspect
    scaling. A grid is 2×2 on an 860×860 canvas; a strip is one column on a
    440×1700 canvas, whose height is sized for four photos. */
module Layout {
  import opened Types
  import opened Constants
  import opened Canvas2D

  const PADDING: nat := 20
  const IMAGE_SIZE: nat := 400

  /** Cells per row of a grid, and rows of a grid. */
  const GRID_COLUMNS: nat := 2
  const GRID_ROWS: nat := 2

  datatype Size = Size(width: nat, height: nat)

  /** The composition canvas for a layout. */
  function CanvasFor(layout: LayoutType): (s: Size)
    ensures layout == Grid ==> s == Size(860, 860)
    ensures layout == Strip ==> s == Size(440, 1700)
  {
    match layout
    case Grid => Size(IMAGE_SIZE * 2 + PADDING * 3, IMAGE_SIZE * 2 + PADDING * 3)
    case Strip => Size(IMAGE_SIZE + PADDING * 2, IMAGE_SIZE * 4 + PADDING * 5)
  }

  /** The rectangle photo `index` is drawn into. */
  function Cell(layout: LayoutType, index: nat): (r: Rect)
    ensures r.w == IMAGE_SIZE && r.h == IMAGE_SIZE
  {
    match layout
    case Grid =>
      var row := index / 2;
      var col := index % 2;
      Rect(PADDING + col * (IMAGE_SIZE + PADDING), PADDING + row * (IMAGE_SIZE + PADDING), IMAGE_SIZE, IMAGE_SIZE)
    case Strip =>
      Rect(PADDING, PADDING + index * (IMAGE_SIZE + PADDING), IMAGE_SIZE, IMAGE_SIZE)
  }

  predicate Inside(r: Rect, s: Size)
  {
    0 <= r.x && 0 <= r.y && r.x + r.w <= s.width && r.y + r.h <= s.height
  }

  predicate Disjoint(a: Rect, b: Rect)
  {
    a.x + a.w <= b.x || b.x + b.w <= a.x || a.y + a.h <= b.y || b.y + b.h <= a.y
  }

  /** The four cells of each layout, in capture order. */
  lemma CellPositions()
    ensures Cell(Grid, 0) == Rect(20, 20, 400, 400) && Cell(Grid, 1) == Rect(440, 20, 400, 400)
    ensures Cell(Grid, 2) == Rect(20, 440, 400, 400) && Cell(Grid, 3) == Rect(440, 440, 400, 400)
    ensures Cell(Strip, 0) == Rect(20, 20, 400, 400) && Cell(Strip, 1) == Rect(20, 440, 400, 400)
    ensures Cell(Strip, 2) == Rect(20, 860, 400, 400) && Cell(Strip, 3) == Rect(20, 1280, 400, 400)
  {
  }

  /** A grid has exactly as many cells as a session takes photos. */
  lemma GridCellsMatchSession()
    ensures GRID_COLUMNS * GRID_ROWS == PHOTOS_PER_SESSION
    ensures forall i :: 0 <= i < PHOTOS_PER_SESSION ==> i % GRID_COLUMNS < GRID_COLUMNS && i / GRID_COLUMNS < GRID_ROWS
  {
  }

  /** A cell lies on its canvas exactly when its index is below four, in both layouts. */
  lemma {:induction false} CellInsideIff(layout: LayoutType, index: nat)
    ensures Inside(Cell(layout, index), CanvasFor(layout)) <==> index < PHOTOS_PER_SESSION
  {
    var r := Cell(layout, index);
    if layout == Grid {
      if index < 4 {
        assert index / 2 <= 1 && index % 2 <= 1;
      } else {
        assert index / 2 >= 2;
        assert r.y >= PADDING + 2 * (IMAGE_SIZE + PADDING);
      }
    } else {
      if index >= 4 {
        assert r.y >= PADDING + 4 * (IMAGE_SIZE + PADDING);
      }
    }
  }

  /** Distinct photos never share any area, in either layout. */
  lemma {:induction false} CellsDisjoint(layout: LayoutType, i: nat, j: nat)
    requires i != j
    ensures Disjoint(Cell(layout, i), Cell(layout, j))
  {
    if layout == Grid {
      if i % 2 == j % 2 {
        assert i == 2 * (i / 2) + i % 2 && j == 2 * (j / 2) + j % 2;
        assert i / 2 != j / 2;
        if i / 2 < j / 2 {
          assert (i / 2) * (IMAGE_SIZE + PADDING) + (IMAGE_SIZE + PADDING) <= (j / 2) * (IMAGE_SIZE + PADDING);
        } else {
          assert (j / 2) * (IMAGE_SIZE + PADDING) + (IMAGE_SIZE + PADDING) <= (i / 2) * (IMAGE_SIZE + PADDING);
        }
      }
    } else {
      if i < j {
        assert i * (IMAGE_SIZE + PADDING) + (IMAGE_SIZE + PADDING) <= j * (IMAGE_SIZE + PADDING);
      } else {
        assert j * (IMAGE_SIZE + PADDING) + (IMAGE_SIZE + PADDING) <= i * (IMAGE_SIZE + PADDING);
      }
    }
  }

  /** The order in which the photos' `onload` callbacks run: distinct indices of
      photos; a photo whose image never loads is absent. */
  predicate LoadOrder(order: seq<nat>, n: nat)
  {
    (forall k :: 0 <= k < |order| ==> order[k] < n) &&
    (forall k, m :: 0 <= k < m < |order| ==> order[k] != order[m])
  }

  /** The draw one `onload` callback issues for photo `index`. */
  function CellDraw(photos: seq<Raster>, layout: LayoutType, index: nat): Paint
    requires index < |photos|
  {
    Draw(Decoded(photos[index]), Cell(layout, index), Identity, "none")
  }

  /** The draws issued by the callbacks that ran, in the order they ran. */
  function Draws(photos: seq<Raster>, layout: LayoutType, order: seq<nat>): (r: seq<Paint>)
    requires LoadOrder(order, |photos|)
    ensures |r| == |order|
    ensures forall k :: 0 <= k < |order| ==> r[k] == CellDraw(photos, layout, order[k])
  {
    if order == [] then []
    else Draws(photos, layout, order[..|order| - 1]) + [CellDraw(photos, layout, order[|order| - 1])]
  }

  /** The white background followed by the draws. */
  function Composition(photos: seq<Raster>, layout: LayoutType, order: seq<nat>): seq<Paint>
    requires LoadOrder(order, |photos|)
  {
    var s := CanvasFor(layout);
    [Fill(Rect(0, 0, s.width, s.height), "white")] + Draws(photos, layout, order)
  }

  /** The position in the load order at which the photo with the last index loads. */
  function LastIndexLoadsAt(order: seq<nat>, n: nat): (r: Option<nat>)
    ensures r.Some? ==> n > 0 && r.value < |order| && order[r.value] == n - 1
    ensures r.None? ==> forall k :: 0 <= k < |order| ==> order[k] != n - 1 || n == 0
  {
    if n == 0 || order == [] then None
    else if order[|order| - 1] == n - 1 then Some(|order| - 1)
    else LastIndexLoadsAt(order[..|order| - 1], n)
  }

  /** The picture the compositor publishes: the canvas as it stands when the
      photo with the last index has been drawn; none if that photo never loads. */
  function Published(photos: seq<Raster>, layout: LayoutType, order: seq<nat>): Option<Raster>
    requires LoadOrder(order, |photos|)
  {
    match LastIndexLoadsAt(order, |photos|)
    case None => None
    case Some(p) =>
      var s := CanvasFor(layout);
      Some(Raster(s.width, s.height, Composition(photos, layout, order[..p + 1])))
  }

  /** The composed image after the loads in `order`, when it was `prior` before the session composed. */
  function PublishedOr(photos: seq<Raster>, layout: LayoutType, order: seq<nat>, prior: Option<Raster>): Option<Raster>
    requires LoadOrder(order, |photos|)
  {
    var p := Published(photos, layout, order);
    if p.Some? then p else prior
  }

  /** The photos drawn in a list of paints, by cell. */
  function DrawnPictures(paints: seq<Paint>): set<Picture>
  {
    set k | 0 <= k < |paints| && paints[k].Draw? :: paints[k].source
  }

  /** A picture is published exactly when the photo with the last index loads. */
  lemma PublishedIffLastLoads(photos: seq<Raster>, layout: LayoutType, order: seq<nat>)
    requires LoadOrder(order, |photos|)
    ensures Published(photos, layout, order).Some? <==> |photos| > 0 && |photos| - 1 in order
  {
    var n := |photos|;
    if n > 0 && n - 1 in order {
      var k :| 0 <= k < |order| && order[k] == n - 1;
      assert LastIndexLoadsAt(order, n).Some?;
    }
  }

  /** The published picture is sized for its layout, starts with the white
      background, and then holds one cell draw per load up to and including
      the last photo's, in load order. */
  lemma PublishedPaints(photos: seq<Raster>, layout: LayoutType, order: seq<nat>)
    requires LoadOrder(order, |photos|)
    requires Published(photos, layout, order).Some?
    ensures var img := Published(photos, layout, order).value;
            var p := LastIndexLoadsAt(order, |photos|).value;
            Size(img.width, img.height) == CanvasFor(layout) &&
            img.paints[0] == Fill(Rect(0, 0, img.width, img.height), "white") &&
            |img.paints| == p + 2 &&
            forall k :: 0 <= k <= p ==> img.paints[k + 1] == CellDraw(photos, layout, order[k])
  {
    var img := Published(photos, layout, order).value;
    var p := LastIndexLoadsAt(order, |photos|).value;
    var prefix := order[..p + 1];
    assert LoadOrder(prefix, |photos|);
    forall k | 0 <= k <= p ensures img.paints[k + 1] == CellDraw(photos, layout, order[k]) {
      assert prefix[k] == order[k];
    }
  }

  /** The published picture holds exactly the photos whose loads finished at or
      before the last photo's load; later loads never reach it. */
  lemma PublishedPhotos(photos: seq<Raster>, layout: LayoutType, order: seq<nat>)
    requires LoadOrder(order, |photos|)
    requires Published(photos, layout, order).Some?
    ensures var p := LastIndexLoadsAt(order, |photos|).value;
            DrawnPictures(Published(photos, layout, order).value.paints) ==
              set k | 0 <= k <= p :: Decoded(photos[order[k]])
  {
    var paints := Published(photos, layout, order).value.paints;
    var p := LastIndexLoadsAt(order, |photos|).value;
    PublishedPaints(photos, layout, order);
    var lhs := DrawnPictures(paints);
    var rhs := set k | 0 <= k <= p :: Decoded(photos[order[k]]);
    forall q | q in lhs ensures q in rhs {
      var k :| 0 <= k < |paints| && paints[k].Draw? && paints[k].source == q;
      assert k >= 1;
      assert q == Decoded(photos[order[k - 1]]);
    }
    forall q | q in rhs ensures q in lhs {
      var k :| 0 <= k <= p && q == Decoded(photos[order[k]]);
      assert paints[k + 1].Draw? && paints[k + 1].source == q;
    }
  }

  /** When the photo with the last index is the last to load, the published
      picture holds every photo that loaded. */
  lemma LastLoadingLastPublishesAll(photos: seq<Raster>, layout: LayoutType, order: seq<nat>)
    requires LoadOrder(order, |photos|)
    requires |order| > 0 && order[|order| - 1] == |photos| - 1
    ensures Published(photos, layout, order).Some?
    ensures DrawnPictures(Published(photos, layout, order).value.paints) ==
              set k | 0 <= k < |order| :: Decoded(photos[order[k]])
  {
    PublishedPhotos(photos, layout, order);
  }

  /** When the photo with the last index loads first, the published picture
      holds that photo alone, whatever loads afterwards. */
  lemma LastLoadingFirstPublishesOne(photos: seq<Raster>, layout: LayoutType, order: seq<nat>)
    requires LoadOrder(order, |photos|)
    requires |order| > 0 && order[0] == |photos| - 1
    ensures Published(photos, layout, order).Some?
    ensures DrawnPictures(Published(photos, layout, order).value.paints) == {Decoded(photos[|photos| - 1])}
  {
    PublishedIffLastLoads(photos, layout, order);
    assert LastIndexLoadsAt(order, |photos|).value == 0;
    PublishedPhotos(photos, layout, order);
    var rhs := set k | 0 <= k <= 0 :: Decoded(photos[order[k]]);
    assert Decoded(photos[order[0]]) in rhs;
  }
}

module LayoutSteps {
  import opened Types
  import opened Canvas2D
  import opened Layout

  /** One more load extends the composition by that photo's cell draw. */
  lemma CompositionStep(photos: seq<Raster>, layout: LayoutType, order: seq<nat>, k: nat)
    requires LoadOrder(order, |photos|) && k < |order|
    ensures LoadOrder(order[..k], |photos|) && LoadOrder(order[..k + 1], |photos|)
    ensures Composition(photos, layout, order[..k + 1]) ==
              Composition(photos, layout, order[..k]) + [CellDraw(photos, layout, order[k])]
  {
    assert order[..k + 1][..k] == order[..k];
  }

  /** One more load is the last index's own, or leaves the position where the last index loaded unchanged. */
  lemma LastIndexStep(order: seq<nat>, n: nat, k: nat)
    requires k < |order|
    ensures LastIndexLoadsAt(order[..k + 1], n) ==
              if n > 0 && order[k] == n - 1 then Some(k) else LastIndexLoadsAt(order[..k], n)
  {
    var next := order[..k + 1];
    assert next[..k] == order[..k];
  }

  /** One more load publishes the canvas exactly when it is the last photo's. */
  lemma PublishedStep(photos: seq<Raster>, layout: LayoutType, order: seq<nat>, k: nat)
    requires LoadOrder(order, |photos|) && k < |order|
    ensures LoadOrder(order[..k], |photos|) && LoadOrder(order[..k + 1], |photos|)
    ensures var s := CanvasFor(layout);
            Published(photos, layout, order[..k + 1]) ==
              if order[k] == |photos| - 1 then Some(Raster(s.width, s.height, Composition(photos, layout, order[..k + 1])))
              else Published(photos, layout, order[..k])
  {
    var pre, next := order[..k], order[..k + 1];
    assert next[..k] == pre;
    LastIndexStep(order, |photos|, k);
    if order[k] == |photos| - 1 {
      assert next[..k + 1] == next;
    } else {
      match LastIndexLoadsAt(pre, |photos|)
      case None =>
      case Some(p) =>
        assert next[..p + 1] == pre[..p + 1];
    }
  }
}
