/** Layers, and what a stack of them looks like (src/graphics.rs).

    The reference is the colour seen at a point: that of the topmost layer that paints there.  No
    drawing order, clipping or buffer index appears in it. */
module Compositing {
  import opened Basics
  import opened Words

  type Pixel = nat
  type LayerId = nat

  datatype Rect = Rect(x: nat, y: nat, width: nat, height: nat) {
    predicate Contains(px: nat, py: nat) {
      x <= px < x + width && y <= py < y + height
    }
  }

  const EMPTY: Rect := Rect(0, 0, 0, 0)

  /** A layer's rectangle, the one it had when it was last updated, its contents row by row, and the
      colour that counts as see-through. */
  datatype Layer = Layer(rect: Rect, prev: Rect, pixels: seq<Pixel>, transparent: Option<Pixel>) {
    predicate Ok() {
      |pixels| == rect.width * rect.height
    }
  }

  // ----- Indexing a frame buffer -----

  function Index(x: nat, y: nat, width: nat): nat {
    y * width + x
  }

  lemma {:induction false} IndexInside(x: nat, y: nat, width: nat, height: nat)
    requires x < width && y < height
    ensures Index(x, y, width) < width * height
  {
    assert (y + 1) * width <= height * width;
  }

  /** Different points have different indices. */
  lemma {:induction false} IndexInjective(x: nat, y: nat, x': nat, y': nat, width: nat)
    requires x < width && x' < width && Index(x, y, width) == Index(x', y', width)
    ensures x == x' && y == y'
  {
    var n := y - y';
    assert width * n == y * width - y' * width;
    MultipleIsFar(width, n);
  }

  /** A frame buffer of `width` by `height` pixels, row by row. */
  predicate IsFrame(buf: seq<Pixel>, width: nat, height: nat) {
    |buf| == width * height
  }

  function At(buf: seq<Pixel>, width: nat, height: nat, x: nat, y: nat): Pixel
    requires IsFrame(buf, width, height) && x < width && y < height
  {
    IndexInside(x, y, width, height);
    buf[Index(x, y, width)]
  }

  /** Drawing one pixel changes that pixel only. */
  lemma {:induction false} AtDrawn(buf: seq<Pixel>, width: nat, height: nat, x: nat, y: nat, c: Pixel, px: nat, py: nat)
    requires IsFrame(buf, width, height) && x < width && y < height && px < width && py < height
    ensures Index(x, y, width) < |buf|
    ensures At(buf[Index(x, y, width) := c], width, height, px, py) ==
            if px == x && py == y then c else At(buf, width, height, px, py)
  {
    IndexInside(x, y, width, height);
    IndexInside(px, py, width, height);
    if Index(px, py, width) == Index(x, y, width) {
      IndexInjective(px, py, x, y, width);
    }
  }

  // ----- What a layer and a stack show -----

  /** The colour that a layer paints at a point of the display, if it paints there at all. */
  function Paints(l: Layer, px: nat, py: nat): Option<Pixel>
    requires l.Ok()
  {
    if l.rect.Contains(px, py) then
      var c := At(l.pixels, l.rect.width, l.rect.height, px - l.rect.x, py - l.rect.y);
      if l.transparent == Some(c) then None else Some(c)
    else None
  }

  /** Column `i` and row `j` of a layer are painted that far from its corner, in the colour that its pixels
      have there row by row. */
  lemma {:induction false} PaintsPixel(l: Layer, i: nat, j: nat)
    requires l.Ok() && i < l.rect.width && j < l.rect.height
    ensures j * l.rect.width + i < |l.pixels|
    ensures var c := l.pixels[j * l.rect.width + i];
            Paints(l, l.rect.x + i, l.rect.y + j) == if l.transparent == Some(c) then None else Some(c)
  {
    IndexInside(i, j, l.rect.width, l.rect.height);
  }

  /** Nothing is painted outside the rectangle. */
  lemma {:induction false} PaintsNothingOutside(l: Layer, px: nat, py: nat)
    requires l.Ok()
    requires px < l.rect.x || px >= l.rect.x + l.rect.width || py < l.rect.y || py >= l.rect.y + l.rect.height
    ensures Paints(l, px, py) == None
  {
  }

  predicate AllOk(ls: seq<Layer>) {
    forall i :: 0 <= i < |ls| ==> ls[i].Ok()
  }

  /** The colour seen at a point: that of the topmost layer painting there.  The last layer is on top. */
  function Visible(ls: seq<Layer>, px: nat, py: nat): Option<Pixel>
    requires AllOk(ls)
  {
    if ls == [] then None
    else if Paints(ls[|ls| - 1], px, py).Some? then Paints(ls[|ls| - 1], px, py)
    else Visible(ls[..|ls| - 1], px, py)
  }

  lemma {:induction false} VisibleConcat(a: seq<Layer>, b: seq<Layer>, px: nat, py: nat)
    requires AllOk(a) && AllOk(b)
    ensures AllOk(a + b)
    ensures Visible(a + b, px, py) == if Visible(b, px, py).Some? then Visible(b, px, py) else Visible(a, px, py)
  {
    if b == [] {
      assert a + b == a;
    } else {
      assert (a + b)[..|a + b| - 1] == a + b[..|b| - 1];
      VisibleConcat(a, b[..|b| - 1], px, py);
    }
  }

  /** Layer `k` paints the point in this colour, and no layer above it paints there. */
  predicate TopAt(ls: seq<Layer>, k: nat, px: nat, py: nat, c: Pixel)
    requires AllOk(ls)
  {
    k < |ls| && Paints(ls[k], px, py) == Some(c) && forall m :: k < m < |ls| ==> Paints(ls[m], px, py).None?
  }

  /** What is seen at a point is what the topmost layer painting there paints, and nothing if none does. */
  lemma {:induction false} VisibleIsTop(ls: seq<Layer>, px: nat, py: nat)
    requires AllOk(ls)
    ensures forall k: nat, c: Pixel :: TopAt(ls, k, px, py, c) ==> Visible(ls, px, py) == Some(c)
    ensures Visible(ls, px, py) == None <==> forall m :: 0 <= m < |ls| ==> Paints(ls[m], px, py).None?
  {
    if ls != [] {
      var n := |ls| - 1;
      VisibleIsTop(ls[..n], px, py);
      forall k: nat, c: Pixel | TopAt(ls, k, px, py, c) ensures Visible(ls, px, py) == Some(c) {
        assert k < n ==> TopAt(ls[..n], k, px, py, c);
      }
      assert Paints(ls[n], px, py).None? ==> forall m :: 0 <= m < n ==> ls[..n][m] == ls[m];
    }
  }

  lemma {:induction false} VisibleFromTop(ls: seq<Layer>, k: nat, px: nat, py: nat, c: Pixel)
    requires AllOk(ls) && TopAt(ls, k, px, py, c)
    ensures Visible(ls[k..], px, py) == Some(c)
  {
    assert forall m :: 0 <= m < |ls| - k ==> ls[k..][m] == ls[k + m];
    assert TopAt(ls[k..], 0, px, py, c);
    VisibleIsTop(ls[k..], px, py);
  }

  lemma {:induction false} VisibleOne(l: Layer, px: nat, py: nat)
    requires l.Ok()
    ensures Visible([l], px, py) == Paints(l, px, py)
  {
  }

  lemma {:induction false} VisibleAbove(bottom: Layer, ls: seq<Layer>, px: nat, py: nat)
    requires bottom.Ok() && AllOk(ls) && Paints(bottom, px, py).Some?
    ensures AllOk([bottom] + ls) && Visible([bottom] + ls, px, py).Some?
  {
    VisibleOne(bottom, px, py);
    VisibleConcat([bottom], ls, px, py);
  }

  // ----- What an incremental update leaves on the screen -----

  /** The pixel that `update` leaves where `before` was: whatever the updated layer or one above it
      paints; failing that, inside the previous rectangle, what the layers below paint. */
  function Repainted(below: seq<Layer>, fromUpdated: seq<Layer>, prev: Rect, before: Pixel, px: nat, py: nat): Pixel
    requires AllOk(below) && AllOk(fromUpdated)
  {
    if Visible(fromUpdated, px, py).Some? then Visible(fromUpdated, px, py).value
    else if prev.Contains(px, py) then Visible(below, px, py).GetOr(before)
    else before
  }

  /** `update` shows the whole stack at a point exactly when no stale pixel was there: inside the
      previous rectangle, or under the updated layer or one above it, anything will do; elsewhere the
      layers below must have been showing already. */
  lemma {:induction false} RepaintedIff(below: seq<Layer>, fromUpdated: seq<Layer>, prev: Rect, before: Pixel, px: nat, py: nat)
    requires AllOk(below) && AllOk(fromUpdated) && Visible(below, px, py).Some?
    ensures AllOk(below + fromUpdated)
    ensures Some(Repainted(below, fromUpdated, prev, before, px, py)) == Visible(below + fromUpdated, px, py)
            <==> prev.Contains(px, py) || Visible(fromUpdated, px, py).Some? || Some(before) == Visible(below, px, py)
  {
    VisibleConcat(below, fromUpdated, px, py);
  }

  /** Incremental redraw equals full repaint.  If the screen showed the other layers, in their order,
      everywhere outside the rectangle where the updated layer last was, then afterwards it shows the
      whole stack: for any new position, height, contents and transparency of that layer. */
  lemma {:induction false} RedrawIsRepaint(below: seq<Layer>, updated: Layer, above: seq<Layer>, prev: Rect, before: Pixel, px: nat, py: nat)
    requires AllOk(below) && AllOk(above) && updated.Ok()
    requires below != [] && Paints(below[0], px, py).Some?
    requires AllOk(below + above) && (!prev.Contains(px, py) ==> Some(before) == Visible(below + above, px, py))
    ensures AllOk(below + ([updated] + above))
    ensures Some(Repainted(below, [updated] + above, prev, before, px, py)) == Visible(below + ([updated] + above), px, py)
  {
    VisibleConcat(below, above, px, py);
    VisibleConcat([updated], above, px, py);
    assert below == [below[0]] + below[1..];
    VisibleAbove(below[0], below[1..], px, py);
    RepaintedIff(below, [updated] + above, prev, before, px, py);
  }
}
