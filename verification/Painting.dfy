/** Transferring one layer to the display, pixel by pixel, inside a rectangle. */
module Painting {
  import opened Basics
  import opened Compositing

  /** The point is inside `r`, and the layer paints it. */
  predicate Reached(l: Layer, r: Rect, px: nat, py: nat)
    requires l.Ok()
  {
    r.Contains(px, py) && Paints(l, px, py).Some?
  }

  /** Row-by-row order: the point comes before `(cx, cy)`. */
  predicate Before(px: nat, py: nat, cx: nat, cy: nat) {
    py < cy || (py == cy && px < cx)
  }

  function PixelAfter(before: seq<Pixel>, width: nat, height: nat, l: Layer, r: Rect, px: nat, py: nat): Pixel
    requires IsFrame(before, width, height) && l.Ok() && px < width && py < height
  {
    if Reached(l, r, px, py) then Paints(l, px, py).value else At(before, width, height, px, py)
  }

  /** `after` is `before` with the part of `l` inside `r` painted over it. */
  ghost predicate Painted(before: seq<Pixel>, after: seq<Pixel>, width: nat, height: nat, l: Layer, r: Rect)
    requires IsFrame(before, width, height) && IsFrame(after, width, height) && l.Ok()
  {
    forall px: nat, py: nat :: px < width && py < height ==>
      At(after, width, height, px, py) == PixelAfter(before, width, height, l, r, px, py)
  }

  /** The same as far as the points before `(cx, cy)`; the others are still as they were. */
  ghost predicate PaintedUpTo(before: seq<Pixel>, after: seq<Pixel>, width: nat, height: nat, l: Layer, r: Rect, cx: nat, cy: nat)
    requires IsFrame(before, width, height) && IsFrame(after, width, height) && l.Ok()
  {
    forall px: nat, py: nat :: px < width && py < height ==>
      At(after, width, height, px, py) ==
      if Before(px, py, cx, cy) then PixelAfter(before, width, height, l, r, px, py) else At(before, width, height, px, py)
  }

  /** Skipping points that are not reached. */
  lemma {:induction false} PaintedSkips(before: seq<Pixel>, after: seq<Pixel>, width: nat, height: nat, l: Layer, r: Rect,
                                        cx: nat, cy: nat, cx': nat, cy': nat)
    requires IsFrame(before, width, height) && IsFrame(after, width, height) && l.Ok()
    requires PaintedUpTo(before, after, width, height, l, r, cx, cy)
    requires forall px: nat, py: nat :: px < width && py < height && Reached(l, r, px, py) ==>
               (Before(px, py, cx', cy') <==> Before(px, py, cx, cy))
    ensures PaintedUpTo(before, after, width, height, l, r, cx', cy')
  {
  }

  /** Drawing the next reached pixel. */
  lemma {:induction false} PaintedDraws(before: seq<Pixel>, after: seq<Pixel>, width: nat, height: nat, l: Layer, r: Rect, cx: nat, cy: nat)
    requires IsFrame(before, width, height) && IsFrame(after, width, height) && l.Ok()
    requires PaintedUpTo(before, after, width, height, l, r, cx, cy)
    requires cx < width && cy < height && Reached(l, r, cx, cy)
    ensures Index(cx, cy, width) < |after|
    ensures PaintedUpTo(before, after[Index(cx, cy, width) := Paints(l, cx, cy).value], width, height, l, r, cx + 1, cy)
  {
    var c, next := Paints(l, cx, cy).value, cx + 1;
    AtDrawn(after, width, height, cx, cy, c, cx, cy);
    var after' := after[Index(cx, cy, width) := c];
    forall px: nat, py: nat | px < width && py < height
      ensures At(after', width, height, px, py) ==
              if Before(px, py, next, cy) then PixelAfter(before, width, height, l, r, px, py) else At(before, width, height, px, py)
    {
      AtDrawn(after, width, height, cx, cy, c, px, py);
      assert At(after, width, height, px, py) ==
             if Before(px, py, cx, cy) then PixelAfter(before, width, height, l, r, px, py) else At(before, width, height, px, py);
    }
  }

  // ----- The same by index -----

  /** The pixel of column `i` and row `j` of the layer has gone to its place in the buffer, unless it has
      the see-through colour. */
  ghost predicate PixelMoved(before: seq<Pixel>, after: seq<Pixel>, width: nat, l: Layer, i: nat, j: nat) {
    var at, from := (l.rect.y + j) * width + (l.rect.x + i), j * l.rect.width + i;
    && at < |before| && at < |after| && from < |l.pixels|
    && after[at] == if l.transparent == Some(l.pixels[from]) then before[at] else l.pixels[from]
  }

  ghost predicate PixelKept(before: seq<Pixel>, after: seq<Pixel>, width: nat, px: nat, py: nat) {
    var at := py * width + px;
    at < |before| && at < |after| && after[at] == before[at]
  }

  /** Column `px` and row `py` are inside the rectangle. */
  predicate Within(r: Rect, px: nat, py: nat) {
    r.x <= px && px < r.x + r.width && r.y <= py && py < r.y + r.height
  }

  /** What a transfer does, by column, row and index. */
  ghost predicate Transferred(before: seq<Pixel>, after: seq<Pixel>, width: nat, height: nat, l: Layer, r: Rect) {
    && (forall i: nat, j: nat ::
          i < l.rect.width && j < l.rect.height && Within(r, l.rect.x + i, l.rect.y + j)
          && l.rect.x + i < width && l.rect.y + j < height ==>
            PixelMoved(before, after, width, l, i, j))
    && (forall px: nat, py: nat ::
          px < width && py < height && !(Within(l.rect, px, py) && Within(r, px, py)) ==>
            PixelKept(before, after, width, px, py))
  }

  lemma {:induction false} PaintedIsTransferred(before: seq<Pixel>, after: seq<Pixel>, width: nat, height: nat, l: Layer, r: Rect)
    requires IsFrame(before, width, height) && IsFrame(after, width, height) && l.Ok()
    requires Painted(before, after, width, height, l, r)
    ensures Transferred(before, after, width, height, l, r)
  {
    forall i: nat, j: nat | i < l.rect.width && j < l.rect.height && Within(r, l.rect.x + i, l.rect.y + j)
                            && l.rect.x + i < width && l.rect.y + j < height
      ensures PixelMoved(before, after, width, l, i, j)
    {
      MovedPixel(before, after, width, height, l, r, i, j);
    }
    forall px: nat, py: nat | px < width && py < height && !(Within(l.rect, px, py) && Within(r, px, py))
      ensures PixelKept(before, after, width, px, py)
    {
      KeptPixel(before, after, width, height, l, r, px, py);
    }
  }

  lemma {:induction false} MovedPixel(before: seq<Pixel>, after: seq<Pixel>, width: nat, height: nat, l: Layer, r: Rect, i: nat, j: nat)
    requires IsFrame(before, width, height) && IsFrame(after, width, height) && l.Ok()
    requires Painted(before, after, width, height, l, r)
    requires i < l.rect.width && j < l.rect.height && Within(r, l.rect.x + i, l.rect.y + j)
    requires l.rect.x + i < width && l.rect.y + j < height
    ensures PixelMoved(before, after, width, l, i, j)
  {
    var px, py := l.rect.x + i, l.rect.y + j;
    PaintsPixel(l, i, j);
    IndexInside(px, py, width, height);
    assert At(after, width, height, px, py) == PixelAfter(before, width, height, l, r, px, py);
  }

  lemma {:induction false} KeptPixel(before: seq<Pixel>, after: seq<Pixel>, width: nat, height: nat, l: Layer, r: Rect, px: nat, py: nat)
    requires IsFrame(before, width, height) && IsFrame(after, width, height) && l.Ok()
    requires Painted(before, after, width, height, l, r)
    requires px < width && py < height && !(Within(l.rect, px, py) && Within(r, px, py))
    ensures PixelKept(before, after, width, px, py)
  {
    IndexInside(px, py, width, height);
    assert At(after, width, height, px, py) == PixelAfter(before, width, height, l, r, px, py);
    if !Within(l.rect, px, py) {
      PaintsNothingOutside(l, px, py);
    }
  }

  /** A display, or any other frame buffer. */
  class FrameBuffer {
    const width: nat
    const height: nat
    const buffer: array<Pixel>

    ghost predicate Valid()
      reads this
    {
      buffer.Length == width * height
    }

    constructor (width: nat, height: nat)
      ensures Valid() && this.width == width && this.height == height && fresh(buffer)
      ensures forall i :: 0 <= i < buffer.Length ==> buffer[i] == 0
    {
      this.width, this.height := width, height;
      this.buffer := new Pixel[width * height](_ => 0);
    }

    method DrawAt(x: nat, y: nat, pixel: Pixel)
      requires Valid() && x < width && y < height
      modifies buffer
      ensures Index(x, y, width) < buffer.Length && buffer[..] == old(buffer[..])[Index(x, y, width) := pixel]
    {
      IndexInside(x, y, width, height);
      buffer[y * width + x] := pixel;
    }

    /** `transfer_buffer_range`: paints the part of a layer that lies inside `r` and the display. */
    method Transfer(l: Layer, r: Rect)
      requires Valid() && l.Ok()
      modifies buffer
      ensures Painted(old(buffer[..]), buffer[..], width, height, l, r)
      ensures Transferred(old(buffer[..]), buffer[..], width, height, l, r)
    {
      TransferRows(l, r);
      PaintedIsTransferred(old(buffer[..]), buffer[..], width, height, l, r);
    }

    /** Its outer loop. */
    method TransferRows(l: Layer, r: Rect)
      requires Valid() && l.Ok()
      modifies buffer
      ensures Painted(old(buffer[..]), buffer[..], width, height, l, r)
    {
      var xStart, xEnd := Max(r.x, l.rect.x), Min(r.x + r.width, Min(l.rect.x + l.rect.width, width));
      var yStart, yEnd := Max(r.y, l.rect.y), Min(r.y + r.height, Min(l.rect.y + l.rect.height, height));
      ghost var before := buffer[..];
      var y := yStart;
      while y < yEnd
        invariant PaintedUpTo(before, buffer[..], width, height, l, r, 0, y)
      {
        TransferRow(l, r, xStart, xEnd, y, before);
        y := y + 1;
      }
      assert PaintedUpTo(before, buffer[..], width, height, l, r, 0, y);
      forall px: nat, py: nat | px < width && py < height
        ensures At(buffer[..], width, height, px, py) == PixelAfter(before, width, height, l, r, px, py)
      {
        assert Reached(l, r, px, py) ==> py < yEnd;
      }
    }

    /** The inner loop: one row, with or without a see-through colour. */
    method TransferRow(l: Layer, r: Rect, xStart: nat, xEnd: nat, y: nat, ghost before: seq<Pixel>)
      requires Valid() && l.Ok() && IsFrame(before, width, height) && y < height
      requires xStart == Max(r.x, l.rect.x) && xEnd == Min(r.x + r.width, Min(l.rect.x + l.rect.width, width))
      requires r.y <= y < r.y + r.height && l.rect.y <= y < l.rect.y + l.rect.height
      requires PaintedUpTo(before, buffer[..], width, height, l, r, 0, y)
      modifies buffer
      ensures PaintedUpTo(before, buffer[..], width, height, l, r, 0, y + 1)
    {
      var x := xStart;
      PaintedSkips(before, buffer[..], width, height, l, r, 0, y, x, y);
      while x < xEnd
        invariant xStart <= x
        invariant PaintedUpTo(before, buffer[..], width, height, l, r, x, y)
      {
        IndexInside(x - l.rect.x, y - l.rect.y, l.rect.width, l.rect.height);
        var pixel := l.pixels[(y - l.rect.y) * l.rect.width + (x - l.rect.x)];
        if l.transparent.Some? && pixel == l.transparent.value {
          PaintedSkips(before, buffer[..], width, height, l, r, x, y, x + 1, y);
        } else {
          PaintedDraws(before, buffer[..], width, height, l, r, x, y);
          DrawAt(x, y, pixel);
        }
        x := x + 1;
      }
      PaintedSkips(before, buffer[..], width, height, l, r, x, y, 0, y + 1);
    }
  }
}
