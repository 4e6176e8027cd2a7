/** The window system as a whole (src/graphics.rs): layers, their stacking order, and the screen.

    A `Scene` is one snapshot.  `Updates` says what `update` does to it, and the theorems say when the
    screen shows the stack of layers afterwards. */
module Scenes {
  import opened Basics
  import opened Compositing

  const TITLE_BAR_HEIGHT: nat := 30

  datatype Scene = Scene(
    width: nat,
    height: nat,
    layers: map<LayerId, Layer>,
    stack: seq<LayerId>,
    windows: set<LayerId>,
    mouse: LayerId,
    desktop: LayerId,
    currId: LayerId,
    pressedId: LayerId,
    pressedX: nat,
    pressedY: nat,
    screen: seq<Pixel>)

  // ----- The layer stack -----

  /** The position of `id`, or the length of the stack if it is not in it. */
  function IndexOf(stack: seq<LayerId>, id: LayerId): (i: nat)
    ensures i <= |stack| && (i < |stack| <==> id in stack) && (i < |stack| ==> stack[i] == id)
    ensures id !in stack[..i]
  {
    if stack == [] || stack[0] == id then 0
    else
      assert forall j :: 0 < j < |stack| ==> stack[j] == stack[1..][j - 1];
      1 + IndexOf(stack[1..], id)
  }

  /** The other layers, in order. */
  function Without(stack: seq<LayerId>, id: LayerId): seq<LayerId> {
    var i := IndexOf(stack, id);
    if i < |stack| then stack[..i] + stack[i + 1..] else stack
  }

  /** The stack after `move_layer`, or nothing if `Vec::insert` is out of range. */
  function Restacked(stack: seq<LayerId>, id: LayerId, newHeight: int): Option<seq<LayerId>> {
    if newHeight < 0 then Some(Without(stack, id))
    else
      var h := if newHeight > |stack| then |stack| else newHeight;
      var others := Without(stack, id);
      if h > |others| then None else Some(others[..h] + [id] + others[h..])
  }

  predicate NoDuplicates(stack: seq<LayerId>) {
    forall i, j :: 0 <= i < j < |stack| ==> stack[i] != stack[j]
  }

  lemma {:induction false} IndexIsFirst(stack: seq<LayerId>, id: LayerId, i: nat)
    requires i < |stack| && stack[i] == id && id !in stack[..i]
    ensures IndexOf(stack, id) == i
  {
    if i > 0 {
      assert stack[..i][0] == stack[0];
      assert stack[1..][..i - 1] == stack[..i][1..];
      IndexIsFirst(stack[1..], id, i - 1);
    }
  }

  lemma {:induction false} WithoutAt(stack: seq<LayerId>, id: LayerId, j: nat)
    requires j < |Without(stack, id)|
    ensures var k := if j < IndexOf(stack, id) then j else j + 1;
            k < |stack| && Without(stack, id)[j] == stack[k]
  {
  }

  lemma {:induction false} WithoutMember(stack: seq<LayerId>, id: LayerId)
    requires NoDuplicates(stack)
    ensures id !in Without(stack, id) && NoDuplicates(Without(stack, id))
  {
    var w, i := Without(stack, id), IndexOf(stack, id);
    forall j | 0 <= j < |w| ensures w[j] != id {
      WithoutAt(stack, id, j);
    }
    forall j, k | 0 <= j < k < |w| ensures w[j] != w[k] {
      WithoutAt(stack, id, j);
      WithoutAt(stack, id, k);
    }
  }

  lemma {:induction false} WithoutOthers(stack: seq<LayerId>, id: LayerId, other: LayerId)
    requires other != id
    ensures other in Without(stack, id) <==> other in stack
  {
    var i := IndexOf(stack, id);
    if i < |stack| {
      assert stack == stack[..i] + ([id] + stack[i + 1..]);
    }
  }

  /** `move_layer` panics exactly when the layer is in the stack already and is moved to or beyond
      the top of it. */
  lemma {:induction false} RestackPanicsIff(stack: seq<LayerId>, id: LayerId, newHeight: int)
    ensures Restacked(stack, id, newHeight).None? <==> id in stack && newHeight >= |stack|
  {
  }

  /** A negative height takes the layer out, and leaves the others in their order. */
  lemma {:induction false} RestackHides(stack: seq<LayerId>, id: LayerId, newHeight: int)
    requires NoDuplicates(stack) && newHeight < 0
    ensures Restacked(stack, id, newHeight) == Some(Without(stack, id)) && id !in Without(stack, id)
  {
    WithoutMember(stack, id);
  }

  lemma {:induction false} InsertedAt(others: seq<LayerId>, id: LayerId, h: nat)
    requires id !in others && h <= |others|
    ensures var s := others[..h] + [id] + others[h..];
            IndexOf(s, id) == h && Without(s, id) == others
  {
    var s := others[..h] + [id] + others[h..];
    assert s[h] == id && s[..h] == others[..h];
    IndexIsFirst(s, id, h);
    assert others == others[..h] + others[h..];
  }

  /** A moved layer ends at the height asked for (or on top), and the others keep their order. */
  lemma {:induction false} RestackPlaces(stack: seq<LayerId>, id: LayerId, newHeight: int)
    requires NoDuplicates(stack) && newHeight >= 0 && Restacked(stack, id, newHeight).Some?
    ensures var s := Restacked(stack, id, newHeight).value;
            && IndexOf(s, id) == (if newHeight > |stack| then |stack| else newHeight)
            && Without(s, id) == Without(stack, id)
            && NoDuplicates(s)
  {
    var h := if newHeight > |stack| then |stack| else newHeight;
    WithoutMember(stack, id);
    InsertedAt(Without(stack, id), id, h);
    InsertedDistinct(Without(stack, id), id, h);
  }

  lemma {:induction false} InsertedDistinct(others: seq<LayerId>, id: LayerId, h: nat)
    requires id !in others && h <= |others| && NoDuplicates(others)
    ensures NoDuplicates(others[..h] + [id] + others[h..])
  {
    var s := others[..h] + [id] + others[h..];
    forall i, j | 0 <= i < j < |s| ensures s[i] != s[j] {
      assert s[i] == if i < h then others[i] else if i == h then id else others[i - 1];
      assert s[j] == if j < h then others[j] else if j == h then id else others[j - 1];
    }
  }

  // ----- What the stack shows -----

  predicate Known(layers: map<LayerId, Layer>, stack: seq<LayerId>) {
    forall i :: 0 <= i < |stack| ==> stack[i] in layers
  }

  function LayersOf(layers: map<LayerId, Layer>, stack: seq<LayerId>): (ls: seq<Layer>)
    requires Known(layers, stack)
    ensures |ls| == |stack| && forall i :: 0 <= i < |stack| ==> ls[i] == layers[stack[i]]
  {
    seq(|stack|, i requires 0 <= i < |stack| => layers[stack[i]])
  }

  ghost predicate LayersOk(layers: map<LayerId, Layer>) {
    forall id :: id in layers ==> layers[id].Ok()
  }

  /** The scene is complete enough to ask what it shows. */
  ghost predicate Whole(s: Scene) {
    IsFrame(s.screen, s.width, s.height) && Known(s.layers, s.stack) && LayersOk(s.layers)
  }

  /** At this point the screen shows the stack. */
  ghost predicate ShownAt(s: Scene, px: nat, py: nat)
    requires Whole(s) && px < s.width && py < s.height
  {
    Some(At(s.screen, s.width, s.height, px, py)) == Visible(LayersOf(s.layers, s.stack), px, py)
  }

  /** The screen shows the stack at every point. */
  ghost predicate Shows(s: Scene)
    requires Whole(s)
  {
    forall px: nat, py: nat :: px < s.width && py < s.height ==> ShownAt(s, px, py)
  }

  // ----- The invariants -----

  /** No duplicates, the desktop at the bottom, the mouse on top, and every id known. */
  ghost predicate Stacked(s: Scene) {
    && NoDuplicates(s.stack) && |s.stack| >= 2
    && s.stack[0] == s.desktop && s.stack[|s.stack| - 1] == s.mouse
    && Known(s.layers, s.stack) && LayersOk(s.layers)
    && s.windows == s.layers.Keys - {s.mouse, s.desktop}
    && s.mouse in s.layers && s.desktop in s.layers
    && (forall id :: id in s.layers ==> id < s.currId)
    && s.pressedId in s.layers
    && IsFrame(s.screen, s.width, s.height)
  }

  /** The desktop is opaque and covers the display. */
  ghost predicate Covered(s: Scene)
    requires s.desktop in s.layers
  {
    s.layers[s.desktop].rect == Rect(0, 0, s.width, s.height) && s.layers[s.desktop].transparent == None
  }

  /** Every shown window is where it last was updated. */
  ghost predicate WindowsRecorded(s: Scene)
    requires Known(s.layers, s.stack)
  {
    forall i :: 0 < i < |s.stack| && s.stack[i] != s.mouse ==> s.layers[s.stack[i]].prev == s.layers[s.stack[i]].rect
  }

  /** What holds whatever the pointer does. */
  ghost predicate Kept(s: Scene) {
    Stacked(s) && Covered(s) && WindowsRecorded(s)
  }

  /** The screen shows the stack, and every shown layer, the mouse included, is where it last was updated. */
  ghost predicate Synced(s: Scene) {
    Kept(s) && Shows(s) && s.layers[s.mouse].prev == s.layers[s.mouse].rect
  }

  // ----- `update` -----

  /** The layers below this index are only repaired inside the previous rectangle. */
  function SplitIndex(stack: seq<LayerId>, id: LayerId): (k: nat)
    ensures k <= |stack|
  {
    if id in stack then IndexOf(stack, id) else if stack == [] then 0 else 1
  }

  ghost predicate ScreenUpdated(s: Scene, id: LayerId, screen: seq<Pixel>)
    requires id in s.layers && Known(s.layers, s.stack) && LayersOk(s.layers)
    requires IsFrame(s.screen, s.width, s.height) && IsFrame(screen, s.width, s.height)
  {
    var ls, k := LayersOf(s.layers, s.stack), SplitIndex(s.stack, id);
    forall px: nat, py: nat :: px < s.width && py < s.height ==>
      At(screen, s.width, s.height, px, py) ==
      Repainted(ls[..k], ls[k..], s.layers[id].prev, At(s.screen, s.width, s.height, px, py), px, py)
  }

  function Recorded(s: Scene, id: LayerId): Scene
    requires id in s.layers
  {
    if id in s.stack then s.(layers := s.layers[id := s.layers[id].(prev := s.layers[id].rect)]) else s
  }

  ghost predicate Updates(s: Scene, id: LayerId, s': Scene)
    requires id in s.layers && Known(s.layers, s.stack) && LayersOk(s.layers) && IsFrame(s.screen, s.width, s.height)
  {
    && IsFrame(s'.screen, s.width, s.height)
    && ScreenUpdated(s, id, s'.screen)
    && s' == Recorded(s, id).(screen := s'.screen)
  }

  /** `s` is `s0` with layer `id` moved, redrawn or restacked, and not yet updated. */
  ghost predicate Altered(s0: Scene, s: Scene, id: LayerId) {
    && id in s0.layers && id in s.layers && id != s0.desktop
    && s.layers == s0.layers[id := s.layers[id]] && s.layers[id].prev == s0.layers[id].prev
    && Without(s.stack, id) == Without(s0.stack, id)
    && s.screen == s0.screen && s.width == s0.width && s.height == s0.height
    && s.desktop == s0.desktop && s.mouse == s0.mouse
  }

  lemma {:induction false} InvisibleLayer(a: seq<Layer>, l: Layer, b: seq<Layer>, px: nat, py: nat)
    requires AllOk(a) && AllOk(b) && l.Ok() && Paints(l, px, py).None?
    ensures AllOk(a + ([l] + b)) && AllOk(a + b) && Visible(a + ([l] + b), px, py) == Visible(a + b, px, py)
  {
    VisibleOne(l, px, py);
    VisibleConcat([l], b, px, py);
    VisibleConcat(a, [l] + b, px, py);
    VisibleConcat(a, b, px, py);
  }

  lemma {:induction false} KnownWithout(layers: map<LayerId, Layer>, stack: seq<LayerId>, id: LayerId)
    requires Known(layers, stack)
    ensures Known(layers, Without(stack, id))
  {
    forall j | 0 <= j < |Without(stack, id)| ensures Without(stack, id)[j] in layers {
      WithoutAt(stack, id, j);
    }
  }

  lemma {:induction false} LayersWithout(layers: map<LayerId, Layer>, stack: seq<LayerId>, id: LayerId)
    requires Known(layers, stack) && id in stack && Known(layers, Without(stack, id))
    ensures var ls, i := LayersOf(layers, stack), IndexOf(stack, id);
            LayersOf(layers, Without(stack, id)) == ls[..i] + ls[i + 1..]
  {
    LayersAround(layers, stack, IndexOf(stack, id));
  }

  lemma {:induction false} LayersAround(layers: map<LayerId, Layer>, stack: seq<LayerId>, i: nat)
    requires Known(layers, stack) && i < |stack| && Known(layers, stack[..i] + stack[i + 1..])
    ensures LayersOf(layers, stack[..i] + stack[i + 1..]) == LayersOf(layers, stack)[..i] + LayersOf(layers, stack)[i + 1..]
  {
    LayersSlice(layers, stack, 0, i);
    LayersSlice(layers, stack, i + 1, |stack|);
    LayersConcat(layers, stack[..i], stack[i + 1..]);
  }

  lemma {:induction false} LayersSlice(layers: map<LayerId, Layer>, stack: seq<LayerId>, lo: nat, hi: nat)
    requires Known(layers, stack) && lo <= hi <= |stack|
    ensures Known(layers, stack[lo..hi]) && LayersOf(layers, stack[lo..hi]) == LayersOf(layers, stack)[lo..hi]
    ensures lo == 0 ==> stack[..hi] == stack[lo..hi]
    ensures hi == |stack| ==> stack[lo..] == stack[lo..hi]
  {
  }

  lemma {:induction false} LayersConcat(layers: map<LayerId, Layer>, a: seq<LayerId>, b: seq<LayerId>)
    requires Known(layers, a) && Known(layers, b) && Known(layers, a + b)
    ensures LayersOf(layers, a + b) == LayersOf(layers, a) + LayersOf(layers, b)
  {
  }

  lemma {:induction false} SplitLayers(layers: map<LayerId, Layer>, stack: seq<LayerId>, id: LayerId)
    requires Known(layers, stack) && id in stack
    ensures id in layers
    ensures var ls, i := LayersOf(layers, stack), IndexOf(stack, id);
            ls == ls[..i] + ([layers[id]] + ls[i + 1..])
  {
    var ls, i := LayersOf(layers, stack), IndexOf(stack, id);
    assert ls[i] == layers[id];
  }

  lemma {:induction false} SameLayersWithout(layers: map<LayerId, Layer>, layers': map<LayerId, Layer>, stack: seq<LayerId>, id: LayerId)
    requires Known(layers, stack) && id !in stack && id in layers' && layers' == layers[id := layers'[id]]
    ensures Known(layers', stack) && LayersOf(layers', stack) == LayersOf(layers, stack)
  {
    forall i | 0 <= i < |stack| ensures stack[i] in layers' && layers'[stack[i]] == layers[stack[i]] {
      assert stack[i] in stack;
    }
  }

  /** Where `id` paints nothing, the stack shows what the other layers show. */
  lemma {:induction false} VisibleWithout(layers: map<LayerId, Layer>, stack: seq<LayerId>, id: LayerId, px: nat, py: nat)
    requires Known(layers, stack) && LayersOk(layers) && id in layers && Paints(layers[id], px, py).None?
    ensures Known(layers, Without(stack, id))
    ensures Visible(LayersOf(layers, Without(stack, id)), px, py) == Visible(LayersOf(layers, stack), px, py)
  {
    KnownWithout(layers, stack, id);
    if id in stack {
      VisibleWithoutMember(layers, stack, id, px, py);
    } else {
      assert Without(stack, id) == stack;
    }
  }

  lemma {:induction false} VisibleWithoutMember(layers: map<LayerId, Layer>, stack: seq<LayerId>, id: LayerId, px: nat, py: nat)
    requires Known(layers, stack) && LayersOk(layers) && id in stack && id in layers && Paints(layers[id], px, py).None?
    requires Known(layers, Without(stack, id))
    ensures Visible(LayersOf(layers, Without(stack, id)), px, py) == Visible(LayersOf(layers, stack), px, py)
  {
    SplitLayers(layers, stack, id);
    LayersWithout(layers, stack, id);
    InvisibleAt(LayersOf(layers, stack), LayersOf(layers, Without(stack, id)), layers[id], IndexOf(stack, id), px, py);
  }

  lemma {:induction false} InvisibleAt(ls: seq<Layer>, others: seq<Layer>, l: Layer, i: nat, px: nat, py: nat)
    requires i < |ls| && ls == ls[..i] + ([l] + ls[i + 1..]) && others == ls[..i] + ls[i + 1..]
    requires AllOk(ls) && AllOk(others) && l.Ok() && Paints(l, px, py).None?
    ensures Visible(others, px, py) == Visible(ls, px, py)
  {
    InvisibleLayer(ls[..i], l, ls[i + 1..], px, py);
  }

  /** Where the screen shows the stack, outside the previous rectangle of `id`, it shows the other layers. */
  lemma {:induction false} OthersShown(s: Scene, id: LayerId, px: nat, py: nat)
    requires Stacked(s) && id in s.layers && px < s.width && py < s.height && ShownAt(s, px, py)
    requires id in s.stack ==> s.layers[id].prev == s.layers[id].rect
    requires !s.layers[id].prev.Contains(px, py)
    ensures Known(s.layers, Without(s.stack, id))
    ensures Some(At(s.screen, s.width, s.height, px, py)) == Visible(LayersOf(s.layers, Without(s.stack, id)), px, py)
  {
    if id in s.stack {
      VisibleWithout(s.layers, s.stack, id, px, py);
    } else {
      assert Without(s.stack, id) == s.stack;
    }
  }

  lemma {:induction false} OthersStillShown(s0: Scene, s: Scene, id: LayerId, px: nat, py: nat)
    requires Stacked(s0) && Altered(s0, s, id) && px < s.width && py < s.height && IsFrame(s.screen, s.width, s.height)
    requires ShownAt(s0, px, py) && (id in s0.stack ==> s0.layers[id].prev == s0.layers[id].rect)
    requires !s.layers[id].prev.Contains(px, py) && LayersOk(s.layers)
    ensures Known(s.layers, Without(s.stack, id))
    ensures Some(At(s.screen, s.width, s.height, px, py)) == Visible(LayersOf(s.layers, Without(s.stack, id)), px, py)
  {
    WithoutMember(s0.stack, id);
    OthersShown(s0, id, px, py);
    SameLayersWithout(s0.layers, s.layers, Without(s0.stack, id), id);
  }

  /** What `update` leaves at a point, if the other layers were shown outside the previous rectangle. */
  lemma {:induction false} ShownUpdatePoint(layers: map<LayerId, Layer>, stack: seq<LayerId>, id: LayerId, before: Pixel, px: nat, py: nat)
    requires Known(layers, stack) && LayersOk(layers) && id in stack && IndexOf(stack, id) > 0
    requires Known(layers, Without(stack, id)) && Paints(LayersOf(layers, stack)[0], px, py).Some?
    requires id in layers && (!layers[id].prev.Contains(px, py) ==>
               Some(before) == Visible(LayersOf(layers, Without(stack, id)), px, py))
    ensures var ls, k := LayersOf(layers, stack), IndexOf(stack, id);
            Some(Repainted(ls[..k], ls[k..], layers[id].prev, before, px, py)) == Visible(ls, px, py)
  {
    var ls, k := LayersOf(layers, stack), IndexOf(stack, id);
    SplitLayers(layers, stack, id);
    LayersWithout(layers, stack, id);
    assert ls[k..] == [layers[id]] + ls[k + 1..];
    RedrawIsRepaint(ls[..k], layers[id], ls[k + 1..], layers[id].prev, before, px, py);
  }

  /** And for a layer that is not in the stack: only what it left behind is repaired. */
  lemma {:induction false} HiddenUpdatePoint(ls: seq<Layer>, prev: Rect, before: Pixel, px: nat, py: nat)
    requires AllOk(ls) && ls != [] && Paints(ls[0], px, py).Some?
    requires !prev.Contains(px, py) ==> Some(before) == Visible(ls, px, py)
    ensures Some(Repainted(ls[..1], ls[1..], prev, before, px, py)) == Visible(ls, px, py)
  {
    assert ls == ls[..1] + ls[1..] && ls[..1] == [ls[0]];
    VisibleOne(ls[0], px, py);
    VisibleConcat(ls[..1], ls[1..], px, py);
    RepaintedIff(ls[..1], ls[1..], prev, before, px, py);
  }

  /** What `update` paints at a point. */
  function UpdatedPixel(s: Scene, id: LayerId, px: nat, py: nat): Pixel
    requires Whole(s) && id in s.layers && px < s.width && py < s.height
  {
    var ls, k := LayersOf(s.layers, s.stack), SplitIndex(s.stack, id);
    Repainted(ls[..k], ls[k..], s.layers[id].prev, At(s.screen, s.width, s.height, px, py), px, py)
  }

  /** The point is inside the previous rectangle, or the updated layer or one above it paints there. */
  predicate Repaints(s: Scene, id: LayerId, px: nat, py: nat)
    requires Known(s.layers, s.stack) && (forall i :: i in s.layers ==> s.layers[i].Ok()) && id in s.layers
  {
    s.layers[id].prev.Contains(px, py) || Visible(LayersOf(s.layers, s.stack)[SplitIndex(s.stack, id)..], px, py).Some?
  }

  /** If the stack was shown at a point before the change, `update` shows it there again. */
  lemma {:induction false} UpdateShowsPoint(s0: Scene, s: Scene, id: LayerId, px: nat, py: nat)
    requires Stacked(s0) && Stacked(s) && Covered(s) && Altered(s0, s, id) && px < s.width && py < s.height
    requires ShownAt(s0, px, py) && (id in s0.stack ==> s0.layers[id].prev == s0.layers[id].rect)
    ensures Some(UpdatedPixel(s, id, px, py)) == Visible(LayersOf(s.layers, s.stack), px, py)
  {
    var before := At(s.screen, s.width, s.height, px, py);
    KnownWithout(s.layers, s.stack, id);
    DesktopPaints(s, px, py);
    if !s.layers[id].prev.Contains(px, py) {
      OthersStillShown(s0, s, id, px, py);
    }
    if id in s.stack {
      ShownUpdatePoint(s.layers, s.stack, id, before, px, py);
    } else {
      assert Without(s.stack, id) == s.stack;
      HiddenUpdatePoint(LayersOf(s.layers, s.stack), s.layers[id].prev, before, px, py);
    }
  }

  /** `update` shows the stack at a point if and only if it repaints there, or the layers below were shown. */
  lemma {:induction false} UpdatePointIff(s: Scene, id: LayerId, px: nat, py: nat)
    requires Stacked(s) && Covered(s) && id in s.layers && id != s.desktop && px < s.width && py < s.height
    ensures var below := LayersOf(s.layers, s.stack)[..SplitIndex(s.stack, id)];
            Some(UpdatedPixel(s, id, px, py)) == Visible(LayersOf(s.layers, s.stack), px, py)
            <==> Repaints(s, id, px, py) || Some(At(s.screen, s.width, s.height, px, py)) == Visible(below, px, py)
  {
    var ls, k := LayersOf(s.layers, s.stack), SplitIndex(s.stack, id);
    DesktopPaints(s, px, py);
    BottomShows(ls, k, px, py);
    RepaintedSplit(ls, k, s.layers[id].prev, At(s.screen, s.width, s.height, px, py), px, py);
  }

  lemma {:induction false} RepaintedSplit(ls: seq<Layer>, k: nat, prev: Rect, before: Pixel, px: nat, py: nat)
    requires AllOk(ls) && k <= |ls| && Visible(ls[..k], px, py).Some?
    ensures Some(Repainted(ls[..k], ls[k..], prev, before, px, py)) == Visible(ls, px, py)
            <==> (prev.Contains(px, py) || Visible(ls[k..], px, py).Some?) || Some(before) == Visible(ls[..k], px, py)
  {
    assert ls == ls[..k] + ls[k..];
    RepaintedIff(ls[..k], ls[k..], prev, before, px, py);
  }

  lemma {:induction false} BottomShows(ls: seq<Layer>, k: nat, px: nat, py: nat)
    requires AllOk(ls) && 0 < k <= |ls| && Paints(ls[0], px, py).Some?
    ensures AllOk(ls[..k]) && Visible(ls[..k], px, py).Some?
  {
    assert ls[..k] == [ls[0]] + ls[1..k];
    VisibleAbove(ls[0], ls[1..k], px, py);
  }

  /** So much of the screen after an `update` as its pixels say. */
  lemma {:induction false} UpdatedShownAt(s: Scene, id: LayerId, s': Scene, px: nat, py: nat)
    requires Whole(s) && id in s.layers && Updates(s, id, s') && px < s.width && py < s.height
    ensures Whole(s')
    ensures ShownAt(s', px, py) <==> Some(UpdatedPixel(s, id, px, py)) == Visible(LayersOf(s.layers, s.stack), px, py)
  {
    RecordedLooksSame(s.layers, s.stack, id, px, py);
  }

  lemma {:induction false} DesktopPaints(s: Scene, px: nat, py: nat)
    requires Stacked(s) && Covered(s) && px < s.width && py < s.height
    ensures Paints(LayersOf(s.layers, s.stack)[0], px, py).Some?
  {
  }

  /** Recording the previous rectangle changes nothing that is painted. */
  lemma {:induction false} RecordedLooksSame(layers: map<LayerId, Layer>, stack: seq<LayerId>, id: LayerId, px: nat, py: nat)
    requires Known(layers, stack) && LayersOk(layers) && id in layers
    ensures var layers' := layers[id := layers[id].(prev := layers[id].rect)];
            && Known(layers', stack) && LayersOk(layers')
            && Visible(LayersOf(layers', stack), px, py) == Visible(LayersOf(layers, stack), px, py)
  {
    var layers' := layers[id := layers[id].(prev := layers[id].rect)];
    if stack != [] {
      var n := |stack| - 1;
      assert LayersOf(layers, stack)[..n] == LayersOf(layers, stack[..n]);
      assert LayersOf(layers', stack)[..n] == LayersOf(layers', stack[..n]);
      RecordedLooksSame(layers, stack[..n], id, px, py);
    }
  }

  /** After any change to one window, updating it makes the screen show the whole stack again. */
  lemma {:induction false} UpdateSyncs(s0: Scene, s: Scene, id: LayerId, s': Scene)
    requires Kept(s0) && Shows(s0) && Stacked(s) && Covered(s) && Altered(s0, s, id) && id != s.mouse && Updates(s, id, s')
    ensures Whole(s') && Shows(s')
  {
    forall px: nat, py: nat | px < s.width && py < s.height
      ensures Whole(s') && ShownAt(s', px, py)
    {
      assert ShownAt(s0, px, py);
      UpdateSyncsAt(s0, s, id, s', px, py);
    }
    RecordedStacked(s, id, s');
  }

  lemma {:induction false} UpdateSyncsAt(s0: Scene, s: Scene, id: LayerId, s': Scene, px: nat, py: nat)
    requires Kept(s0) && Stacked(s) && Covered(s) && Altered(s0, s, id) && id != s.mouse && Updates(s, id, s')
    requires px < s.width && py < s.height && ShownAt(s0, px, py)
    ensures Whole(s') && ShownAt(s', px, py)
  {
    if id in s0.stack {
      WindowRecorded(s0, id);
    }
    UpdateShowsPoint(s0, s, id, px, py);
    UpdatedShownAt(s, id, s', px, py);
  }

  lemma {:induction false} WindowRecorded(s: Scene, id: LayerId)
    requires Kept(s) && id in s.stack && id != s.mouse && id != s.desktop
    ensures s.layers[id].prev == s.layers[id].rect
  {
    var i :| 0 <= i < |s.stack| && s.stack[i] == id;
  }

  lemma {:induction false} RecordedStacked(s: Scene, id: LayerId, s': Scene)
    requires Stacked(s) && Covered(s) && id in s.layers && id != s.desktop && Updates(s, id, s')
    ensures Stacked(s') && Covered(s')
  {
    assert s'.layers.Keys == s.layers.Keys;
  }

  /** Any change to a window and its update keep the shape of the stack, and leave the mouse alone. */
  lemma {:induction false} UpdateKeeps(s0: Scene, s: Scene, id: LayerId, s': Scene)
    requires Kept(s0) && Stacked(s) && Covered(s) && Altered(s0, s, id) && id != s.mouse && Updates(s, id, s')
    ensures Kept(s') && s'.layers[s'.mouse] == s0.layers[s0.mouse]
  {
    RecordedStacked(s, id, s');
    forall i | 0 < i < |s.stack| && s.stack[i] != s.mouse ensures s'.layers[s.stack[i]].prev == s'.layers[s.stack[i]].rect {
      if s.stack[i] != id {
        StillRecorded(s0, s, id, i);
      }
    }
  }

  /** The update of the mouse records it, and keeps everything else. */
  lemma {:induction false} PointerUpdateKeeps(s: Scene, s': Scene)
    requires Kept(s) && s.mouse != s.desktop && Updates(s, s.mouse, s')
    ensures Kept(s') && s'.layers[s'.mouse].prev == s'.layers[s'.mouse].rect
  {
    RecordedStacked(s, s.mouse, s');
    assert s.mouse in s.stack by {
      assert s.stack[|s.stack| - 1] == s.mouse;
    }
    forall i | 0 < i < |s.stack| && s.stack[i] != s.mouse ensures s'.layers[s.stack[i]].prev == s'.layers[s.stack[i]].rect {
      assert s'.layers[s.stack[i]] == s.layers[s.stack[i]];
    }
  }

  lemma {:induction false} StillRecorded(s0: Scene, s: Scene, id: LayerId, i: nat)
    requires Kept(s0) && Stacked(s) && Altered(s0, s, id) && 0 < i < |s.stack| && s.stack[i] != id && s.stack[i] != s.mouse
    ensures s.layers[s.stack[i]].prev == s.layers[s.stack[i]].rect
  {
    var other := s.stack[i];
    assert other in s.stack;
    WithoutOthers(s.stack, id, other);
    WithoutOthers(s0.stack, id, other);
    assert s.stack[0] != s.stack[i];
    WindowRecorded(s0, other);
  }

  // ----- What is seen, by index -----

  /** Column `i` and row `j` of layer `k` of the stack are on the display, not see-through, and under no
      layer above. */
  ghost predicate InSight(s: Scene, k: nat, i: nat, j: nat)
    requires Whole(s)
  {
    k < |s.stack| &&
    var l := s.layers[s.stack[k]];
    && i < l.rect.width && j < l.rect.height && l.rect.x + i < s.width && l.rect.y + j < s.height
    && j * l.rect.width + i < |l.pixels| && l.transparent != Some(l.pixels[j * l.rect.width + i])
    && forall m :: k < m < |s.stack| ==> Clear(s.layers[s.stack[m]].rect, l.rect.x + i, l.rect.y + j)
  }

  /** The point is not under this rectangle. */
  predicate Clear(r: Rect, px: nat, py: nat) {
    px < r.x || px >= r.x + r.width || py < r.y || py >= r.y + r.height
  }

  /** The screen has that pixel at its place. */
  ghost predicate OnScreen(s: Scene, k: nat, i: nat, j: nat)
    requires Whole(s)
  {
    k < |s.stack| &&
    var l := s.layers[s.stack[k]];
    var at := (l.rect.y + j) * s.width + (l.rect.x + i);
    at < |s.screen| && j * l.rect.width + i < |l.pixels| && s.screen[at] == l.pixels[j * l.rect.width + i]
  }

  lemma {:induction false} InSightIsTop(s: Scene, k: nat, i: nat, j: nat)
    requires Whole(s) && InSight(s, k, i, j)
    ensures var l := s.layers[s.stack[k]];
            && j * l.rect.width + i < |l.pixels|
            && TopAt(LayersOf(s.layers, s.stack), k, l.rect.x + i, l.rect.y + j, l.pixels[j * l.rect.width + i])
  {
    var l := s.layers[s.stack[k]];
    PaintsPixel(l, i, j);
    forall m | k < m < |s.stack| ensures Paints(s.layers[s.stack[m]], l.rect.x + i, l.rect.y + j).None? {
      assert Clear(s.layers[s.stack[m]].rect, l.rect.x + i, l.rect.y + j);
      PaintsNothingOutside(s.layers[s.stack[m]], l.rect.x + i, l.rect.y + j);
    }
  }

  /** Where the screen shows the stack it has the pixels of whatever layer is in sight. */
  lemma {:induction false} ShownPixel(s: Scene, k: nat, i: nat, j: nat)
    requires Whole(s) && InSight(s, k, i, j)
    requires ShownAt(s, s.layers[s.stack[k]].rect.x + i, s.layers[s.stack[k]].rect.y + j)
    ensures OnScreen(s, k, i, j)
  {
    var l := s.layers[s.stack[k]];
    InSightIsTop(s, k, i, j);
    VisibleIsTop(LayersOf(s.layers, s.stack), l.rect.x + i, l.rect.y + j);
    IndexInside(l.rect.x + i, l.rect.y + j, s.width, s.height);
  }

  /** `update` brings the pixels of the layer that are in sight to the screen, whatever was there before;
      all of them that are opaque and on the display, for the topmost layer. */
  lemma {:induction false} UpdateShowsPixel(s: Scene, id: LayerId, s': Scene, i: nat, j: nat)
    requires Whole(s) && id in s.stack && id in s.layers && Updates(s, id, s') && InSight(s, IndexOf(s.stack, id), i, j)
    ensures Whole(s') && s'.stack == s.stack && OnScreen(s', IndexOf(s.stack, id), i, j)
  {
    var k, l := IndexOf(s.stack, id), s.layers[id];
    UpdatedInSight(s, id, i, j);
    ScreenPixel(s, id, s', l.rect.x + i, l.rect.y + j);
    RecordedLayer(s, id, s');
  }

  lemma {:induction false} RecordedLayer(s: Scene, id: LayerId, s': Scene)
    requires Whole(s) && id in s.stack && id in s.layers && Updates(s, id, s')
    ensures Whole(s') && s'.stack == s.stack && s'.width == s.width && id in s'.layers
    ensures s'.layers[id].rect == s.layers[id].rect && s'.layers[id].pixels == s.layers[id].pixels
    ensures s'.stack[IndexOf(s.stack, id)] == id
  {
  }

  lemma {:induction false} UpdatedInSight(s: Scene, id: LayerId, i: nat, j: nat)
    requires Whole(s) && id in s.stack && id in s.layers && InSight(s, IndexOf(s.stack, id), i, j)
    ensures var l := s.layers[id];
            && l.rect.x + i < s.width && l.rect.y + j < s.height && j * l.rect.width + i < |l.pixels|
            && UpdatedPixel(s, id, l.rect.x + i, l.rect.y + j) == l.pixels[j * l.rect.width + i]
  {
    var k, l := IndexOf(s.stack, id), s.layers[id];
    InSightIsTop(s, k, i, j);
    VisibleFromTop(LayersOf(s.layers, s.stack), k, l.rect.x + i, l.rect.y + j, l.pixels[j * l.rect.width + i]);
  }

  lemma {:induction false} ScreenPixel(s: Scene, id: LayerId, s': Scene, px: nat, py: nat)
    requires Whole(s) && id in s.layers && Updates(s, id, s') && px < s.width && py < s.height
    ensures s'.width == s.width && py * s.width + px < |s'.screen| && s'.screen[py * s.width + px] == UpdatedPixel(s, id, px, py)
  {
    IndexInside(px, py, s.width, s.height);
    assert At(s'.screen, s.width, s.height, px, py) == UpdatedPixel(s, id, px, py);
  }
}
