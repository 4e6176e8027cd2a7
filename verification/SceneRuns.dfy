/** The window operations as steps, and what holds over every run of them. */
module SceneRuns {
  import opened Basics
  import opened Compositing
  import opened Scenes

  // ----- Moving, drawing, hitting -----

  function Clamp(v: int, limit: nat): nat {
    if v < 0 then 0 else if v > limit then limit else v
  }

  /** `move_abs`: the layer's corner stays between the display's corners. */
  function MovedTo(s: Scene, id: LayerId, x: int, y: int): Scene
    requires id in s.layers
  {
    var l := s.layers[id];
    s.(layers := s.layers[id := l.(rect := l.rect.(x := Clamp(x, s.width), y := Clamp(y, s.height)))])
  }

  /** The layer with new contents. */
  function Redrawn(s: Scene, id: LayerId, pixels: seq<Pixel>): Scene
    requires id in s.layers
  {
    s.(layers := s.layers[id := s.layers[id].(pixels := pixels)])
  }

  /** `is_overlapping(x, x, a, b)`: strictly between. */
  predicate IsOverlapping(x1: nat, x2: nat, x3: nat, x4: nat) {
    x4 > x1 && x2 > x3
  }

  predicate IsHit(l: Layer, x: nat, y: nat) {
    IsOverlapping(x, x, l.rect.x, l.rect.x + l.rect.width) && IsOverlapping(y, y, l.rect.y, l.rect.y + l.rect.height)
  }

  /** The topmost layer of `stack` at a point. */
  function Hit(layers: map<LayerId, Layer>, stack: seq<LayerId>, x: nat, y: nat): (hit: Option<LayerId>)
    requires Known(layers, stack)
    ensures hit.Some? ==> hit.value in stack && IsHit(layers[hit.value], x, y)
  {
    if stack == [] then None
    else if IsHit(layers[stack[|stack| - 1]], x, y) then Some(stack[|stack| - 1])
    else Hit(layers, stack[..|stack| - 1], x, y)
  }

  // ----- Steps -----

  datatype Op =
    | CreateWindow(x: nat, y: nat, width: nat, height: nat)
    | ShowWindow(id: LayerId, pixels: seq<Pixel>)
    | UpdateFrame(id: LayerId, pixels: seq<Pixel>)
    | Press(x: nat, y: nat)
    | Release(x: nat, y: nat)
    | MovePointer(dx: int, dy: int)
    | SyncPointer

  /** Window ids are known to the window manager, and drawing fills exactly the layer's buffer. */
  predicate Enabled(s: Scene, op: Op) {
    match op
    case ShowWindow(id, pixels) =>
      id in s.windows && id in s.layers && |pixels| == s.layers[id].rect.width * s.layers[id].rect.height
    case UpdateFrame(id, pixels) =>
      id in s.windows && id in s.layers && |pixels| == s.layers[id].rect.width * s.layers[id].rect.height
    case _ => true
  }

  function NewWindow(s: Scene, x: nat, y: nat, width: nat, height: nat): Scene {
    var rect := Rect(x, y, width, height + TITLE_BAR_HEIGHT);
    var l := Layer(rect, EMPTY, seq(rect.width * rect.height, _ => 0), None);
    s.(layers := s.layers[s.currId := l], windows := s.windows + {s.currId}, currId := s.currId + 1)
  }

  function Pressed(s: Scene, x: nat, y: nat, hit: Option<LayerId>): Scene {
    s.(pressedX := x, pressedY := y, pressedId := hit.GetOr(s.pressedId))
  }

  /** The stack with `id` raised to just below the mouse. */
  function Raised(s: Scene, id: LayerId): Option<seq<LayerId>> {
    Restacked(s.stack, id, IndexOf(s.stack, s.mouse) - 1)
  }

  ghost predicate PressSpec(s: Scene, x: nat, y: nat, s': Scene)
    requires Stacked(s)
  {
    var hit := Hit(s.layers, s.stack[..IndexOf(s.stack, s.mouse)], x, y);
    var s1 := Pressed(s, x, y, hit);
    if hit.Some? && hit.value in s.windows && IndexOf(s.stack, hit.value) != IndexOf(s.stack, s.mouse) - 1 then
      && Raised(s, hit.value).Some?
      && Known(s.layers, Raised(s, hit.value).value)
      && Updates(s1.(stack := Raised(s, hit.value).value), hit.value, s')
    else
      s' == s1
  }

  ghost predicate ReleaseSpec(s: Scene, x: nat, y: nat, s': Scene)
    requires Stacked(s)
  {
    var id := s.pressedId;
    if id in s.windows && s.pressedY <= s.layers[id].rect.y + TITLE_BAR_HEIGHT then
      Updates(Dragged(s, id, x, y), id, s')
    else
      s' == s
  }

  /** The window follows the pointer by as much as it moved while pressed. */
  function Dragged(s: Scene, id: LayerId, x: nat, y: nat): Scene
    requires id in s.layers
  {
    var rect := s.layers[id].rect;
    MovedTo(s, id, x - (s.pressedX - rect.x), y - (s.pressedY - rect.y))
  }

  function PointerMoved(s: Scene, dx: int, dy: int): Scene
    requires s.mouse in s.layers
  {
    var rect := s.layers[s.mouse].rect;
    MovedTo(s, s.mouse, rect.x + dx, rect.y + dy)
  }

  ghost predicate ShowSpec(s: Scene, id: LayerId, pixels: seq<Pixel>, s': Scene)
    requires Stacked(s) && Enabled(s, ShowWindow(id, pixels))
  {
    && Restacked(s.stack, id, 1).Some?
    && Known(s.layers, Restacked(s.stack, id, 1).value)
    && Updates(Redrawn(s.(stack := Restacked(s.stack, id, 1).value), id, pixels), id, s')
  }

  ghost predicate Next(s: Scene, op: Op, s': Scene)
    requires Stacked(s) && Enabled(s, op)
  {
    match op
    case CreateWindow(x, y, width, height) => s' == NewWindow(s, x, y, width, height)
    case ShowWindow(id, pixels) => ShowSpec(s, id, pixels, s')
    case UpdateFrame(id, pixels) => Updates(Redrawn(s, id, pixels), id, s')
    case Press(x, y) => PressSpec(s, x, y, s')
    case Release(x, y) => ReleaseSpec(s, x, y, s')
    case MovePointer(dx, dy) => s' == PointerMoved(s, dx, dy)
    case SyncPointer => Updates(s, s.mouse, s')
  }

  // ----- Operations on windows -----

  lemma {:induction false} ChangeLayerStacked(s: Scene, id: LayerId, l: Layer)
    requires Stacked(s) && Covered(s) && id in s.layers && id != s.desktop && l.Ok()
    ensures var s' := s.(layers := s.layers[id := l]); Stacked(s') && Covered(s')
  {
    assert s.layers[id := l].Keys == s.layers.Keys;
  }

  /** Moving a window to a height between the desktop and the mouse keeps the stack's shape. */
  lemma {:induction false} RestackKeepsShape(s: Scene, id: LayerId, h: nat)
    requires Stacked(s) && id in s.windows && 1 <= h
    requires h <= |Without(s.stack, id)| - 1
    ensures Restacked(s.stack, id, h).Some?
    ensures var stack := Restacked(s.stack, id, h).value;
            && Known(s.layers, stack) && NoDuplicates(stack) && |stack| >= 2
            && stack[0] == s.desktop && stack[|stack| - 1] == s.mouse
            && Without(stack, id) == Without(s.stack, id) && IndexOf(stack, id) == h
  {
    RestackPlaces(s.stack, id, h);
    OthersEnds(s, id);
    RestackKnown(s, id, h);
  }

  lemma {:induction false} RestackKnown(s: Scene, id: LayerId, h: nat)
    requires Stacked(s) && id in s.windows && Restacked(s.stack, id, h).Some?
    ensures Known(s.layers, Restacked(s.stack, id, h).value)
  {
    KnownWithout(s.layers, s.stack, id);
  }

  /** Taking a window out leaves the desktop at the bottom and the mouse on top. */
  lemma {:induction false} OthersEnds(s: Scene, id: LayerId)
    requires Stacked(s) && id in s.windows
    ensures var others := Without(s.stack, id);
            |others| >= 2 && others[0] == s.desktop && others[|others| - 1] == s.mouse
  {
    var i, n := IndexOf(s.stack, id), |s.stack|;
    if i < n {
      assert i != 0 && i != n - 1;
    }
  }

  lemma {:induction false} MouseOnTop(s: Scene)
    requires Stacked(s)
    ensures IndexOf(s.stack, s.mouse) == |s.stack| - 1 && s.mouse !in s.stack[..|s.stack| - 1] && s.mouse != s.desktop
  {
    var n := |s.stack| - 1;
    assert s.stack[n] in s.stack;
    assert s.stack[0] != s.stack[n];
  }

  /** Raising a window never panics, and puts it directly below the mouse. */
  lemma {:induction false} RaiseIsBelowMouse(s: Scene, id: LayerId)
    requires Stacked(s) && id in s.windows && id in s.stack
    ensures Raised(s, id).Some?
    ensures var stack := Raised(s, id).value;
            && Known(s.layers, stack) && |stack| == |s.stack|
            && stack[|stack| - 2] == id && stack[|stack| - 1] == s.mouse
            && Without(stack, id) == Without(s.stack, id)
            && 1 <= IndexOf(s.stack, s.mouse) - 1 <= |Without(s.stack, id)| - 1
  {
    MouseOnTop(s);
    OthersEnds(s, id);
    RestackKeepsShape(s, id, IndexOf(s.stack, s.mouse) - 1);
  }

  /** `s1` is `s` with one window changed, and `s'` is that with the window updated. */
  ghost predicate WindowUpdated(s: Scene, s1: Scene, id: LayerId, s': Scene) {
    Stacked(s1) && Covered(s1) && Altered(s, s1, id) && id in s.windows && Updates(s1, id, s')
  }

  /** Nothing but the record of the last press changed. */
  ghost predicate OnlyPressed(s: Scene, s': Scene) {
    s'.pressedId in s.layers && s' == s.(pressedX := s'.pressedX, pressedY := s'.pressedY, pressedId := s'.pressedId)
  }

  /** What every operation on windows comes to. */
  ghost predicate WindowStep(s: Scene, s': Scene) {
    OnlyPressed(s, s') || exists s1, id :: WindowUpdated(s, s1, id, s')
  }

  lemma {:induction false} RestackAltered(s: Scene, s1: Scene, id: LayerId, h: nat)
    requires Stacked(s) && Covered(s) && id in s.windows && 1 <= h <= |Without(s.stack, id)| - 1
    requires Restacked(s.stack, id, h).Some?
    requires s1 == s.(stack := Restacked(s.stack, id, h).value, pressedX := s1.pressedX, pressedY := s1.pressedY,
                      pressedId := s1.pressedId)
    requires s1.pressedId in s.layers
    ensures Stacked(s1) && Covered(s1) && Altered(s, s1, id)
  {
    RestackKeepsShape(s, id, h);
    assert s.layers == s.layers[id := s.layers[id]];
  }

  lemma {:induction false} ShowIsWindowStep(s: Scene, id: LayerId, pixels: seq<Pixel>, s': Scene)
    requires Stacked(s) && Covered(s) && Enabled(s, ShowWindow(id, pixels)) && ShowSpec(s, id, pixels, s')
    ensures WindowStep(s, s')
  {
    var s1 := s.(stack := Restacked(s.stack, id, 1).value);
    OthersEnds(s, id);
    RestackAltered(s, s1, id, 1);
    ChangeLayerStacked(s1, id, s.layers[id].(pixels := pixels));
    assert WindowUpdated(s, Redrawn(s1, id, pixels), id, s');
  }

  lemma {:induction false} RedrawIsWindowStep(s: Scene, id: LayerId, pixels: seq<Pixel>, s': Scene)
    requires Stacked(s) && Covered(s) && Enabled(s, UpdateFrame(id, pixels)) && Updates(Redrawn(s, id, pixels), id, s')
    ensures WindowStep(s, s')
  {
    ChangeLayerStacked(s, id, s.layers[id].(pixels := pixels));
    assert WindowUpdated(s, Redrawn(s, id, pixels), id, s');
  }

  lemma {:induction false} PressIsWindowStep(s: Scene, x: nat, y: nat, s': Scene)
    requires Stacked(s) && Covered(s) && PressSpec(s, x, y, s')
    ensures WindowStep(s, s')
  {
    var hit := Hit(s.layers, s.stack[..IndexOf(s.stack, s.mouse)], x, y);
    if hit.Some? && hit.value in s.windows && IndexOf(s.stack, hit.value) != IndexOf(s.stack, s.mouse) - 1 {
      RaiseIsBelowMouse(s, hit.value);
      var s1 := Pressed(s, x, y, hit).(stack := Raised(s, hit.value).value);
      RestackAltered(s, s1, hit.value, IndexOf(s.stack, s.mouse) - 1);
      assert WindowUpdated(s, s1, hit.value, s');
    } else {
      assert OnlyPressed(s, s');
    }
  }

  lemma {:induction false} ReleaseIsWindowStep(s: Scene, x: nat, y: nat, s': Scene)
    requires Stacked(s) && Covered(s) && ReleaseSpec(s, x, y, s')
    ensures WindowStep(s, s')
  {
    var id := s.pressedId;
    if id in s.windows && s.pressedY <= s.layers[id].rect.y + TITLE_BAR_HEIGHT {
      ChangeLayerStacked(s, id, Dragged(s, id, x, y).layers[id]);
      assert WindowUpdated(s, Dragged(s, id, x, y), id, s');
    } else {
      assert OnlyPressed(s, s');
    }
  }

  // ----- Between a pointer movement and its update -----

  /** The screen shows the layers below the mouse. */
  ghost predicate BelowShownAt(s: Scene, px: nat, py: nat)
    requires Stacked(s) && px < s.width && py < s.height
  {
    Some(At(s.screen, s.width, s.height, px, py)) == Visible(LayersOf(s.layers, s.stack[..|s.stack| - 1]), px, py)
  }

  /** Outside the place where the mouse was last updated, the screen shows the layers below it. */
  ghost predicate CleanAt(s: Scene, px: nat, py: nat)
    requires Stacked(s) && px < s.width && py < s.height
  {
    s.layers[s.mouse].prev.Contains(px, py) || BelowShownAt(s, px, py)
  }

  /** Or else it shows the stack with the mouse where it is now: what a window update may have painted. */
  ghost predicate LooseAt(s: Scene, px: nat, py: nat)
    requires Stacked(s) && px < s.width && py < s.height
  {
    CleanAt(s, px, py) || ShownAt(s, px, py)
  }

  /** The update of the mouse will repaint the point, or what is there is right already. */
  ghost predicate NotStale(s: Scene, px: nat, py: nat)
    requires Stacked(s) && px < s.width && py < s.height
  {
    CleanAt(s, px, py) || Paints(s.layers[s.mouse], px, py).Some?
  }

  ghost predicate NothingStale(s: Scene)
    requires Stacked(s)
  {
    forall px: nat, py: nat :: px < s.width && py < s.height ==> NotStale(s, px, py)
  }

  predicate MouseRecorded(s: Scene)
    requires s.mouse in s.layers
  {
    s.layers[s.mouse].prev == s.layers[s.mouse].rect
  }

  /** Where the mouse paints nothing, the stack shows what is below it. */
  lemma {:induction false} BelowMouse(s: Scene, px: nat, py: nat)
    requires Stacked(s) && px < s.width && py < s.height && Paints(s.layers[s.mouse], px, py).None?
    ensures ShownAt(s, px, py) <==> BelowShownAt(s, px, py)
  {
    var ls, n := LayersOf(s.layers, s.stack), |s.stack| - 1;
    assert ls[..n] == LayersOf(s.layers, s.stack[..n]) && ls[n] == s.layers[s.mouse];
  }

  /** Where the mouse is recorded and the stack is shown, its old place is all there is to repair. */
  lemma {:induction false} ShownIsClean(s: Scene, px: nat, py: nat)
    requires Stacked(s) && MouseRecorded(s) && px < s.width && py < s.height && ShownAt(s, px, py)
    ensures CleanAt(s, px, py)
  {
    if Paints(s.layers[s.mouse], px, py).None? {
      BelowMouse(s, px, py);
    }
  }

  /** Off the place where the mouse is now, what is loose is clean. */
  lemma {:induction false} LooseOffMouse(s: Scene, px: nat, py: nat)
    requires Stacked(s) && px < s.width && py < s.height && LooseAt(s, px, py)
    requires Paints(s.layers[s.mouse], px, py).None?
    ensures CleanAt(s, px, py)
  {
    BelowMouse(s, px, py);
  }

  /** Moving the pointer changes no other layer. */
  lemma {:induction false} MoveKeepsClean(s: Scene, dx: int, dy: int)
    requires Kept(s)
    ensures Kept(PointerMoved(s, dx, dy))
    ensures forall px: nat, py: nat :: px < s.width && py < s.height ==>
              (CleanAt(PointerMoved(s, dx, dy), px, py) <==> CleanAt(s, px, py))
    ensures forall px: nat, py: nat :: px < s.width && py < s.height ==>
              (BelowShownAt(PointerMoved(s, dx, dy), px, py) <==> BelowShownAt(s, px, py))
  {
    var s', n := PointerMoved(s, dx, dy), |s.stack| - 1;
    MouseOnTop(s);
    ChangeLayerStacked(s, s.mouse, s'.layers[s.mouse]);
    SameLayersWithout(s.layers, s'.layers, s.stack[..n], s.mouse);
  }

  lemma {:induction false} PointerPoint(s: Scene, s': Scene, px: nat, py: nat)
    requires Stacked(s) && Covered(s) && Updates(s, s.mouse, s') && px < s.width && py < s.height
    ensures Whole(s') && (ShownAt(s', px, py) <==> NotStale(s, px, py))
  {
    var ls, n := LayersOf(s.layers, s.stack), |s.stack| - 1;
    MouseOnTop(s);
    UpdatedShownAt(s, s.mouse, s', px, py);
    UpdatePointIff(s, s.mouse, px, py);
    assert ls[..n] == LayersOf(s.layers, s.stack[..n]) && ls[n..] == [s.layers[s.mouse]];
    VisibleOne(s.layers[s.mouse], px, py);
  }

  /** The update of the mouse makes the screen right if and only if no stale pixel is left where it
      repaints nothing. */
  lemma {:induction false} PointerUpdateIff(s: Scene, s': Scene)
    requires Kept(s) && Updates(s, s.mouse, s')
    ensures Kept(s') && (Synced(s') <==> NothingStale(s))
  {
    MouseOnTop(s);
    PointerUpdateKeeps(s, s');
    forall px: nat, py: nat | px < s.width && py < s.height ensures ShownAt(s', px, py) <==> NotStale(s, px, py) {
      PointerPoint(s, s', px, py);
    }
  }

  /** A window operation in between leaves nothing stale that was not. */
  lemma {:induction false} WindowLoosePoint(s: Scene, s1: Scene, id: LayerId, s': Scene, px: nat, py: nat)
    requires Kept(s) && WindowUpdated(s, s1, id, s') && px < s.width && py < s.height
    requires BelowShownAt(s, px, py)
    ensures Whole(s') && ShownAt(s', px, py)
  {
    if Repaints(s1, id, px, py) {
      UpdatePointIff(s1, id, px, py);
      UpdatedShownAt(s1, id, s', px, py);
    } else {
      MouseNotRepainted(s1, id, px, py);
      BelowMouse(s, px, py);
      UpdateSyncsAt(s, s1, id, s', px, py);
    }
  }

  lemma {:induction false} MouseNotRepainted(s: Scene, id: LayerId, px: nat, py: nat)
    requires Stacked(s) && id in s.layers && !Repaints(s, id, px, py)
    ensures Paints(s.layers[s.mouse], px, py).None?
  {
    var ls, k := LayersOf(s.layers, s.stack), SplitIndex(s.stack, id);
    assert ls[k..][|ls| - k - 1] == s.layers[s.mouse];
  }

  /** What an operation that does not move or update the mouse must leave alone. */
  ghost predicate MouseAlone(s: Scene, s': Scene) {
    && Kept(s') && s'.mouse == s.mouse && s.mouse in s.layers && s'.layers[s'.mouse] == s.layers[s.mouse]
    && s'.width == s.width && s'.height == s.height
  }

  lemma {:induction false} WindowUpdatedPoint(s: Scene, s1: Scene, id: LayerId, s': Scene, px: nat, py: nat)
    requires Kept(s) && WindowUpdated(s, s1, id, s') && MouseAlone(s, s') && px < s.width && py < s.height
    ensures ShownAt(s, px, py) ==> ShownAt(s', px, py)
    ensures LooseAt(s, px, py) ==> LooseAt(s', px, py)
  {
    if ShownAt(s, px, py) {
      UpdateSyncsAt(s, s1, id, s', px, py);
    } else if BelowShownAt(s, px, py) {
      WindowLoosePoint(s, s1, id, s', px, py);
    }
  }

  lemma {:induction false} OnlyPressedPoint(s: Scene, s': Scene, px: nat, py: nat)
    requires Kept(s) && OnlyPressed(s, s') && px < s.width && py < s.height
    ensures MouseAlone(s, s')
    ensures ShownAt(s', px, py) <==> ShownAt(s, px, py)
    ensures LooseAt(s', px, py) <==> LooseAt(s, px, py)
  {
  }

  /** Every operation on windows keeps the shape of the stack, and leaves the mouse alone. */
  lemma {:induction false} WindowStepKeeps(s: Scene, s': Scene)
    requires Kept(s) && WindowStep(s, s')
    ensures MouseAlone(s, s')
  {
    if !OnlyPressed(s, s') {
      var s1, id :| WindowUpdated(s, s1, id, s');
      UpdateKeeps(s, s1, id, s');
    }
  }

  /** At every point it keeps the screen right if it was, and leaves nothing stale that was not. */
  lemma {:induction false} WindowStepPoint(s: Scene, s': Scene, px: nat, py: nat)
    requires Kept(s) && WindowStep(s, s') && MouseAlone(s, s') && px < s.width && py < s.height
    ensures ShownAt(s, px, py) ==> ShownAt(s', px, py)
    ensures LooseAt(s, px, py) ==> LooseAt(s', px, py)
  {
    if OnlyPressed(s, s') {
      OnlyPressedPoint(s, s', px, py);
    } else {
      var s1, id :| WindowUpdated(s, s1, id, s');
      WindowUpdatedPoint(s, s1, id, s', px, py);
    }
  }

  lemma {:induction false} CreateKeepsShape(s: Scene, x: nat, y: nat, width: nat, height: nat)
    requires Kept(s)
    ensures MouseAlone(s, NewWindow(s, x, y, width, height)) && s.currId !in s.stack && s.currId !in s.layers
  {
    var s' := NewWindow(s, x, y, width, height);
    assert s.currId !in s.layers && s.currId !in s.stack;
    assert s'.layers.Keys == s.layers.Keys + {s.currId};
    forall i | 0 < i < |s.stack| && s.stack[i] != s.mouse ensures s'.layers[s.stack[i]].prev == s'.layers[s.stack[i]].rect {
      assert s.stack[i] in s.stack;
    }
  }

  lemma {:induction false} CreatePoint(s: Scene, x: nat, y: nat, width: nat, height: nat, px: nat, py: nat)
    requires Kept(s) && px < s.width && py < s.height
    ensures var s' := NewWindow(s, x, y, width, height);
            && MouseAlone(s, s')
            && (ShownAt(s', px, py) <==> ShownAt(s, px, py))
            && (CleanAt(s', px, py) <==> CleanAt(s, px, py))
  {
    var s', n := NewWindow(s, x, y, width, height), |s.stack| - 1;
    CreateKeepsShape(s, x, y, width, height);
    SameLayersWithout(s.layers, s'.layers, s.stack, s.currId);
    SameLayersWithout(s.layers, s'.layers, s.stack[..n], s.currId);
  }

  // ----- Phases -----

  /** What can be said of the screen: that it shows the stack; that the mouse has moved since; or that a
      window was updated besides, or nothing recorded yet. */
  datatype Phase = Settled | Moved | Mixed

  function NextPhase(p: Phase, op: Op): Phase {
    match op
    case CreateWindow(_, _, _, _) => p
    case MovePointer(_, _) => Moved
    case SyncPointer => Settled
    case _ => if p == Moved then Mixed else p
  }

  ghost predicate PointHolds(s: Scene, p: Phase, px: nat, py: nat)
    requires Stacked(s) && px < s.width && py < s.height
  {
    match p
    case Settled => ShownAt(s, px, py)
    case Moved => CleanAt(s, px, py)
    case Mixed => LooseAt(s, px, py)
  }

  ghost predicate InPhase(s: Scene, p: Phase) {
    Kept(s) && (p == Settled ==> MouseRecorded(s))
  }

  /** The mouse moves on from a place where it may be drawn without being recorded. */
  predicate MovesOnUnrecorded(p: Phase, op: Op) {
    op.MovePointer? && p == Mixed
  }

  /** Every operation on windows, in terms of `WindowStep`. */
  lemma {:induction false} NextIsWindowStep(s: Scene, op: Op, s': Scene)
    requires Stacked(s) && Covered(s) && Enabled(s, op) && Next(s, op, s')
    requires op.ShowWindow? || op.UpdateFrame? || op.Press? || op.Release?
    ensures WindowStep(s, s')
  {
    match op
    case ShowWindow(id, pixels) => ShowIsWindowStep(s, id, pixels, s');
    case UpdateFrame(id, pixels) => RedrawIsWindowStep(s, id, pixels, s');
    case Press(x, y) => PressIsWindowStep(s, x, y, s');
    case Release(x, y) => ReleaseIsWindowStep(s, x, y, s');
  }

  /** Every operation keeps the shape of the stack and the size of the display, and leads to the next
      phase; only pointer operations touch the mouse. */
  lemma {:induction false} NextKeepsPhase(s: Scene, p: Phase, op: Op, s': Scene)
    requires InPhase(s, p) && Enabled(s, op) && Next(s, op, s')
    ensures InPhase(s', NextPhase(p, op)) && s'.width == s.width && s'.height == s.height
    ensures !op.MovePointer? && !op.SyncPointer? ==> MouseAlone(s, s')
  {
    match op
    case CreateWindow(x, y, width, height) => CreateKeepsShape(s, x, y, width, height);
    case MovePointer(dx, dy) => MoveKeepsClean(s, dx, dy);
    case SyncPointer =>
      MouseOnTop(s);
      PointerUpdateKeeps(s, s');
    case _ =>
      NextIsWindowStep(s, op, s');
      WindowStepKeeps(s, s');
  }

  lemma {:induction false} MovePoint(s: Scene, p: Phase, dx: int, dy: int, px: nat, py: nat)
    requires InPhase(s, p) && px < s.width && py < s.height && PointHolds(s, p, px, py)
    requires p == Mixed ==> !s.layers[s.mouse].rect.Contains(px, py)
    ensures Kept(PointerMoved(s, dx, dy)) && CleanAt(PointerMoved(s, dx, dy), px, py)
  {
    MoveKeepsClean(s, dx, dy);
    if p == Settled {
      ShownIsClean(s, px, py);
    } else if p == Mixed {
      LooseOffMouse(s, px, py);
    }
    assert CleanAt(s, px, py);
  }

  lemma {:induction false} SyncPoint(s: Scene, p: Phase, s': Scene, px: nat, py: nat)
    requires InPhase(s, p) && px < s.width && py < s.height && PointHolds(s, p, px, py) && Updates(s, s.mouse, s')
    ensures Whole(s') && ShownAt(s', px, py)
  {
    PointerPoint(s, s', px, py);
    if p == Settled {
      ShownIsClean(s, px, py);
    } else if Paints(s.layers[s.mouse], px, py).None? {
      LooseOffMouse(s, px, py);
    }
  }

  lemma {:induction false} WindowPoint(s: Scene, p: Phase, s': Scene, px: nat, py: nat)
    requires InPhase(s, p) && WindowStep(s, s') && px < s.width && py < s.height && PointHolds(s, p, px, py)
    requires Kept(s') && s'.width == s.width && s'.height == s.height
    ensures PointHolds(s', if p == Moved then Mixed else p, px, py)
  {
    WindowStepKeeps(s, s');
    WindowStepPoint(s, s', px, py);
  }

  /** What held of a point holds of it in the next phase, unless the mouse moves on unrecorded from a
      place that contains the point. */
  lemma {:induction false} NextKeepsPoint(s: Scene, p: Phase, op: Op, s': Scene, px: nat, py: nat)
    requires InPhase(s, p) && Enabled(s, op) && Next(s, op, s') && px < s.width && py < s.height && PointHolds(s, p, px, py)
    requires MovesOnUnrecorded(p, op) ==> !s.layers[s.mouse].rect.Contains(px, py)
    requires Kept(s') && s'.width == s.width && s'.height == s.height
    ensures PointHolds(s', NextPhase(p, op), px, py)
  {
    match op
    case CreateWindow(x, y, width, height) => CreatePoint(s, x, y, width, height, px, py);
    case MovePointer(dx, dy) => MovePoint(s, p, dx, dy, px, py);
    case SyncPointer => SyncPoint(s, p, s', px, py);
    case _ =>
      NextIsWindowStep(s, op, s');
      WindowPoint(s, p, s', px, py);
  }

  // ----- Runs -----

  datatype Step = Step(before: Scene, op: Op, after: Scene)

  function StateAt(s: Scene, run: seq<Step>, i: nat): Scene
    requires i <= |run|
  {
    if i == 0 then s else run[i - 1].after
  }

  ghost predicate Continues(s: Scene, run: seq<Step>, i: nat)
    requires i < |run|
  {
    && run[i].before == StateAt(s, run, i)
    && Stacked(run[i].before) && Enabled(run[i].before, run[i].op) && Next(run[i].before, run[i].op, run[i].after)
  }

  ghost predicate IsRun(s: Scene, run: seq<Step>) {
    forall i :: 0 <= i < |run| ==> Continues(s, run, i)
  }

  /** The phase after the first `i` steps of a run after `init`, which draws the mouse unrecorded. */
  function PhaseAt(run: seq<Step>, i: nat): Phase
    requires i <= |run|
  {
    if i == 0 then Mixed else NextPhase(PhaseAt(run, i - 1), run[i - 1].op)
  }

  function MouseRect(s: Scene): Rect {
    if s.mouse in s.layers then s.layers[s.mouse].rect else EMPTY
  }

  /** The places from which the mouse has moved on unrecorded. */
  function Abandoned(run: seq<Step>, i: nat): seq<Rect>
    requires i <= |run|
  {
    if i == 0 then []
    else
      Abandoned(run, i - 1)
      + if MovesOnUnrecorded(PhaseAt(run, i - 1), run[i - 1].op) then [MouseRect(run[i - 1].before)] else []
  }

  predicate Inside(rects: seq<Rect>, px: nat, py: nat) {
    exists i :: 0 <= i < |rects| && rects[i].Contains(px, py)
  }

  /** After `init` the screen shows the stack. */
  ghost predicate Started(s: Scene) {
    Kept(s) && Shows(s)
  }

  /** The scene at step `i` is in its phase, on the same display. */
  ghost predicate PhaseHolds(s: Scene, run: seq<Step>, i: nat)
    requires i <= |run|
  {
    exists state ::
      state == StateAt(s, run, i) && InPhase(state, PhaseAt(run, i)) && state.width == s.width && state.height == s.height
  }

  ghost predicate PointHoldsAt(s: Scene, run: seq<Step>, i: nat, px: nat, py: nat)
    requires i <= |run|
  {
    exists state ::
      && state == StateAt(s, run, i) && InPhase(state, PhaseAt(run, i)) && state.width == s.width && state.height == s.height
      && px < s.width && py < s.height && PointHolds(state, PhaseAt(run, i), px, py)
  }

  lemma {:induction false} RunKeepsPhase(s: Scene, run: seq<Step>, i: nat)
    requires Started(s) && IsRun(s, run) && i <= |run|
    ensures PhaseHolds(s, run, i)
  {
    if i == 0 {
      assert InPhase(StateAt(s, run, 0), PhaseAt(run, 0));
    } else {
      RunKeepsPhase(s, run, i - 1);
      assert Continues(s, run, i - 1);
      NextKeepsPhase(run[i - 1].before, PhaseAt(run, i - 1), run[i - 1].op, run[i - 1].after);
      assert InPhase(run[i - 1].after, PhaseAt(run, i));
    }
  }

  lemma {:induction false} StepKeepsPoint(s: Scene, run: seq<Step>, i: nat, px: nat, py: nat)
    requires IsRun(s, run) && i < |run| && PointHoldsAt(s, run, i, px, py)
    requires MovesOnUnrecorded(PhaseAt(run, i), run[i].op) ==> !MouseRect(run[i].before).Contains(px, py)
    ensures PointHoldsAt(s, run, i + 1, px, py)
  {
    assert Continues(s, run, i);
    var k, p, op, k' := run[i].before, PhaseAt(run, i), run[i].op, run[i].after;
    NextKeepsPhase(k, p, op, k');
    NextKeepsPoint(k, p, op, k', px, py);
    assert InPhase(k', PhaseAt(run, i + 1)) && PointHolds(k', PhaseAt(run, i + 1), px, py);
  }

  /** Over every run after `init`: what its phase says holds of every point that is in no place which the
      mouse has abandoned unrecorded. */
  lemma {:induction false} RunKeepsPoint(s: Scene, run: seq<Step>, i: nat, px: nat, py: nat)
    requires Started(s) && IsRun(s, run) && i <= |run| && px < s.width && py < s.height
    requires !Inside(Abandoned(run, i), px, py)
    ensures PointHoldsAt(s, run, i, px, py)
  {
    if i == 0 {
      assert ShownAt(s, px, py);
      assert InPhase(StateAt(s, run, 0), PhaseAt(run, 0)) && PointHolds(s, Mixed, px, py);
    } else {
      InsideGrows(run, i, px, py);
      RunKeepsPoint(s, run, i - 1, px, py);
      StepKeepsPoint(s, run, i - 1, px, py);
    }
  }

  lemma {:induction false} InsideGrows(run: seq<Step>, i: nat, px: nat, py: nat)
    requires 0 < i <= |run|
    ensures Inside(Abandoned(run, i), px, py) <==>
            || Inside(Abandoned(run, i - 1), px, py)
            || (MovesOnUnrecorded(PhaseAt(run, i - 1), run[i - 1].op) && MouseRect(run[i - 1].before).Contains(px, py))
  {
    var past, more := Abandoned(run, i - 1), Abandoned(run, i);
    if Inside(past, px, py) {
      var j :| 0 <= j < |past| && past[j].Contains(px, py);
      assert more[j] == past[j];
    }
    if MovesOnUnrecorded(PhaseAt(run, i - 1), run[i - 1].op) {
      assert more[|past|] == MouseRect(run[i - 1].before);
    }
  }

  // ----- The theorems -----

  /** Over every run after `init`, whatever its order, the stack has no duplicates, the desktop stays
      at the bottom and the mouse on top. */
  lemma {:induction false} StackKeepsShape(s: Scene, run: seq<Step>, i: nat)
    requires Started(s) && IsRun(s, run) && i <= |run|
    ensures var k := StateAt(s, run, i);
            NoDuplicates(k.stack) && |k.stack| >= 2 && k.stack[0] == k.desktop && k.stack[|k.stack| - 1] == k.mouse
  {
    RunKeepsPhase(s, run, i);
  }

  /** Over every run after `init`, from each update of the mouse until it moves again, through all window
      operations: a wrong pixel lies in a place that the mouse has abandoned unrecorded. */
  lemma {:induction false} WrongPixelsAbandoned(s: Scene, run: seq<Step>, i: nat, px: nat, py: nat)
    requires Started(s) && IsRun(s, run) && i <= |run| && PhaseAt(run, i) == Settled && px < s.width && py < s.height
    ensures var k := StateAt(s, run, i);
            && Kept(k) && k.width == s.width && k.height == s.height
            && (!ShownAt(k, px, py) ==> Inside(Abandoned(run, i), px, py))
  {
    RunKeepsPhase(s, run, i);
    if !Inside(Abandoned(run, i), px, py) {
      RunKeepsPoint(s, run, i, px, py);
    }
  }

  /** So the whole screen is right if there is no such place. */
  lemma {:induction false} SettledScreenShows(s: Scene, run: seq<Step>, i: nat)
    requires Started(s) && IsRun(s, run) && i <= |run| && PhaseAt(run, i) == Settled && Abandoned(run, i) == []
    ensures Synced(StateAt(s, run, i))
  {
    RunKeepsPhase(s, run, i);
    var k := StateAt(s, run, i);
    forall px: nat, py: nat | px < k.width && py < k.height ensures ShownAt(k, px, py) {
      WrongPixelsAbandoned(s, run, i, px, py);
    }
  }

  predicate OnWindows(op: Op) {
    op.ShowWindow? || op.UpdateFrame? || op.Press? || op.Release?
  }

  /** No operation on windows falls between a motion and the update at the end of its packet. */
  predicate WholePackets(run: seq<Step>) {
    forall i :: 0 <= i < |run| && PhaseAt(run, i) == Moved ==> !OnWindows(run[i].op)
  }

  /** Then the mouse has abandoned one place at most: the one where `init` drew it. */
  lemma {:induction false} OnlyFirstPlace(s: Scene, run: seq<Step>, i: nat)
    requires Started(s) && IsRun(s, run) && WholePackets(run) && i <= |run|
    ensures PhaseAt(run, i) == Mixed ==> Abandoned(run, i) == [] && MouseRect(StateAt(s, run, i)) == MouseRect(s)
    ensures Abandoned(run, i) == [] || Abandoned(run, i) == [MouseRect(s)]
  {
    if i > 0 {
      OnlyFirstPlace(s, run, i - 1);
      MouseStays(s, run, i - 1);
      assert PhaseAt(run, i - 1) == Moved ==> !OnWindows(run[i - 1].op);
    }
  }

  lemma {:induction false} MouseStays(s: Scene, run: seq<Step>, i: nat)
    requires Started(s) && IsRun(s, run) && i < |run|
    ensures run[i].before == StateAt(s, run, i)
    ensures !run[i].op.MovePointer? && !run[i].op.SyncPointer? ==> MouseRect(run[i].after) == MouseRect(run[i].before)
  {
    RunKeepsPhase(s, run, i);
    assert Continues(s, run, i);
    NextKeepsPhase(run[i].before, PhaseAt(run, i), run[i].op, run[i].after);
  }

  /** The kernel's ordinary run: after each packet the screen is right everywhere but, perhaps, in the
      place where `init` drew the mouse. */
  lemma {:induction false} OrdinaryRunShows(s: Scene, run: seq<Step>, i: nat, px: nat, py: nat)
    requires Started(s) && IsRun(s, run) && WholePackets(run) && i <= |run| && PhaseAt(run, i) == Settled
    requires px < s.width && py < s.height && !MouseRect(s).Contains(px, py)
    ensures var k := StateAt(s, run, i);
            Kept(k) && k.width == s.width && k.height == s.height && ShownAt(k, px, py)
  {
    OnlyFirstPlace(s, run, i);
    WrongPixelsAbandoned(s, run, i, px, py);
  }

  /** In any run: an update of the mouse makes the screen right if and only if it leaves nothing stale. */
  lemma {:induction false} SyncShowsIff(s: Scene, run: seq<Step>, i: nat)
    requires Started(s) && IsRun(s, run) && i < |run| && run[i].op == SyncPointer
    ensures Stacked(run[i].before) && (Synced(run[i].after) <==> NothingStale(run[i].before))
  {
    RunKeepsPhase(s, run, i);
    assert Continues(s, run, i);
    PointerUpdateIff(run[i].before, run[i].after);
  }

  /** The first movement after `init` leaves the old cursor behind exactly where that had painted another
      colour than the layers below show, and the moved one paints nothing. */
  lemma {:induction false} GhostCursorIff(s: Scene, dx: int, dy: int, s': Scene, px: nat, py: nat)
    requires Started(s) && s.layers[s.mouse].prev == EMPTY && px < s.width && py < s.height
    requires Updates(PointerMoved(s, dx, dy), s.mouse, s')
    ensures Whole(s') && s'.width == s.width && s'.height == s.height
    ensures var first, moved := Paints(s.layers[s.mouse], px, py), Paints(PointerMoved(s, dx, dy).layers[s.mouse], px, py);
            !ShownAt(s', px, py) <==>
            first.Some? && first != Visible(LayersOf(s.layers, s.stack[..|s.stack| - 1]), px, py) && moved.None?
  {
    MoveKeepsClean(s, dx, dy);
    PointerPoint(PointerMoved(s, dx, dy), s', px, py);
    assert ShownAt(s, px, py);
    MouseShown(s, px, py);
  }

  lemma {:induction false} MouseShown(s: Scene, px: nat, py: nat)
    requires Stacked(s) && px < s.width && py < s.height && ShownAt(s, px, py)
    ensures var mouse := Paints(s.layers[s.mouse], px, py);
            BelowShownAt(s, px, py) <==>
            mouse.None? || mouse == Visible(LayersOf(s.layers, s.stack[..|s.stack| - 1]), px, py)
  {
    var ls, n := LayersOf(s.layers, s.stack), |s.stack| - 1;
    assert ls[..n] == LayersOf(s.layers, s.stack[..n]) && ls[n] == s.layers[s.mouse];
  }

  lemma {:induction false} PressedStack(s: Scene, x: nat, y: nat, hit: Option<LayerId>, s': Scene)
    requires Stacked(s) && PressSpec(s, x, y, s') && hit == Hit(s.layers, s.stack[..IndexOf(s.stack, s.mouse)], x, y)
    ensures hit.Some? && hit.value in s.windows ==>
      && s'.pressedId == hit.value && hit.value in s.stack
      && if IndexOf(s.stack, hit.value) == IndexOf(s.stack, s.mouse) - 1 then s'.stack == s.stack
         else Raised(s, hit.value) == Some(s'.stack)
    ensures !(hit.Some? && hit.value in s.windows) ==> s'.stack == s.stack
  {
    if hit.Some? {
      InStack(s.stack, IndexOf(s.stack, s.mouse), hit.value);
    }
  }

  /** A pressed window ends directly below the mouse, and all other layers keep their order. */
  lemma {:induction false} PressRaises(s: Scene, x: nat, y: nat, hit: Option<LayerId>, s': Scene)
    requires Kept(s) && PressSpec(s, x, y, s') && hit == Hit(s.layers, s.stack[..IndexOf(s.stack, s.mouse)], x, y)
    ensures Without(s'.stack, s'.pressedId) == Without(s.stack, s'.pressedId)
    ensures hit.Some? && hit.value in s.windows ==>
      && s'.pressedId == hit.value && |s'.stack| == |s.stack|
      && s'.stack[|s'.stack| - 2] == hit.value && s'.stack[|s'.stack| - 1] == s.mouse
    ensures !(hit.Some? && hit.value in s.windows) ==> s'.stack == s.stack
  {
    PressedStack(s, x, y, hit, s');
    if hit.Some? && hit.value in s.windows {
      NowBelowMouse(s, hit.value, s'.stack);
    }
  }

  lemma {:induction false} InStack(stack: seq<LayerId>, n: nat, id: LayerId)
    requires n <= |stack| && id in stack[..n]
    ensures id in stack
  {
  }

  lemma {:induction false} NowBelowMouse(s: Scene, id: LayerId, stack: seq<LayerId>)
    requires Stacked(s) && id in s.windows && id in s.stack
    requires if IndexOf(s.stack, id) == IndexOf(s.stack, s.mouse) - 1 then stack == s.stack else Raised(s, id) == Some(stack)
    ensures |stack| == |s.stack| && stack[|stack| - 2] == id && stack[|stack| - 1] == s.mouse
    ensures Without(stack, id) == Without(s.stack, id)
  {
    MouseOnTop(s);
    RaiseIsBelowMouse(s, id);
  }
}
