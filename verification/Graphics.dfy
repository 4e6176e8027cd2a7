/** The layer manager and window manager of src/graphics.rs: the loops and the changes in place, each
    operation proved to take exactly one step of `SceneRuns`. */
module Graphics {
  import opened Basics
  import opened Compositing
  import opened Painting
  import opened Scenes
  import opened SceneRuns

  datatype ObjectEvent = MouseLeftPress(x: nat, y: nat) | MouseLeftRelease(x: nat, y: nat)

  // ----- The two loops of `update` -----

  /** After the layers `ls` were painted, inside `r` only, over `before`. */
  ghost predicate Layered(before: seq<Pixel>, after: seq<Pixel>, width: nat, height: nat, ls: seq<Layer>, r: Rect)
    requires IsFrame(before, width, height) && IsFrame(after, width, height) && AllOk(ls)
  {
    forall px: nat, py: nat :: px < width && py < height ==> LayeredAt(before, after, width, height, ls, r, px, py)
  }

  ghost predicate LayeredAt(before: seq<Pixel>, after: seq<Pixel>, width: nat, height: nat, ls: seq<Layer>, r: Rect, px: nat, py: nat)
    requires IsFrame(before, width, height) && IsFrame(after, width, height) && AllOk(ls) && px < width && py < height
  {
    At(after, width, height, px, py) ==
    if r.Contains(px, py) then Visible(ls, px, py).GetOr(At(before, width, height, px, py))
    else At(before, width, height, px, py)
  }

  lemma {:induction false} LayeredMore(before: seq<Pixel>, mid: seq<Pixel>, after: seq<Pixel>, width: nat, height: nat,
                                       ls: seq<Layer>, l: Layer, r: Rect)
    requires IsFrame(before, width, height) && IsFrame(mid, width, height) && IsFrame(after, width, height)
    requires AllOk(ls) && l.Ok() && Layered(before, mid, width, height, ls, r) && Painted(mid, after, width, height, l, r)
    ensures AllOk(ls + [l]) && Layered(before, after, width, height, ls + [l], r)
  {
    var more := ls + [l];
    forall px: nat, py: nat | px < width && py < height ensures LayeredAt(before, after, width, height, more, r, px, py) {
      assert LayeredAt(before, mid, width, height, ls, r, px, py);
      assert more[..|ls|] == ls;
      assert At(after, width, height, px, py) == PixelAfter(mid, width, height, l, r, px, py);
    }
  }

  /** After the layers `ls` were painted in full over `before`. */
  ghost predicate Stacking(before: seq<Pixel>, after: seq<Pixel>, width: nat, height: nat, ls: seq<Layer>)
    requires IsFrame(before, width, height) && IsFrame(after, width, height) && AllOk(ls)
  {
    forall px: nat, py: nat :: px < width && py < height ==> StackingAt(before, after, width, height, ls, px, py)
  }

  ghost predicate StackingAt(before: seq<Pixel>, after: seq<Pixel>, width: nat, height: nat, ls: seq<Layer>, px: nat, py: nat)
    requires IsFrame(before, width, height) && IsFrame(after, width, height) && AllOk(ls) && px < width && py < height
  {
    At(after, width, height, px, py) == Visible(ls, px, py).GetOr(At(before, width, height, px, py))
  }

  lemma {:induction false} StackingMore(before: seq<Pixel>, mid: seq<Pixel>, after: seq<Pixel>, width: nat, height: nat,
                                        ls: seq<Layer>, l: Layer)
    requires IsFrame(before, width, height) && IsFrame(mid, width, height) && IsFrame(after, width, height)
    requires AllOk(ls) && l.Ok() && Stacking(before, mid, width, height, ls) && Painted(mid, after, width, height, l, l.rect)
    ensures AllOk(ls + [l]) && Stacking(before, after, width, height, ls + [l])
  {
    var more := ls + [l];
    forall px: nat, py: nat | px < width && py < height ensures StackingAt(before, after, width, height, more, px, py) {
      assert StackingAt(before, mid, width, height, ls, px, py);
      assert more[..|ls|] == ls;
      assert At(after, width, height, px, py) == PixelAfter(mid, width, height, l, l.rect, px, py);
    }
  }

  /** Painting another layer's worth of points only where that layer is. */
  lemma {:induction false} SameLook(before: seq<Pixel>, after: seq<Pixel>, width: nat, height: nat, l: Layer, l': Layer, r: Rect)
    requires IsFrame(before, width, height) && IsFrame(after, width, height) && l.Ok()
    requires l' == l.(prev := l'.prev) && Painted(before, after, width, height, l', r)
    ensures Painted(before, after, width, height, l, r)
  {
    forall px: nat, py: nat | px < width && py < height
      ensures At(after, width, height, px, py) == PixelAfter(before, width, height, l, r, px, py)
    {
      assert At(after, width, height, px, py) == PixelAfter(before, width, height, l', r, px, py);
    }
  }

  /** Both loops together leave what `ScreenUpdated` says. */
  lemma {:induction false} LoopsUpdate(s: Scene, id: LayerId, mid: seq<Pixel>, after: seq<Pixel>, below: seq<Layer>, above: seq<Layer>)
    requires id in s.layers && Known(s.layers, s.stack) && LayersOk(s.layers) && IsFrame(s.screen, s.width, s.height)
    requires IsFrame(mid, s.width, s.height) && IsFrame(after, s.width, s.height)
    requires var ls, k := LayersOf(s.layers, s.stack), SplitIndex(s.stack, id);
             && above == ls[k..] && (if id in s.stack then below == ls[..k] else below == ls)
    requires Layered(s.screen, mid, s.width, s.height, below, s.layers[id].prev)
    requires Stacking(mid, after, s.width, s.height, above)
    ensures ScreenUpdated(s, id, after)
  {
    var ls, k, prev := LayersOf(s.layers, s.stack), SplitIndex(s.stack, id), s.layers[id].prev;
    forall px: nat, py: nat | px < s.width && py < s.height
      ensures At(after, s.width, s.height, px, py) ==
              Repainted(ls[..k], ls[k..], prev, At(s.screen, s.width, s.height, px, py), px, py)
    {
      assert LayeredAt(s.screen, mid, s.width, s.height, below, prev, px, py);
      assert StackingAt(mid, after, s.width, s.height, above, px, py);
      assert ls == ls[..k] + ls[k..];
      VisibleConcat(ls[..k], ls[k..], px, py);
    }
  }

  class LayerManager {
    const painter: FrameBuffer
    const mouse: LayerId
    const desktop: LayerId
    var layers: map<LayerId, Layer>
    var layerStack: seq<LayerId>
    var windows: set<LayerId>
    var currId: LayerId
    var pressedId: LayerId
    var pressedX: nat
    var pressedY: nat

    ghost function View(): Scene
      reads this, painter, painter.buffer
    {
      Scene(painter.width, painter.height, layers, layerStack, windows, mouse, desktop, currId,
            pressedId, pressedX, pressedY, painter.buffer[..])
    }

    ghost predicate Valid()
      reads this, painter
    {
      painter.Valid() && Known(layers, layerStack) && LayersOk(layers)
    }

    /** `graphics::init`, with what the cursor and the wallpaper draw as parameters. */
    constructor (painter: FrameBuffer, cursor: seq<Pixel>, wallpaper: seq<Pixel>)
      requires painter.Valid() && |cursor| == 16 * 23 && |wallpaper| == painter.width * painter.height
      modifies painter.buffer
      ensures this.painter == painter && Valid()
      ensures Started(View()) && |layerStack| == 2 && windows == {}
      ensures layers[mouse] == Layer(Rect(0, 0, 16, 23), EMPTY, cursor, Some(0xff00ff00))
      ensures layers[desktop] == Layer(Rect(0, 0, painter.width, painter.height), EMPTY, wallpaper, None)
    {
      this.painter := painter;
      mouse, desktop, currId := 0, 1, 2;
      var cursorLayer := Layer(Rect(0, 0, 16, 23), EMPTY, cursor, Some(0xff00ff00));
      var desktopLayer := Layer(Rect(0, 0, painter.width, painter.height), EMPTY, wallpaper, None);
      layers := map[0 := cursorLayer, 1 := desktopLayer];
      layerStack, windows := [], {};
      pressedId, pressedX, pressedY := 0, 0, 0;
      new;
      var _ := MoveLayer(mouse, 0x7fff_ffff);
      var _ := MoveLayer(desktop, 0);
      assert layerStack == [1, 0];
      assert layers.Keys == {0, 1};
      assert windows == layers.Keys - {mouse, desktop};
      DrawAll();
    }

    /** `draw_all`, once every object has drawn itself into its layer. */
    method DrawAll()
      requires Valid()
      modifies painter.buffer
      ensures Valid()
      ensures Stacking(old(painter.buffer[..]), painter.buffer[..], painter.width, painter.height, LayersOf(layers, layerStack))
      ensures Stacked(View()) && Covered(View()) ==> Shows(View())
    {
      PaintFrom(0, LayersOf(layers, layerStack));
      if Stacked(View()) && Covered(View()) {
        StackingShows(View(), old(painter.buffer[..]));
      }
    }

    /** Paints the layers from index `first` on, each in full. */
    method PaintFrom(first: nat, ghost ls: seq<Layer>)
      requires Valid() && first <= |layerStack| == |ls| && AllOk(ls)
      requires forall i :: 0 <= i < |ls| ==> ls[i] == layers[layerStack[i]].(prev := ls[i].prev)
      modifies painter.buffer
      ensures Stacking(old(painter.buffer[..]), painter.buffer[..], painter.width, painter.height, ls[first..])
    {
      var i := first;
      while i < |layerStack|
        invariant first <= i <= |layerStack|
        invariant Stacking(old(painter.buffer[..]), painter.buffer[..], painter.width, painter.height, ls[first..i])
      {
        ghost var mid := painter.buffer[..];
        var layer := layers[layerStack[i]];
        painter.Transfer(layer, layer.rect);
        SameLook(mid, painter.buffer[..], painter.width, painter.height, ls[i], layer, layer.rect);
        StackingMore(old(painter.buffer[..]), mid, painter.buffer[..], painter.width, painter.height, ls[first..i], ls[i]);
        assert ls[first..i + 1] == ls[first..i] + [ls[i]];
        i := i + 1;
      }
      assert ls[first..i] == ls[first..];
    }

    /** The first loop of `update`: repairs the previous rectangle with the layers below `id`. */
    method RepairBelow(id: LayerId, prev: Rect) returns (index: nat)
      requires Valid()
      modifies painter.buffer
      ensures index == IndexOf(layerStack, id)
      ensures var ls := LayersOf(layers, layerStack);
              Layered(old(painter.buffer[..]), painter.buffer[..], painter.width, painter.height, ls[..index], prev)
    {
      ghost var ls := LayersOf(layers, layerStack);
      index := 0;
      while index < |layerStack|
        invariant index <= |layerStack| && id !in layerStack[..index]
        invariant Layered(old(painter.buffer[..]), painter.buffer[..], painter.width, painter.height, ls[..index], prev)
      {
        if layerStack[index] == id {
          IndexIsFirst(layerStack, id, index);
          return;
        }
        ghost var mid := painter.buffer[..];
        painter.Transfer(layers[layerStack[index]], prev);
        LayeredMore(old(painter.buffer[..]), mid, painter.buffer[..], painter.width, painter.height, ls[..index], ls[index], prev);
        assert ls[..index + 1] == ls[..index] + [ls[index]];
        index := index + 1;
      }
      assert layerStack[..index] == layerStack;
    }

    /** `update`: repairs what the layer left behind, and paints it and everything above it. */
    method Update(id: LayerId)
      requires Valid() && id in layers
      modifies this`layers, painter.buffer
      ensures Valid()
      ensures Updates(old(View()), id, View())
    {
      ghost var s := View();
      ghost var ls := LayersOf(layers, layerStack);
      var prev := layers[id].prev;
      var index := RepairBelow(id, prev);
      ghost var mid := painter.buffer[..];
      assert index == |layerStack| ==> ls[..index] == ls;
      if index < |layerStack| {
        layers := layers[id := layers[id].(prev := layers[id].rect)];
        assert layers.Keys == s.layers.Keys;
        PaintFrom(index, ls);
      } else if |layerStack| > 0 {
        PaintFrom(1, ls);
      } else {
        assert ls[0..] == [];
      }
      LoopsUpdate(s, id, mid, painter.buffer[..], ls[..index], ls[SplitIndex(layerStack, id)..]);
    }

    /** `get_layer_height`. */
    method GetLayerHeight(id: LayerId) returns (height: nat)
      ensures height == if id in layerStack then IndexOf(layerStack, id) else 0
    {
      var i := 0;
      while i < |layerStack|
        invariant i <= |layerStack| && id !in layerStack[..i]
      {
        if layerStack[i] == id {
          IndexIsFirst(layerStack, id, i);
          return i;
        }
        i := i + 1;
      }
      assert layerStack[..i] == layerStack;
      return 0;
    }

    /** `move_layer`; `panicked` is `Vec::insert` beyond the end. */
    method MoveLayer(id: LayerId, newHeight: int) returns (panicked: bool)
      modifies this`layerStack
      ensures panicked <==> id in old(layerStack) && newHeight >= |old(layerStack)|
      ensures !panicked ==> Restacked(old(layerStack), id, newHeight) == Some(layerStack)
    {
      ghost var stack := layerStack;
      var index := 0;
      while index < |layerStack| && layerStack[index] != id
        invariant index <= |layerStack| && layerStack == stack && id !in layerStack[..index]
      {
        index := index + 1;
      }
      var found := index < |layerStack|;
      if found {
        IndexIsFirst(layerStack, id, index);
      } else {
        assert layerStack[..index] == layerStack;
      }
      var height := if newHeight > |layerStack| then |layerStack| else newHeight;
      if found {
        layerStack := layerStack[..index] + layerStack[index + 1..];
      }
      if height < 0 {
        return false;
      }
      if height > |layerStack| {
        return true;
      }
      layerStack := layerStack[..height] + [id] + layerStack[height..];
      return false;
    }

    /** `move_abs` of a layer. */
    method MoveAbs(id: LayerId, x: int, y: int)
      requires Valid() && id in layers
      modifies this`layers
      ensures Valid() && View() == MovedTo(old(View()), id, x, y)
    {
      var newX, newY := x, y;
      if newX < 0 {
        newX := 0;
      } else if newX > painter.width {
        newX := painter.width;
      }
      if newY < 0 {
        newY := 0;
      } else if newY > painter.height {
        newY := painter.height;
      }
      var layer := layers[id];
      layers := layers[id := layer.(rect := layer.rect.(x := newX, y := newY))];
      assert layers.Keys == old(layers).Keys;
    }

    /** `create_window`: a new layer, not shown yet. */
    method CreateWindow(x: nat, y: nat, width: nat, height: nat) returns (id: LayerId)
      requires Valid() && Kept(View())
      modifies this
      ensures Valid() && Kept(View())
      ensures Next(old(View()), Op.CreateWindow(x, y, width, height), View()) && id == old(currId)
    {
      CreateKeepsShape(View(), x, y, width, height);
      id := currId;
      currId := currId + 1;
      var rect := Rect(x, y, width, height + TITLE_BAR_HEIGHT);
      layers := layers[id := Layer(rect, EMPTY, seq(rect.width * rect.height, _ => 0), None)];
      windows := windows + {id};
    }

    /** `show_window`, with what the window draws as a parameter. */
    method ShowWindow(id: LayerId, pixels: seq<Pixel>)
      requires Valid() && Kept(View()) && Enabled(View(), Op.ShowWindow(id, pixels))
      modifies this, painter.buffer
      ensures Valid() && Kept(View()) && Next(old(View()), Op.ShowWindow(id, pixels), View())
    {
      ghost var s := View();
      OthersEnds(s, id);
      RestackKeepsShape(s, id, 1);
      RestackPanicsIff(layerStack, id, 1);
      var _ := MoveLayer(id, 1);
      layers := layers[id := layers[id].(pixels := pixels)];
      assert layers.Keys == s.layers.Keys;
      assert View() == Redrawn(s.(stack := layerStack), id, pixels);
      Update(id);
      ShowIsWindowStep(s, id, pixels, View());
      WindowStepKeeps(s, View());
    }

    /** `update_window_frame`, with the new contents of the layer as a parameter. */
    method UpdateWindowFrame(id: LayerId, pixels: seq<Pixel>)
      requires Valid() && Kept(View()) && Enabled(View(), UpdateFrame(id, pixels))
      modifies this, painter.buffer
      ensures Valid() && Kept(View()) && Next(old(View()), UpdateFrame(id, pixels), View())
    {
      ghost var s := View();
      layers := layers[id := layers[id].(pixels := pixels)];
      assert layers.Keys == s.layers.Keys;
      assert View() == Redrawn(s, id, pixels);
      Update(id);
      RedrawIsWindowStep(s, id, pixels, View());
      WindowStepKeeps(s, View());
    }

    /** `move_rel` of the mouse, on one relative motion event of the pointer. */
    method MovePointerBy(dx: int, dy: int)
      requires Valid() && Kept(View())
      modifies this`layers
      ensures Valid() && Kept(View()) && Next(old(View()), MovePointer(dx, dy), View())
    {
      ghost var s := View();
      MoveAbs(mouse, layers[mouse].rect.x + dx, layers[mouse].rect.y + dy);
      MoveKeepsClean(s, dx, dy);
    }

    /** `update` of the mouse, on the synchronisation event that ends a packet. */
    method SyncMouse()
      requires Valid() && Kept(View())
      modifies this`layers, painter.buffer
      ensures Valid() && Kept(View()) && Next(old(View()), SyncPointer, View())
    {
      ghost var s := View();
      Update(mouse);
      PointerUpdateIff(s, View());
    }

    /** The search of `on_event`: the last layer below the mouse that is hit. */
    method FindHit(x: nat, y: nat) returns (hit: Option<LayerId>)
      requires Valid()
      ensures hit == Hit(layers, layerStack[..IndexOf(layerStack, mouse)], x, y)
    {
      hit := None;
      var i := 0;
      while i < |layerStack|
        invariant i <= |layerStack| && mouse !in layerStack[..i]
        invariant hit == Hit(layers, layerStack[..i], x, y)
      {
        if layerStack[i] == mouse {
          IndexIsFirst(layerStack, mouse, i);
          return;
        }
        assert layerStack[..i + 1][..i] == layerStack[..i];
        if IsHit(layers[layerStack[i]], x, y) {
          hit := Some(layerStack[i]);
        }
        i := i + 1;
      }
      assert layerStack[..i] == layerStack;
    }

    /** `on_event` with the mouse as its source. */
    method OnEvent(event: ObjectEvent)
      requires Valid() && Kept(View())
      modifies this, painter.buffer
      ensures Valid() && Kept(View())
      ensures match event
              case MouseLeftPress(x, y) => Next(old(View()), Press(x, y), View())
              case MouseLeftRelease(x, y) => Next(old(View()), Release(x, y), View())
    {
      match event
      case MouseLeftPress(x, y) => OnPress(x, y);
      case MouseLeftRelease(x, y) => OnRelease(x, y);
    }

    method OnPress(x: nat, y: nat)
      requires Valid() && Kept(View())
      modifies this, painter.buffer
      ensures Valid() && Kept(View()) && PressSpec(old(View()), x, y, View())
    {
      ghost var s := View();
      var hit := FindHit(x, y);
      pressedX, pressedY := x, y;
      if hit.Some? {
        pressedId := hit.value;
        if hit.value in windows {
          WindowPressed(hit.value, s);
        }
      }
      PressIsWindowStep(s, x, y, View());
      WindowStepKeeps(s, View());
    }

    /** `Window::on_event` on a press: raises the window to just below the mouse. */
    method WindowPressed(id: LayerId, ghost s: Scene)
      requires Valid() && Stacked(s) && id in s.windows && id in s.stack
      requires View() == s.(pressedX := pressedX, pressedY := pressedY, pressedId := pressedId)
      modifies this, painter.buffer
      ensures Valid()
      ensures if IndexOf(s.stack, id) == IndexOf(s.stack, s.mouse) - 1 then View() == old(View())
              else
                && Raised(s, id).Some? && Known(s.layers, Raised(s, id).value)
                && Updates(old(View()).(stack := Raised(s, id).value), id, View())
    {
      MouseOnTop(s);
      var height := GetLayerHeight(id);
      var mouseHeight := GetLayerHeight(mouse);
      if height == mouseHeight - 1 {
        return;
      }
      RaiseIsBelowMouse(s, id);
      RaiseTo(id, mouseHeight - 1);
    }

    /** Its `move_layer` and `update`. */
    method RaiseTo(id: LayerId, height: int)
      requires Valid() && id in layers && Restacked(layerStack, id, height).Some? && height < |layerStack|
      requires Known(layers, Restacked(layerStack, id, height).value)
      modifies this, painter.buffer
      ensures Valid()
      ensures Updates(old(View()).(stack := Restacked(old(layerStack), id, height).value), id, View())
    {
      ghost var s1 := View().(stack := Restacked(layerStack, id, height).value);
      var _ := MoveLayer(id, height);
      assert View() == s1;
      Update(id);
    }

    /** A release goes to whatever was pressed last. */
    method OnRelease(x: nat, y: nat)
      requires Valid() && Kept(View())
      modifies this, painter.buffer
      ensures Valid() && Kept(View()) && ReleaseSpec(old(View()), x, y, View())
    {
      ghost var s := View();
      var id := pressedId;
      if id in windows {
        var rect := layers[id].rect;
        var nextX, nextY := x - (pressedX - rect.x), y - (pressedY - rect.y);
        if !(pressedY > rect.y + TITLE_BAR_HEIGHT) {
          MoveAbs(id, nextX, nextY);
          Update(id);
        }
      }
      ReleaseIsWindowStep(s, x, y, View());
      WindowStepKeeps(s, View());
    }
  }

  /** A stack painted in full over an opaque desktop is what the screen shows. */
  lemma {:induction false} StackingShows(s: Scene, before: seq<Pixel>)
    requires Stacked(s) && Covered(s) && IsFrame(before, s.width, s.height)
    requires Stacking(before, s.screen, s.width, s.height, LayersOf(s.layers, s.stack))
    ensures Shows(s)
  {
    var ls := LayersOf(s.layers, s.stack);
    forall px: nat, py: nat | px < s.width && py < s.height
      ensures Some(At(s.screen, s.width, s.height, px, py)) == Visible(ls, px, py)
    {
      assert StackingAt(before, s.screen, s.width, s.height, ls, px, py);
      DesktopPaints(s, px, py);
      assert ls == [ls[0]] + ls[1..];
      VisibleAbove(ls[0], ls[1..], px, py);
    }
  }
}
