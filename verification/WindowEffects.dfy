/** What the window operations do to the window that they are called for (src/graphics.rs). */
module WindowEffects {
  import opened Basics
  import opened Compositing
  import opened Scenes
  import opened SceneRuns

  // ----- Where a move ends -----

  /** `moved` is `asked`, or the border of the display that it lies beyond. */
  predicate KeptInside(asked: int, limit: nat, moved: nat) {
    && (0 <= asked <= limit ==> moved == asked)
    && (asked < 0 ==> moved == 0)
    && (asked > limit ==> moved == limit)
  }

  /** The rectangle of the layer has gone by so much, as far as the display allows; all else is as it was. */
  ghost predicate MovedBy(s: Scene, s': Scene, id: LayerId, dx: int, dy: int) {
    && id in s.layers && id in s'.layers
    && KeptInside(s.layers[id].rect.x + dx, s.width, s'.layers[id].rect.x)
    && KeptInside(s.layers[id].rect.y + dy, s.height, s'.layers[id].rect.y)
    && s'.layers[id].rect.width == s.layers[id].rect.width && s'.layers[id].rect.height == s.layers[id].rect.height
    && s'.layers[id].pixels == s.layers[id].pixels && s'.layers[id].transparent == s.layers[id].transparent
    && s'.stack == s.stack
    && forall other :: other in s.layers && other != id ==> other in s'.layers && s'.layers[other] == s.layers[other]
  }

  lemma {:induction false} PointerFollows(s: Scene, dx: int, dy: int, s': Scene)
    requires Stacked(s) && Next(s, MovePointer(dx, dy), s')
    ensures MovedBy(s, s', s.mouse, dx, dy) && s'.screen == s.screen
  {
  }

  /** A released window that was pressed in its title bar has gone by as much as the pointer since the
      press; pressed below it, it stays. */
  lemma {:induction false} ReleaseMoves(s: Scene, x: nat, y: nat, s': Scene)
    requires Stacked(s) && Next(s, Release(x, y), s') && s.pressedId in s.windows
    ensures if s.pressedY <= s.layers[s.pressedId].rect.y + 30 then
              MovedBy(s, s', s.pressedId, x - s.pressedX, y - s.pressedY)
            else s' == s
  {
  }

  /** Press and release: the window under the press, if it was pressed in its title bar, follows the
      pointer from the one to the other. */
  lemma {:induction false} DragFollows(s: Scene, x1: nat, y1: nat, s1: Scene, x2: nat, y2: nat, s2: Scene, hit: Option<LayerId>)
    requires Kept(s) && Next(s, Press(x1, y1), s1) && Stacked(s1) && Next(s1, Release(x2, y2), s2)
    requires hit == Hit(s.layers, s.stack[..IndexOf(s.stack, s.mouse)], x1, y1) && hit.Some? && hit.value in s.windows
    ensures hit.value in s1.layers && s1.layers[hit.value].rect == s.layers[hit.value].rect
    ensures if y1 <= s.layers[hit.value].rect.y + 30 then MovedBy(s1, s2, hit.value, x2 - x1, y2 - y1) else s2 == s1
  {
    PressRecords(s, x1, y1, s1, hit);
    ReleaseMoves(s1, x2, y2, s2);
  }

  lemma {:induction false} PressRecords(s: Scene, x: nat, y: nat, s': Scene, hit: Option<LayerId>)
    requires Stacked(s) && Next(s, Press(x, y), s')
    requires hit == Hit(s.layers, s.stack[..IndexOf(s.stack, s.mouse)], x, y)
    ensures s'.pressedX == x && s'.pressedY == y && s'.pressedId == hit.GetOr(s.pressedId) && s'.windows == s.windows
    ensures forall id :: id in s.layers ==> id in s'.layers && s'.layers[id].rect == s.layers[id].rect
  {
  }

  // ----- What a press hits -----

  /** The point is strictly inside the rectangle. */
  predicate StrictlyInside(r: Rect, x: nat, y: nat) {
    r.x < x && x < r.x + r.width && r.y < y && y < r.y + r.height
  }

  /** A press hits the topmost layer that the point is strictly inside of, and nothing if there is none. */
  lemma {:induction false} HitIsTopmost(layers: map<LayerId, Layer>, stack: seq<LayerId>, x: nat, y: nat)
    requires Known(layers, stack)
    ensures Hit(layers, stack, x, y) == None <==> forall k :: 0 <= k < |stack| ==> !StrictlyInside(layers[stack[k]].rect, x, y)
    ensures forall k :: TopmostAt(layers, stack, x, y, k) ==> Hit(layers, stack, x, y) == Some(stack[k])
  {
    if stack != [] {
      var n := |stack| - 1;
      HitIsTopmost(layers, stack[..n], x, y);
      assert IsHit(layers[stack[n]], x, y) <==> StrictlyInside(layers[stack[n]].rect, x, y);
      assert forall k :: 0 <= k < n ==> stack[..n][k] == stack[k];
      forall k | TopmostAt(layers, stack, x, y, k) ensures Hit(layers, stack, x, y) == Some(stack[k]) {
        assert k < n ==> TopmostAt(layers, stack[..n], x, y, k);
      }
    }
  }

  predicate TopmostAt(layers: map<LayerId, Layer>, stack: seq<LayerId>, x: nat, y: nat, k: int)
    requires Known(layers, stack)
  {
    && 0 <= k < |stack| && StrictlyInside(layers[stack[k]].rect, x, y)
    && forall m :: k < m < |stack| ==> !StrictlyInside(layers[stack[m]].rect, x, y)
  }

  // ----- New windows and new contents -----

  /** A new window is a layer of its own, as large as asked for and 30 rows of title bar more, black, and
      not in the stack. */
  lemma {:induction false} NewWindowIsHidden(s: Scene, x: nat, y: nat, width: nat, height: nat, s': Scene)
    requires Kept(s) && Next(s, CreateWindow(x, y, width, height), s')
    ensures s.currId !in s.layers && s'.layers.Keys == s.layers.Keys + {s.currId} && s'.windows == s.windows + {s.currId}
    ensures s'.stack == s.stack && s.currId !in s'.stack && s'.screen == s.screen && s'.currId == s.currId + 1
    ensures var l := s'.layers[s.currId];
            && l.rect == Rect(x, y, width, height + 30) && l.transparent == None && l.prev == EMPTY
            && |l.pixels| == width * (height + 30) && forall i :: 0 <= i < |l.pixels| ==> l.pixels[i] == 0
  {
    CreateKeepsShape(s, x, y, width, height);
  }

  /** A shown window is directly above the desktop, with all other layers in their order. */
  lemma {:induction false} ShownAboveDesktop(s: Scene, id: LayerId, pixels: seq<Pixel>, s': Scene)
    requires Stacked(s) && Enabled(s, ShowWindow(id, pixels)) && Next(s, ShowWindow(id, pixels), s')
    ensures |s'.stack| >= 2 && s'.stack[0] == s.desktop && s'.stack[1] == id && Without(s'.stack, id) == Without(s.stack, id)
    ensures id in s'.layers && s'.layers[id].pixels == pixels && s'.layers[id].rect == s.layers[id].rect
  {
    OthersEnds(s, id);
    RestackKeepsShape(s, id, 1);
  }

  /** A window that is updated keeps its place and gets the new contents, and the screen has those that are
      in sight. */
  lemma {:induction false} FrameShown(s: Scene, id: LayerId, pixels: seq<Pixel>, s': Scene)
    requires Kept(s) && Enabled(s, UpdateFrame(id, pixels)) && Next(s, UpdateFrame(id, pixels), s')
    ensures id in s'.layers && s'.layers[id].pixels == pixels && s'.layers[id].rect == s.layers[id].rect && s'.stack == s.stack
    ensures Kept(s')
    ensures id in s.stack ==> forall i: nat, j: nat :: InSight(s', IndexOf(s'.stack, id), i, j) ==>
              OnScreen(s', IndexOf(s'.stack, id), i, j)
  {
    RedrawIsWindowStep(s, id, pixels, s');
    WindowStepKeeps(s, s');
    if id in s.stack {
      forall i: nat, j: nat | InSight(s', IndexOf(s'.stack, id), i, j) ensures OnScreen(s', IndexOf(s'.stack, id), i, j) {
        SightKept(Redrawn(s, id, pixels), id, s', i, j);
        UpdateShowsPixel(Redrawn(s, id, pixels), id, s', i, j);
      }
    }
  }

  /** Recording where a layer is does not change what is in sight. */
  lemma {:induction false} SightKept(s: Scene, id: LayerId, s': Scene, i: nat, j: nat)
    requires Whole(s) && id in s.stack && id in s.layers && Updates(s, id, s') && Whole(s')
    requires InSight(s', IndexOf(s'.stack, id), i, j)
    ensures InSight(s, IndexOf(s.stack, id), i, j)
  {
    var k := IndexOf(s.stack, id);
    forall m | k < m < |s.stack|
      ensures Clear(s.layers[s.stack[m]].rect, s.layers[id].rect.x + i, s.layers[id].rect.y + j)
    {
      assert Clear(s'.layers[s'.stack[m]].rect, s'.layers[id].rect.x + i, s'.layers[id].rect.y + j);
    }
  }
}
