/** The handler that focuses and drags windows, over the draw list and its static variables. */
module MouseInput {
  import opened OrderedArrays
  import opened StableSorting
  import opened WindowModel
  import opened WindowStack

  function Maybe(w: Window?): Option<Window?> {
    if w == null then None else Some(w)
  }

  ghost function Shapes(s: seq<Window?>): map<Window?, Shape>
    requires Windows(s)
    reads s
  {
    map w | w in s :: ShapeOf(s, w)
  }

  ghost function ShapeOf(s: seq<Window?>, w: Window?): Shape
    requires w in s && Windows(s)
    reads s
  {
    Shape(w.frame, w.viewport)
  }

  lemma ShapeAt(s: seq<Window?>, i: nat)
    requires Windows(s) && i < |s|
    ensures s[i] in Shapes(s) && Shapes(s)[s[i]] == Shape(s[i].frame, s[i].viewport)
  {
  }

  // The pointer is on the window's frame.
  ghost predicate On(w: Window?, m: Mouse)
    requires w != null
    reads w
  {
    w.frame.l <= m.x <= w.frame.r && w.frame.t <= m.y <= w.frame.b
  }

  method Touches(w: Window?, m: Mouse) returns (b: bool)
    requires w != null
    ensures b <==> On(w, m)
  {
    b := PointInRect(m.x, m.y, w.frame.l, w.frame.t, w.frame.r, w.frame.b);
  }

  method Titled(w: Window, m: Mouse) returns (b: bool)
    ensures b <==> w.frame.l <= m.x <= w.frame.r && w.frame.t <= m.y <= w.viewport.t
  {
    b := PointInRect(m.x, m.y, w.frame.l, w.frame.t, w.frame.r, w.viewport.t);
  }

  lemma TopmostWindow(s: seq<Window?>, m: Mouse, h: nat)
    requires Windows(s) && h <= |s|
    requires h > 0 ==> On(s[h - 1], m)
    requires forall k :: h <= k < |s| ==> !On(s[k], m)
    ensures (forall w :: w in s ==> w in Shapes(s)) && Topmost(s, Shapes(s), m) == h
  {
    ShapesAre(s);
    hide Shapes, Distinct;
    TopmostIs(s, Shapes(s), m, h);
  }

  lemma OnePlace(s: seq<Window?>, i: nat, h: nat)
    requires Distinct(s) && i < |s| && h <= |s|
    ensures (h > 0 && s[h - 1] == s[i]) <==> h == i + 1
  {
  }

  lemma TitleIs(s: Shape, m: Mouse)
    ensures InTitle(s, m) <==> s.frame.l <= m.x <= s.frame.r && s.frame.t <= m.y <= s.viewport.t
  {
  }

  class Handler {
    const windows: WindowDrawList
    var w: Window?
    var downX: int32
    var downY: int32

    ghost predicate Valid()
      reads this, windows, windows.list, windows.list.slots
    {
      windows.Valid()
    }

    ghost predicate Settled()
      requires Valid()
      reads this, windows, windows.list, windows.list.slots, windows.list.Contents()
    {
      windows.Settled()
    }

    ghost function View(): Desk<Window?>
      requires Valid()
      reads this, windows, windows.list, windows.list.slots, windows.list.Contents()
    {
      Desk(windows.Stack(), Shapes(windows.Stack()), Maybe(windows.lastFocused), Maybe(w), downX, downY)
    }

    constructor (windows: WindowDrawList)
      requires windows.Valid() && windows.Settled()
      ensures this.windows == windows && Valid() && Settled() && w == null
    {
      this.windows := windows;
      w, downX, downY := null, 0, 0;
    }

    // `h` windows are below the topmost one under the pointer or are that one.
    method HoveringWindow(window: Window, m: Mouse) returns (b: bool, ghost h: nat)
      requires Valid() && Shown(View())
      ensures h == Topmost(View().order, View().shapes, m) && (b <==> h > 0 && windows.Stack()[h - 1] == window)
      ensures h > 0 ==> On(windows.Stack()[h - 1], m)
      ensures forall k :: h <= k < |windows.Stack()| ==> !On(windows.Stack()[k], m)
    {
      hide Topmost, Distinct, Shapes, On;
      ghost var s := windows.Stack();
      h := 0;
      var hovering: Window? := null;
      var i := 0;
      while i < windows.list.size
        invariant h <= i <= |s| == windows.list.size && hovering == if h == 0 then null else s[h - 1]
        invariant h > 0 ==> On(s[h - 1], m)
        invariant forall k :: h <= k < i ==> !On(s[k], m)
      {
        var w := windows.list.Get(i);
        assert w == s[i];
        var touched := Touches(w, m);
        if touched {
          hovering := w;
          h := i + 1;
        }
        i := i + 1;
      }
      TopmostWindow(s, m, h);
      assert View().order == s && View().shapes == Shapes(s);
      b := window == hovering;
    }

    method Focus(window: Window, ghost i: nat)
      requires Valid() && Settled() && i < |windows.Stack()| && windows.Stack()[i] == window
      modifies windows`lastFocused, windows.list.slots, windows.Stack()`zindex
      ensures Valid() && Settled() && windows.list.size == old(windows.list.size)
      ensures window in windows.Stack()
      ensures View() == old(View()).(order := Raised(old(View()).order, i), focused := Some(window))
      ensures forall k :: 0 <= k < |windows.Stack()| ==> windows.Stack()[k] in old(windows.Stack())
    {
      hide Raised, Shapes, Distinct;
      ghost var s := windows.Stack();
      ghost var shapes := Shapes(s);
      assert window in s;
      ShapesAre(s);
      RaisedWindows(s, i);
      windows.FocusWindow(window);
      SameShapes(s, windows.Stack());
      StillShapes(s, shapes);
    }

    method Move(window: Window, dx: int32, dy: int32)
      requires Valid() && Settled() && window in windows.Stack()
      modifies window`frame, window`viewport
      ensures Valid() && Settled()
      ensures window in old(View()).shapes
      ensures View() == old(View()).(shapes :=
                old(View()).shapes[window := Shifted(old(View()).shapes[window], dx, dy)])
      ensures var a, b, c, e := old(window.frame), window.frame, old(window.viewport), window.viewport;
        && Goes(a.l, dx, b.l) && Goes(a.r, dx, b.r) && Goes(a.t, dy, b.t) && Goes(a.b, dy, b.b)
        && Goes(c.l, dx, e.l) && Goes(c.r, dx, e.r) && Goes(c.t, dy, e.t) && Goes(c.b, dy, e.b)
    {
      hide Distinct, Signed, Goes;
      ShiftedEdges(Shape(window.frame, window.viewport), dx, dy);
      window.frame := Rect(Signed(window.frame.l + dx), Signed(window.frame.t + dy),
                           Signed(window.frame.r + dx), Signed(window.frame.b + dy));
      window.viewport := Rect(Signed(window.viewport.l + dx), Signed(window.viewport.t + dy),
                              Signed(window.viewport.r + dx), Signed(window.viewport.b + dy));
    }

    method Remember(window: Window?, x: int32, y: int32)
      requires Valid() && Settled()
      modifies this`w, this`downX, this`downY
      ensures Valid() && Settled() && w == window
      ensures View() == old(View()).(grabbed := Maybe(window), downX := x, downY := y)
    {
      hide Shapes;
      w, downX, downY := window, x, y;
    }

    method Press(window: Window, ghost i: nat, m: Mouse)
      requires Valid() && Settled() && i < |windows.Stack()| && windows.Stack()[i] == window
      modifies this`w, this`downX, this`downY, windows`lastFocused, windows.list.slots, windows.Stack()`zindex
      ensures Valid() && Settled() && windows.list.size == old(windows.list.size)
      ensures window in windows.Stack()
      ensures Shown(old(View())) && View() == PressWindow(old(View()), i, m)
      ensures forall k :: 0 <= k < |windows.Stack()| ==> windows.Stack()[k] in old(windows.Stack())
    {
      hide Topmost, Raised, PointInRect, Shapes, Distinct, Hit, InTitle;
      var pressed := m.down && !m.wasDown;
      ShapeAt(windows.Stack(), i);
      ViewShown();
      var hovering, h := HoveringWindow(window, m);
      assert (h > 0 && windows.Stack()[h - 1] == window) <==> h == i + 1 by { OnePlace(windows.Stack(), i, h); }
      TitleIs(Shapes(windows.Stack())[window], m);
      var title := Titled(window, m);
      if hovering {
        if pressed {
          Focus(window, i);
        }
      }
      if hovering && title {
        if pressed {
          Remember(window, m.x, m.y);
        }
      }
    }

    lemma ViewShown()
      requires Valid()
      ensures Shown(View())
    {
      ShapesAre(windows.Stack());
    }

    method Drag(window: Window, m: Mouse)
      requires Valid() && Settled() && window in windows.Stack()
      modifies this`w, this`downX, this`downY, window`frame, window`viewport
      ensures Valid() && Settled()
      ensures Shown(old(View())) && window in old(View()).shapes
      ensures View() == DragWindow(old(View()), window, m)
    {
      hide Shapes, Shifted, Distinct, Signed;
      var released, held := !m.down && m.wasDown, m.down && m.wasDown;
      ViewShown();
      if w == window {
        if released {
          Remember(null, downX, downY);
        } else if held {
          Move(window, Signed(m.x - downX), Signed(m.y - downY));
          Remember(w, m.x, m.y);
        }
      }
    }

    // One round of the handler's loop.
    method HandleWindow(i: nat, m: Mouse)
      requires Valid() && Settled() && i < windows.list.size
      modifies this`w, this`downX, this`downY, windows`lastFocused, windows.list.slots
      modifies windows.Stack()`zindex, windows.Stack()`frame, windows.Stack()`viewport
      ensures Valid() && Settled() && windows.list.size == old(windows.list.size)
      ensures Shown(old(View())) && View() == Visit(old(View()), i, m)
      ensures forall k :: 0 <= k < |windows.Stack()| ==> windows.Stack()[k] in old(windows.Stack())
    {
      hide PressWindow, DragWindow, Shapes, Distinct;
      var window := windows.list.Get(i);
      Press(window, i, m);
      Drag(window, m);
    }

    method HandleDragFocusInput(m: Mouse)
      requires Valid() && Settled()
      modifies this`w, this`downX, this`downY, windows`lastFocused, windows.list.slots
      modifies windows.Stack()`zindex, windows.Stack()`frame, windows.Stack()`viewport
      ensures Valid() && Settled()
      ensures Shown(old(View())) && View() == Handle(old(View()), m)
      ensures Follows(old(View()), View(), m)
    {
      var i := 0;
      while i < windows.list.size
        invariant i <= windows.list.size == old(windows.list.size) && Valid() && Settled()
        invariant Shown(View()) && Shown(old(View()))
        invariant Loop(View(), i, m) == Loop(old(View()), 0, m)
        invariant forall k :: 0 <= k < |windows.Stack()| ==> windows.Stack()[k] in old(windows.Stack())
      {
        HandleWindow(i, m);
        i := i + 1;
      }
      LoopHandles(old(View()), m);
      hide Follows;
      HandleFollows(old(View()), m);
    }
  }

  lemma RaisedWindows(s: seq<Window?>, i: nat)
    requires i < |s| && Windows(s)
    ensures Windows(Raised(s, i))
    ensures forall x :: x in Raised(s, i) <==> x in s
    ensures forall k :: 0 <= k < |s| ==> Raised(s, i)[k] in s
  {
    SplitAt(s, i);
  }

  lemma ShapesAre(s: seq<Window?>)
    requires Windows(s)
    ensures Shapes(s).Keys == set x | x in s
    ensures forall i :: 0 <= i < |s| ==> Shapes(s)[s[i]] == Shape(s[i].frame, s[i].viewport)
  {
  }

  lemma SameShapes(s: seq<Window?>, t: seq<Window?>)
    requires Windows(s) && Windows(t) && forall x :: x in s <==> x in t
    ensures Shapes(s) == Shapes(t)
  {
  }

  lemma StillShapes(s: seq<Window?>, shapes: map<Window?, Shape>)
    requires Windows(s) && shapes.Keys == set x | x in s
    requires forall i :: 0 <= i < |s| ==> shapes[s[i]] == Shape(s[i].frame, s[i].viewport)
    ensures Shapes(s) == shapes
  {
  }
}
