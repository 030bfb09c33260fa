/** The stack of windows and the mouse handler, as functions on values. */
module WindowModel {
  import opened OrderedArrays
  import opened StableSorting

  const TWO_31 := 0x8000_0000

  type int32 = x: int | -TWO_31 <= x < TWO_31

  // The value a signed 32-bit sum or difference leaves, with two's complement wrap-around.
  function Signed(x: int): (r: int32)
    ensures -TWO_31 <= x < TWO_31 ==> r == x
  {
    (x + TWO_31) % (2 * TWO_31) - TWO_31
  }

  // `y` is `x + d` modulo 2^32, and exactly that where it is a 32-bit value.
  ghost predicate Goes(x: int32, d: int, y: int32): (g: bool)
    ensures g && -TWO_31 <= x + d < TWO_31 ==> y == x + d
  {
    (y - (x + d)) % 0x1_0000_0000 == 0
  }

  datatype Rect = Rect(l: int32, t: int32, r: int32, b: int32)
  datatype Shape = Shape(frame: Rect, viewport: Rect)
  datatype Mouse = Mouse(x: int32, y: int32, down: bool, wasDown: bool)
  datatype Option<T> = None | Some(value: T)

  // The windows from bottom to top, and the static variables of the handler.
  datatype Desk<T> = Desk(
    order: seq<T>, shapes: map<T, Shape>, focused: Option<T>, grabbed: Option<T>, downX: int32, downY: int32)

  predicate PointInRect(x: int, y: int, l: int, t: int, r: int, b: int) {
    l <= x <= r && t <= y <= b
  }

  predicate Hit(s: Shape, m: Mouse) {
    PointInRect(m.x, m.y, s.frame.l, s.frame.t, s.frame.r, s.frame.b)
  }

  predicate InTitle(s: Shape, m: Mouse) {
    PointInRect(m.x, m.y, s.frame.l, s.frame.t, s.frame.r, s.viewport.t)
  }

  function Moved(r: Rect, dx: int, dy: int): Rect {
    Rect(Signed(r.l + dx), Signed(r.t + dy), Signed(r.r + dx), Signed(r.b + dy))
  }

  function Shifted(s: Shape, dx: int, dy: int): Shape {
    Shape(Moved(s.frame, dx, dy), Moved(s.viewport, dx, dy))
  }

  predicate Shown<T(==)>(d: Desk<T>) {
    Distinct(d.order) && forall w :: w in d.order ==> w in d.shapes
  }

  // The number of windows up to and including the topmost one under the pointer; 0 if there is none.
  function Topmost<T(==)>(order: seq<T>, shapes: map<T, Shape>, m: Mouse): (h: nat)
    requires forall w :: w in order ==> w in shapes
    ensures h <= |order|
    ensures h > 0 ==> var f := shapes[order[h - 1]].frame; f.l <= m.x <= f.r && f.t <= m.y <= f.b
    ensures forall i :: h <= i < |order| ==>
              var f := shapes[order[i]].frame; !(f.l <= m.x <= f.r && f.t <= m.y <= f.b)
  {
    if order == [] then 0
    else if Hit(shapes[order[|order| - 1]], m) then |order|
    else Topmost(order[..|order| - 1], shapes, m)
  }

  // Being hit with nothing hit above determines the topmost window.
  lemma {:induction false} TopmostIs<T>(order: seq<T>, shapes: map<T, Shape>, m: Mouse, h: nat)
    requires (forall w :: w in order ==> w in shapes) && h <= |order|
    requires h > 0 ==> var f := shapes[order[h - 1]].frame; f.l <= m.x <= f.r && f.t <= m.y <= f.b
    requires forall i :: h <= i < |order| ==>
               var f := shapes[order[i]].frame; !(f.l <= m.x <= f.r && f.t <= m.y <= f.b)
    ensures Topmost(order, shapes, m) == h
  {
    if h < |order| {
      TopmostIs(order[..|order| - 1], shapes, m, h);
    }
  }

  // ---- the handler's loop ----

  // A round focuses and grabs the window at position i if it is the topmost under a pressed pointer,
  function PressWindow<T(==)>(d: Desk<T>, i: nat, m: Mouse): (r: Desk<T>)
    requires Shown(d) && i < |d.order|
    ensures Shown(r) && |r.order| == |d.order| && r.shapes == d.shapes
  {
    if !(m.down && !m.wasDown && Topmost(d.order, d.shapes, m) == i + 1) then d else
    var w := d.order[i];
    var focus := d.(order := Raised(d.order, i), focused := Some(w));
    if InTitle(d.shapes[w], m) then focus.(grabbed := Some(w), downX := m.x, downY := m.y) else focus
  }

  // and then drags or lets go of it if it is the grabbed one.
  function DragWindow<T(==)>(d: Desk<T>, w: T, m: Mouse): (r: Desk<T>)
    requires Shown(d) && w in d.shapes
    ensures Shown(r) && r.order == d.order
  {
    if d.grabbed != Some(w) || !m.wasDown then d
    else if !m.down then d.(grabbed := None)
    else d.(shapes := d.shapes[w := Shifted(d.shapes[w], Signed(m.x - d.downX), Signed(m.y - d.downY))],
            downX := m.x, downY := m.y)
  }

  function Visit<T(==)>(d: Desk<T>, i: nat, m: Mouse): (r: Desk<T>)
    requires Shown(d) && i < |d.order|
    ensures Shown(r) && |r.order| == |d.order|
  {
    DragWindow(PressWindow(d, i, m), d.order[i], m)
  }

  function Loop<T(==)>(d: Desk<T>, i: nat, m: Mouse): (r: Desk<T>)
    requires Shown(d)
    ensures Shown(r)
    decreases |d.order| - i
  {
    if i >= |d.order| then d else Loop(Visit(d, i, m), i + 1, m)
  }

  // ---- what a whole call does ----

  function Press<T(==)>(d: Desk<T>, m: Mouse): Desk<T>
    requires Shown(d)
  {
    var h := Topmost(d.order, d.shapes, m);
    if h == 0 then d else
    var w := d.order[h - 1];
    var focus := d.(order := Raised(d.order, h - 1), focused := Some(w));
    if InTitle(d.shapes[w], m) then focus.(grabbed := Some(w), downX := m.x, downY := m.y) else focus
  }

  function Hold<T(==)>(d: Desk<T>, m: Mouse): Desk<T>
    requires Shown(d)
  {
    if d.grabbed.None? || d.grabbed.value !in d.order then d else
    var w := d.grabbed.value;
    d.(shapes := d.shapes[w := Shifted(d.shapes[w], Signed(m.x - d.downX), Signed(m.y - d.downY))],
       downX := m.x, downY := m.y)
  }

  function Release<T(==)>(d: Desk<T>): Desk<T> {
    if d.grabbed.Some? && d.grabbed.value in d.order then d.(grabbed := None) else d
  }

  function Handle<T(==)>(d: Desk<T>, m: Mouse): Desk<T>
    requires Shown(d)
  {
    if m.down && !m.wasDown then Press(d, m)
    else if m.down then Hold(d, m)
    else if m.wasDown then Release(d)
    else d
  }

  // A window raised to the top is the topmost hit from then on.
  lemma RaisedIsTopmost<T>(d: Desk<T>, m: Mouse)
    requires Shown(d) && Topmost(d.order, d.shapes, m) > 0
    ensures Shown(Press(d, m))
    ensures |Press(d, m).order| == Topmost(Press(d, m).order, Press(d, m).shapes, m) == |d.order|
  {
    hide InTitle, Hit;
    var h := Topmost(d.order, d.shapes, m);
    var r := Press(d, m);
    assert r.order[|r.order| - 1] == d.order[h - 1];
  }

  lemma RaiseTop<T>(s: seq<T>)
    requires s != []
    ensures Raised(s, |s| - 1) == s
  {
  }

  // After the raise the loop goes on over the rearranged list; it changes nothing any more, even
  // when it meets the raised window again at the end.
  lemma {:induction false} LoopAfterPress<T>(d: Desk<T>, r: Desk<T>, i: nat, m: Mouse)
    requires Shown(d) && m.down && !m.wasDown && 0 < Topmost(d.order, d.shapes, m) <= i
    requires r == Press(d, m) && Shown(r)
    ensures Loop(r, i, m) == r
    decreases |d.order| - i
  {
    hide InTitle, Hit, Press;
    RaisedIsTopmost(d, m);
    if i < |d.order| {
      VisitAfterPress(d, r, i, m);
      LoopAfterPress(d, r, i + 1, m);
    }
  }

  lemma VisitAfterPress<T>(d: Desk<T>, r: Desk<T>, i: nat, m: Mouse)
    requires Shown(d) && m.down && !m.wasDown && 0 < Topmost(d.order, d.shapes, m) <= i < |d.order|
    requires r == Press(d, m) && Shown(r)
    ensures |r.order| == |d.order| && Visit(r, i, m) == r
  {
    hide InTitle, Hit;
    RaisedIsTopmost(d, m);
    if i == |d.order| - 1 {
      RaiseTop(r.order);
    }
  }

  lemma {:induction false} LoopPress<T>(d: Desk<T>, i: nat, m: Mouse)
    requires Shown(d) && m.down && !m.wasDown
    requires Topmost(d.order, d.shapes, m) == 0 || i < Topmost(d.order, d.shapes, m)
    ensures Loop(d, i, m) == Press(d, m)
    decreases |d.order| - i
  {
    if i < |d.order| {
      VisitPressed(d, i, m);
      hide InTitle, Hit, Topmost, Press, Visit, Shown;
      if Topmost(d.order, d.shapes, m) == i + 1 {
        RaisedIsTopmost(d, m);
        LoopAfterPress(d, Press(d, m), i + 1, m);
      } else {
        LoopPress(d, i + 1, m);
      }
    }
  }

  lemma VisitPressed<T>(d: Desk<T>, i: nat, m: Mouse)
    requires Shown(d) && m.down && !m.wasDown && i < |d.order|
    ensures Visit(d, i, m) == if Topmost(d.order, d.shapes, m) == i + 1 then Press(d, m) else d
  {
    hide InTitle, Hit;
  }

  // A held or released button acts once, on the grabbed window's round.
  lemma {:induction false} LoopIdle<T>(d: Desk<T>, i: nat, m: Mouse)
    requires Shown(d) && (m.wasDown || !m.down)
    requires m.wasDown && d.grabbed.Some? ==> d.grabbed.value !in d.order[if i < |d.order| then i else |d.order|..]
    ensures Loop(d, i, m) == d
    decreases |d.order| - i
  {
    if i < |d.order| {
      assert d.order[i] in d.order[i..];
      LoopIdle(d, i + 1, m);
    }
  }

  lemma {:induction false} LoopHeld<T>(d: Desk<T>, i: nat, m: Mouse)
    requires Shown(d) && m.wasDown && i <= |d.order|
    requires d.grabbed.Some? ==> d.grabbed.value !in d.order[..i]
    ensures Loop(d, i, m) == Handle(d, m)
    decreases |d.order| - i
  {
    hide Hit, InTitle;
    if i == |d.order| {
      assert d.order[..i] == d.order;
    } else if d.grabbed == Some(d.order[i]) {
      LoopIdle(Visit(d, i, m), i + 1, m);
    } else {
      assert d.order[..i + 1] == d.order[..i] + [d.order[i]];
      LoopHeld(d, i + 1, m);
    }
  }

  // The loop, which may rearrange the list it runs over, does exactly what the call should do.
  lemma LoopHandles<T>(d: Desk<T>, m: Mouse)
    requires Shown(d)
    ensures Loop(d, 0, m) == Handle(d, m)
  {
    if m.down && !m.wasDown {
      LoopPress(d, 0, m);
    } else if m.wasDown {
      LoopHeld(d, 0, m);
    } else {
      LoopIdle(d, 0, m);
    }
  }

  // ---- what the user sees ----

  // A press raises the topmost window under the pointer and leaves the others in their order, and grabs the window
  // when it is above its viewport; with nothing under the pointer it changes nothing at all.
  lemma PressRaises<T>(d: Desk<T>, m: Mouse, h: nat)
    requires Shown(d) && m.down && !m.wasDown && 0 < h <= |d.order|
    requires var f := d.shapes[d.order[h - 1]].frame; f.l <= m.x <= f.r && f.t <= m.y <= f.b
    requires forall i :: h <= i < |d.order| ==>
               var f := d.shapes[d.order[i]].frame; !(f.l <= m.x <= f.r && f.t <= m.y <= f.b)
    ensures var r, w := Loop(d, 0, m), d.order[h - 1];
            var f := d.shapes[w].frame;
            && r.order == d.order[..h - 1] + d.order[h..] + [w]
            && r.shapes == d.shapes && r.focused == Some(w)
            && if f.l <= m.x <= f.r && f.t <= m.y <= d.shapes[w].viewport.t
               then r.grabbed == Some(w) && r.downX == m.x && r.downY == m.y
               else r.grabbed == d.grabbed && r.downX == d.downX && r.downY == d.downY
  {
    TopmostIs(d.order, d.shapes, m, h);
    hide Topmost;
    LoopHandles(d, m);
  }

  lemma PressOutside<T>(d: Desk<T>, m: Mouse)
    requires Shown(d) && m.down && !m.wasDown
    requires forall i :: 0 <= i < |d.order| ==>
               var f := d.shapes[d.order[i]].frame; !(f.l <= m.x <= f.r && f.t <= m.y <= f.b)
    ensures Loop(d, 0, m) == d
  {
    hide InTitle;
    LoopHandles(d, m);
  }

  // A release lets go and leaves everything where it is, and without a press or a grab nothing happens at all.
  lemma ReleaseKeeps<T>(d: Desk<T>, m: Mouse)
    requires Shown(d) && !m.down
    ensures var r := Loop(d, 0, m);
            && r.order == d.order && r.shapes == d.shapes && r.focused == d.focused
            && r.downX == d.downX && r.downY == d.downY
            && r.grabbed == if m.wasDown && d.grabbed.Some? && d.grabbed.value in d.order then None else d.grabbed
  {
    LoopHandles(d, m);
  }

  lemma HoldWithoutGrab<T>(d: Desk<T>, m: Mouse)
    requires Shown(d) && m.down && m.wasDown && (d.grabbed.Some? ==> d.grabbed.value !in d.order)
    ensures Loop(d, 0, m) == d
  {
    LoopHandles(d, m);
  }

  // One call per mouse sample while the button is held.
  function Drag<T(==)>(d: Desk<T>, path: seq<(int32, int32)>): (r: Desk<T>)
    requires Shown(d)
    ensures Shown(r)
    decreases |path|
  {
    if path == [] then d
    else Drag(Loop(d, 0, Mouse(path[0].0, path[0].1, true, true)), path[1..])
  }

  function Last(d: (int32, int32), path: seq<(int32, int32)>): (int32, int32) {
    if path == [] then d else path[|path| - 1]
  }

  lemma SignedTurns(x: int, k: int)
    ensures Signed(x + k * (2 * TWO_31)) == Signed(x)
  {
    var n := 2 * TWO_31;
    assert x + TWO_31 + k * n == ((x + TWO_31) / n + k) * n + (x + TWO_31) % n;
  }

  lemma SignedSum(x: int, a: int)
    ensures Signed(x + Signed(a)) == Signed(x + a)
  {
    var k := (a + TWO_31) / (2 * TWO_31);
    assert Signed(a) == a + -k * (2 * TWO_31);
    SignedTurns(x + a, -k);
  }

  // Wrapping on the way makes no difference to where a sum ends.
  lemma SignedAdds(x: int, a: int, c: int)
    ensures Signed(Signed(x + Signed(a)) + c) == Signed(x + (a + c))
  {
    hide Signed;
    SignedSum(x, a);
    SignedSum(c, x + a);
    assert x + (a + c) == c + (x + a);
  }

  lemma StaysPut(s: Shape)
    ensures Shifted(s, 0, 0) == s
  {
  }

  lemma MovesAdd(r: Rect, a: int, b: int, c: int, d: int)
    ensures Moved(Moved(r, Signed(a), Signed(b)), c, d) == Moved(r, a + c, b + d)
  {
    hide Signed;
    SignedAdds(r.l, a, c);
    SignedAdds(r.r, a, c);
    SignedAdds(r.t, b, d);
    SignedAdds(r.b, b, d);
  }

  lemma ShiftsAdd(s: Shape, a: int, b: int, c: int, d: int)
    ensures Shifted(Shifted(s, Signed(a), Signed(b)), c, d) == Shifted(s, a + c, b + d)
  {
    hide Signed, Moved;
    MovesAdd(s.frame, a, b, c, d);
    MovesAdd(s.viewport, a, b, c, d);
  }

  lemma SignedGoes(x: int32, d: int)
    ensures Goes(x, d, Signed(x + d))
  {
  }

  // Every edge of the frame and the viewport goes along, to the right with x and down with y.
  lemma ShiftedEdges(s: Shape, dx: int, dy: int)
    ensures var a, b, c, e := s.frame, Shifted(s, dx, dy).frame, s.viewport, Shifted(s, dx, dy).viewport;
      && Goes(a.l, dx, b.l) && Goes(a.r, dx, b.r) && Goes(a.t, dy, b.t) && Goes(a.b, dy, b.b)
      && Goes(c.l, dx, e.l) && Goes(c.r, dx, e.r) && Goes(c.t, dy, e.t) && Goes(c.b, dy, e.b)
  {
    hide Signed, Goes;
    var a, c := s.frame, s.viewport;
    SignedGoes(a.l, dx);
    SignedGoes(a.r, dx);
    SignedGoes(a.t, dy);
    SignedGoes(a.b, dy);
    SignedGoes(c.l, dx);
    SignedGoes(c.r, dx);
    SignedGoes(c.t, dy);
    SignedGoes(c.b, dy);
  }

  // Every edge of window `w` has gone to the right by `dx` or down by `dy`, and no other window has moved.
  ghost predicate Carried<T>(before: map<T, Shape>, after: map<T, Shape>, w: T, dx: int, dy: int)
    requires w in before
  {
    && after.Keys == before.Keys && (forall v :: v in before && v != w ==> after[v] == before[v])
    && var a, b, c, e := before[w].frame, after[w].frame, before[w].viewport, after[w].viewport;
    && Goes(a.l, dx, b.l) && Goes(a.r, dx, b.r) && Goes(a.t, dy, b.t) && Goes(a.b, dy, b.b)
    && Goes(c.l, dx, e.l) && Goes(c.r, dx, e.r) && Goes(c.t, dy, e.t) && Goes(c.b, dy, e.b)
  }

  lemma ShiftCarries<T>(before: map<T, Shape>, after: map<T, Shape>, w: T, dx: int, dy: int)
    requires w in before && after == before[w := Shifted(before[w], dx, dy)]
    ensures Carried(before, after, w, dx, dy)
  {
    hide Shifted, Goes;
    ShiftedEdges(before[w], dx, dy);
  }

  // Along any path the grabbed window has moved by exactly the distance from where it was grabbed to
  // where the pointer is, whatever wrapped around on the way; nothing else has moved.
  lemma {:induction false} DragFollows<T>(d: Desk<T>, path: seq<(int32, int32)>)
    requires Shown(d) && d.grabbed.Some? && d.grabbed.value in d.order
    ensures var w, to := d.grabbed.value, Last((d.downX, d.downY), path);
            Drag(d, path) == d.(shapes := d.shapes[w := Shifted(d.shapes[w], to.0 - d.downX, to.1 - d.downY)],
                                downX := to.0, downY := to.1)
    decreases |path|
  {
    hide Signed, Shifted, Loop;
    var w := d.grabbed.value;
    if path == [] {
      StaysPut(d.shapes[w]);
      assert d.shapes[w := d.shapes[w]] == d.shapes;
    } else {
      var m := Mouse(path[0].0, path[0].1, true, true);
      var r := Loop(d, 0, m);
      LoopHandles(d, m);
      DragFollows(r, path[1..]);
      var to := Last((d.downX, d.downY), path);
      assert Last((r.downX, r.downY), path[1..]) == to;
      ShiftsAdd(d.shapes[w], m.x - d.downX, m.y - d.downY, to.0 - m.x, to.1 - m.y);
    }
  }

  // Press on a title bar, drag, let go: the window is on top and keeps its distance to the pointer.
  lemma GrabDragDrop<T>(d: Desk<T>, press: Mouse, path: seq<(int32, int32)>, drop: Mouse, h: nat)
    requires Shown(d) && press.down && !press.wasDown && !drop.down && drop.wasDown && 0 < h <= |d.order|
    requires h == Topmost(d.order, d.shapes, press) && InTitle(d.shapes[d.order[h - 1]], press)
    ensures var w, to := d.order[h - 1], Last((press.x, press.y), path);
            var r := Loop(Drag(Loop(d, 0, press), path), 0, drop);
            && r.order == d.order[..h - 1] + d.order[h..] + [w] && r.grabbed == None
            && r.shapes == d.shapes[w := Shifted(d.shapes[w], to.0 - press.x, to.1 - press.y)]
  {
    hide Hit, InTitle, Drag, Loop, Visit, Topmost, Shown;
    var w := d.order[h - 1];
    LoopHandles(d, press);
    var a := Loop(d, 0, press);
    assert a.order[|a.order| - 1] == w;
    DragFollows(a, path);
    LoopHandles(Drag(a, path), drop);
  }

  // The same edge by edge: after any path of the held pointer the grabbed window is as far right and down of where
  // it was as the pointer is of where it was grabbed, and no other window has moved.
  lemma DragMovesEdges<T>(d: Desk<T>, path: seq<(int32, int32)>)
    requires Shown(d) && d.grabbed.Some? && d.grabbed.value in d.order
    ensures var w, to := d.grabbed.value, if path == [] then (d.downX, d.downY) else path[|path| - 1];
            var r, dx, dy := Drag(d, path), to.0 - d.downX, to.1 - d.downY;
            r.order == d.order && Carried(d.shapes, r.shapes, w, dx, dy)
  {
    hide Signed, Shifted, Drag, Carried;
    DragFollows(d, path);
    var w, to := d.grabbed.value, Last((d.downX, d.downY), path);
    ShiftCarries(d.shapes, Drag(d, path).shapes, w, to.0 - d.downX, to.1 - d.downY);
  }

  // A grabbed window follows the pointer while the button is held.
  ghost predicate Follows<T>(d: Desk<T>, r: Desk<T>, m: Mouse)
    requires Shown(d)
  {
    m.down && m.wasDown && d.grabbed.Some? && d.grabbed.value in d.order ==>
      r.order == d.order && Carried(d.shapes, r.shapes, d.grabbed.value, m.x - d.downX, m.y - d.downY)
  }

  lemma HandleFollows<T>(d: Desk<T>, m: Mouse)
    requires Shown(d)
    ensures Follows(d, Handle(d, m), m)
  {
    if m.down && m.wasDown && d.grabbed.Some? && d.grabbed.value in d.order {
      LoopHandles(d, m);
      assert [(m.x, m.y)][1..] == [];
      DragMovesEdges(d, [(m.x, m.y)]);
    }
  }

  lemma DropShifts<T>(d: Desk<T>, press: Mouse, path: seq<(int32, int32)>, drop: Mouse, h: nat)
    requires Shown(d) && press.down && !press.wasDown && !drop.down && drop.wasDown && 0 < h <= |d.order|
    requires var s := d.shapes[d.order[h - 1]];
      && s.frame.l <= press.x <= s.frame.r && s.frame.t <= press.y <= s.frame.b && press.y <= s.viewport.t
    requires forall i :: h <= i < |d.order| ==>
               var f := d.shapes[d.order[i]].frame; !(f.l <= press.x <= f.r && f.t <= press.y <= f.b)
    ensures var w, to := d.order[h - 1], Last((press.x, press.y), path);
            Loop(Drag(Loop(d, 0, press), path), 0, drop).shapes
            == d.shapes[w := Shifted(d.shapes[w], to.0 - press.x, to.1 - press.y)]
  {
    assert InTitle(d.shapes[d.order[h - 1]], press);
    hide Signed, Shifted, Drag, Topmost, Loop;
    TopmostIs(d.order, d.shapes, press, h);
    GrabDragDrop(d, press, path, drop, h);
  }

  // A press with the pointer at or above the top of the viewport, a drag and a release, edge by edge.
  lemma DropMovesEdges<T>(d: Desk<T>, press: Mouse, path: seq<(int32, int32)>, drop: Mouse, h: nat, to: (int32, int32))
    requires to == if path == [] then (press.x, press.y) else path[|path| - 1]
    requires Shown(d) && press.down && !press.wasDown && !drop.down && drop.wasDown && 0 < h <= |d.order|
    requires var s := d.shapes[d.order[h - 1]];
      && s.frame.l <= press.x <= s.frame.r && s.frame.t <= press.y <= s.frame.b && press.y <= s.viewport.t
    requires forall i :: h <= i < |d.order| ==>
               var f := d.shapes[d.order[i]].frame; !(f.l <= press.x <= f.r && f.t <= press.y <= f.b)
    ensures var r := Loop(Drag(Loop(d, 0, press), path), 0, drop);
            Carried(d.shapes, r.shapes, d.order[h - 1], to.0 - press.x, to.1 - press.y)
  {
    hide Signed, Shifted, Drag, Topmost, Loop, Carried, InTitle, Hit;
    DropShifts(d, press, path, drop, h);
    var r := Loop(Drag(Loop(d, 0, press), path), 0, drop);
    ShiftCarries(d.shapes, r.shapes, d.order[h - 1], to.0 - press.x, to.1 - press.y);
  }
}
