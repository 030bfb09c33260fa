/** The draw list of windows: one array, bottom to top, with every window's z-index kept equal to its position. */
module WindowStack {
  import opened OrderedArrays
  import opened StableSorting
  import opened WindowModel

  const MAX_WINDOWS := 256

  type uint16 = x: int | 0 <= x < 0x1_0000

  // What storing 99999 into the 16-bit z-index leaves there.
  const RAISED: uint16 := 99999 % 0x1_0000

  class Window {
    var zindex: uint16
    var frame: Rect
    var viewport: Rect
  }

  ghost predicate Windows(s: seq<Window?>) {
    Distinct(s) && forall i :: 0 <= i < |s| ==> s[i] != null
  }

  ghost function Keyed(s: seq<Window?>): (r: seq<Entry<Window?>>)
    requires Windows(s)
    reads s
    ensures |r| == |s| && forall i :: 0 <= i < |s| ==> r[i] == Entry(s[i], s[i].zindex)
  {
    seq(|s|, i requires 0 <= i < |s| reads s => Entry(s[i], s[i].zindex))
  }

  ghost function Items(s: seq<Entry<Window?>>): (r: seq<Window?>)
    ensures |r| == |s| && forall i :: 0 <= i < |s| ==> r[i] == s[i].item
  {
    seq(|s|, i requires 0 <= i < |s| => s[i].item)
  }

  lemma SameMembers<T>(s: seq<T>, t: seq<T>)
    requires multiset(s) == multiset(t)
    ensures forall x :: x in s <==> x in t
  {
    assert forall x :: x in s <==> x in multiset(s);
    assert forall x :: x in t <==> x in multiset(t);
  }

  class WindowDrawList {
    const list: OrderedArray<Window?>
    var lastFocused: Window?

    ghost predicate Valid()
      reads this, list, list.slots
    {
      list.Valid() && list.slots.Length <= MAX_WINDOWS && Windows(list.Contents())
    }

    ghost function Stack(): seq<Window?>
      requires list.Valid()
      reads this, list, list.slots
    {
      list.Contents()
    }

    // A list of one is not renumbered.
    ghost predicate Settled()
      requires Valid()
      reads this, list, list.slots, list.Contents()
    {
      |Stack()| >= 2 ==> forall i :: 0 <= i < |Stack()| ==> Stack()[i].zindex == i
    }

    constructor (memory: array<Window?>)
      requires memory.Length <= MAX_WINDOWS
      ensures Valid() && list.slots == memory && fresh(list) && Stack() == [] && lastFocused == null
    {
      list := new OrderedArray<Window?>(memory);
      lastFocused := null;
    }

    method ForceSort()
      requires Valid()
      modifies list.slots, Stack()`zindex
      ensures Valid() && Settled() && list.size == old(list.size)
      ensures Stack() == if old(list.size) <= 1 then old(Stack()) else Items(StableSort(old(Keyed(Stack()))))
      ensures multiset(Stack()) == multiset(old(Stack()))
    {
      if list.size <= 1 {
        return;
      }
      BubbleSort();
      SameMembers(Stack(), old(Stack()));
      assert forall i :: 0 <= i < |Stack()| ==> Stack()[i] in old(Stack());
      Renumber();
    }

    method BubbleSort()
      requires Valid() && list.size > 1
      modifies list.slots
      ensures Valid() && list.size == old(list.size)
      ensures Stack() == Items(StableSort(old(Keyed(Stack()))))
      ensures multiset(Stack()) == multiset(old(Stack()))
    {
      var sort := true;
      while sort
        invariant Valid()
        invariant StableSort(Keyed(Stack())) == StableSort(old(Keyed(Stack())))
        invariant multiset(Stack()) == multiset(old(Stack()))
        invariant !sort ==> Sorted(Keyed(Stack()))
        decreases Inversions(Keyed(Stack())), sort
      {
        sort := Pass();
      }
      SortedStays(Keyed(Stack()));
    }

    // One downward pass.
    method Pass() returns (sort: bool)
      requires Valid() && list.size > 1
      modifies list.slots
      ensures Valid() && list.size == old(list.size)
      ensures StableSort(Keyed(Stack())) == StableSort(old(Keyed(Stack())))
      ensures multiset(Stack()) == multiset(old(Stack()))
      ensures sort ==> Inversions(Keyed(Stack())) < Inversions(old(Keyed(Stack())))
      ensures !sort ==> Stack() == old(Stack()) && Sorted(Keyed(Stack()))
    {
      hide StableSort, Inversions, Sorted;
      sort := false;
      var i := list.size - 1;
      while i > 0
        invariant 0 <= i < list.size && Valid() && list.size == old(list.size)
        invariant StableSort(Keyed(Stack())) == StableSort(old(Keyed(Stack())))
        invariant multiset(Stack()) == multiset(old(Stack()))
        invariant sort ==> Inversions(Keyed(Stack())) < Inversions(old(Keyed(Stack())))
        invariant !sort ==> Stack() == old(Stack())
        invariant !sort ==> forall k :: i < k < list.size ==> Stack()[k - 1].zindex <= Stack()[k].zindex
      {
        var w1 := list.slots[i];
        var w2 := list.slots[i - 1];
        if w1.zindex < w2.zindex {
          SwapDown(i);
          sort := true;
        }
        i := i - 1;
      }
      if !sort {
        NeighboursSort(Keyed(Stack()));
      }
    }

    method SwapDown(i: nat)
      requires Valid() && 0 < i < list.size
      requires Stack()[i] != null && Stack()[i - 1] != null && Stack()[i].zindex < Stack()[i - 1].zindex
      modifies list.slots
      ensures Valid() && list.size == old(list.size) && multiset(Stack()) == multiset(old(Stack()))
      ensures StableSort(Keyed(Stack())) == StableSort(old(Keyed(Stack())))
      ensures Inversions(Keyed(Stack())) < Inversions(old(Keyed(Stack())))
    {
      hide StableSort, Inversions;
      ghost var s := Stack();
      BubbleStep(Keyed(s), i);
      list.slots[i], list.slots[i - 1] := list.slots[i - 1], list.slots[i];
      assert Stack() == Swapped(s, i);
      assert Keyed(Stack()) == Swapped(Keyed(s), i);
    }

    method Renumber()
      requires Valid()
      modifies Stack()`zindex
      ensures Valid() && Stack() == old(Stack())
      ensures forall i :: 0 <= i < list.size ==> Stack()[i].zindex == i
    {
      var i := 0;
      while i < list.size
        invariant i <= list.size && Valid() && Stack() == old(Stack())
        invariant forall k :: 0 <= k < i ==> Stack()[k].zindex == k
      {
        assert Stack()[i] == list.slots[i];
        list.slots[i].zindex := i;
        i := i + 1;
      }
    }

    // Raising a window that is not in the list changes no order.
    method FocusWindow(w: Window?)
      requires Valid() && Settled()
      modifies this`lastFocused, list.slots, Stack()`zindex, {w}`zindex
      ensures Valid() && Settled() && lastFocused == w && list.size == old(list.size)
      ensures w !in old(Stack()) ==> Stack() == old(Stack())
      ensures forall j :: 0 <= j < old(list.size) && old(Stack())[j] == w ==> Stack() == Raised(old(Stack()), j)
    {
      hide StableSort, Sorted;
      if w != null {
        w.zindex := RAISED;
      }
      lastFocused := w;
      ghost var s := Stack();
      if j :| 0 <= j < |s| && s[j] == w {
        if |s| >= 2 {
          RaisedGoesLast(Keyed(s), j);
        }
        assert Items(Raised(Keyed(s), j)) == Raised(s, j);
      } else if |s| >= 2 {
        NumberedStays(Keyed(s));
        assert Items(Keyed(s)) == s;
      }
      ForceSort();
    }

    // A window's first z-index is whatever its memory held.
    method AddWindow(w: Window, setUnder: bool) returns (ok: bool)
      requires Valid() && Settled()
      modifies list.slots, list`size, Stack()`zindex, w`zindex
      ensures Valid() && Settled()
      ensures ok <==> old(list.size) < list.slots.Length && w !in old(Stack())
      ensures !ok ==> Stack() == old(Stack())
      ensures ok && old(list.size) == 0 ==> Stack() == [w]
      ensures ok && old(list.size) >= 1 ==>
                Stack() == Items(StableSort(Appended(old(Keyed(Stack())), Entry(w, old(w.zindex)), setUnder)))
      ensures ok && old(list.size) >= 2 ==>
                Stack() == With(old(Stack()), Place(old(list.size), old(w.zindex), setUnder), w)
      ensures ok ==> exists p: nat :: p <= old(list.size) && Stack() == With(old(Stack()), p, w)
    {
      hide StableSort, Sorted, Appended, Place, Windows, With, Items;
      if list.size + 1 > list.slots.Length {
        return false;
      }
      var found := Find(w);
      if found {
        return false;
      }
      ghost var s := Stack();
      KeyedAppended(s, w, setUnder);
      ghost var keyed := Keyed(Appended(s, w, setUnder));
      if |s| >= 2 {
        PlacedByKey(s, w, setUnder);
      } else if |s| == 1 {
        PlacedByOne(s, w, setUnder);
      } else {
        assert With(s, 0, w) == [w] == Appended(s, w, setUnder) by { JustOne(s, w, setUnder); }
      }
      Append(w, setUnder);
      assert Keyed(Stack()) == keyed;
      ForceSort();
      return true;
    }

    method Find(w: Window) returns (found: bool)
      requires Valid()
      ensures found <==> w in Stack()
    {
      var i := 0;
      while i < list.size
        invariant i <= list.size && w !in list.slots[..i]
      {
        if list.slots[i] == w {
          assert Stack()[i] == w;
          return true;
        }
        i := i + 1;
      }
      return false;
    }

    // A lone window goes in without sorting.
    method Append(w: Window, setUnder: bool)
      requires Valid() && list.size < list.slots.Length && w !in Stack()
      modifies list.slots, list`size
      ensures Valid() && Stack() == Appended(old(Stack()), w, setUnder) && list.size == old(list.size) + 1
      ensures forall k :: 0 <= k < list.size ==> Stack()[k] == w || Stack()[k] in old(Stack())
    {
      ghost var s := Stack();
      var i := list.size;
      if setUnder && i > 0 {
        list.slots[i] := list.slots[i - 1];
        list.slots[i - 1] := w;
      } else {
        list.slots[i] := w;
      }
      list.size := list.size + 1;
      assert Stack() == Appended(s, w, setUnder);
      hide Appended;
      AppendedWindows(s, w, setUnder);
    }

    // The end of `CreateWindow`: with `focus` the new window comes out on top whatever its first z-index.
    method Show(w: Window, focus: bool) returns (ok: bool)
      requires Valid() && Settled()
      modifies this`lastFocused, list.slots, list`size, Stack()`zindex, w`zindex
      ensures Valid() && Settled()
      ensures ok <==> old(list.size) < list.slots.Length && w !in old(Stack())
      ensures ok && focus ==> Stack() == old(Stack()) + [w] && lastFocused == w
      ensures ok && !focus ==> exists p: nat :: p <= old(list.size) && Stack() == With(old(Stack()), p, w)
    {
      ok := AddWindow(w, !focus);
      if focus {
        ghost var s := old(Stack());
        if ok {
          ghost var p: nat :| p <= |s| && Stack() == With(s, p, w);
          RaisedInserted(s, p, w);
          WithMembers(s, p, w);
          assert Stack()[p] == w;
        }
        FocusWindow(w);
      }
    }

    // An index past the end removes the top window.
    method RemoveWindow(i: nat)
      requires Valid() && Settled() && list.size > 0
      modifies list.slots, list`size, Stack()`zindex
      ensures Valid() && Settled() && Stack() == Without(old(Stack()), i)
      ensures i < old(list.size) ==> Stack() == old(Stack())[..i] + old(Stack())[i + 1..]
      ensures i >= old(list.size) ==> Stack() == old(Stack())[..old(list.size) - 1]
    {
      hide StableSort, Sorted;
      list.Remove(i);
      ghost var s := Stack();
      if |s| >= 2 {
        NeighboursSort(Keyed(s));
        SortedStays(Keyed(s));
        assert Items(Keyed(s)) == s;
      }
      ForceSort();
    }
  }

  lemma AppendedWindows(s: seq<Window?>, w: Window, under: bool)
    requires Windows(s) && w !in s
    ensures Windows(Appended(s, w, under))
    ensures var r := Appended(s, w, under); forall k :: 0 <= k < |r| ==> r[k] == w || r[k] in s
  {
  }

  lemma KeyedAppended(s: seq<Window?>, w: Window, under: bool)
    requires Windows(s) && w !in s
    ensures Windows(Appended(s, w, under))
    ensures Keyed(Appended(s, w, under)) == Appended(Keyed(s), Entry(w, w.zindex), under)
  {
    AppendedWindows(s, w, under);
  }

  lemma PlacedByKey(s: seq<Window?>, w: Window, under: bool)
    requires Windows(s) && Numbered(Keyed(s))
    ensures Items(StableSort(Appended(Keyed(s), Entry(w, w.zindex), under)))
         == With(s, Place(|s|, w.zindex, under), w)
  {
    hide StableSort, Place;
    var p := Place(|s|, w.zindex, under);
    var k := Keyed(s);
    NewGoesTo(k, Entry(w, w.zindex), under);
    assert Items(k[..p] + [Entry(w, w.zindex)] + k[p..]) == With(s, p, w);
  }

  lemma PlacedByOne(s: seq<Window?>, w: Window, under: bool)
    requires Windows(s) && |s| == 1
    ensures exists p: nat :: p <= 1
              && Items(StableSort(Appended(Keyed(s), Entry(w, w.zindex), under))) == With(s, p, w)
  {
    var k: Entry<Window?>, e: Entry<Window?> := Keyed(s)[0], Entry(w, w.zindex);
    var r := Items(StableSort(Appended(Keyed(s), e, under)));
    assert Keyed(s) == [k];
    TwoSorted(k, e);
    TwoSorted(e, k);
    assert Appended([k], e, under) == if under then [e, k] else [k, e];
    assert r == With(s, 0, w) || r == With(s, 1, w);
  }

  lemma TwoSorted<T>(a: Entry<T>, b: Entry<T>)
    ensures StableSort([a, b]) == if b.key < a.key then [b, a] else [a, b]
  {
    assert [a, b][1..] == [b] && [b][1..] == [];
    assert StableSort([b]) == [b] && Insert(a, []) == [a];
  }

  lemma JustOne<T>(s: seq<T>, w: T, under: bool)
    requires s == []
    ensures With(s, 0, w) == [w] == Appended(s, w, under)
  {
  }

  lemma WithMembers<T>(s: seq<T>, p: nat, w: T)
    requires p <= |s|
    ensures forall i :: 0 <= i <= |s| ==> With(s, p, w)[i] == w || With(s, p, w)[i] in s
  {
  }

  lemma RaisedInserted<T>(s: seq<T>, p: nat, w: T)
    requires p <= |s|
    ensures Raised(With(s, p, w), p) == s + [w]
  {
  }

  lemma NumberedStays<T>(s: seq<Entry<T>>)
    requires Numbered(s)
    ensures StableSort(s) == s
  {
    SortedStays(s);
  }

  lemma {:induction false} NeighboursSort<T>(s: seq<Entry<T>>)
    requires forall k :: 0 < k < |s| ==> s[k - 1].key <= s[k].key
    ensures Sorted(s)
  {
    if s != [] {
      var n := |s| - 1;
      NeighboursSort(s[..n]);
      forall i | 0 <= i < n
        ensures s[i].key <= s[n].key
      {
        assert s[..n][i].key <= s[..n][n - 1].key;
      }
    }
  }
}
