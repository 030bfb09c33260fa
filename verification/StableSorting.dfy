/** Stable sorting by a key, and the bubble steps that lead to it. */
module StableSorting {
  import opened OrderedArrays

  datatype Entry<T> = Entry(item: T, key: nat)

  predicate Sorted<T>(s: seq<Entry<T>>) {
    forall i, j :: 0 <= i < j < |s| ==> s[i].key <= s[j].key
  }

  // `e` comes from in front of all of `s`, so it goes before the entries of its own key.
  function Insert<T>(e: Entry<T>, s: seq<Entry<T>>): (r: seq<Entry<T>>)
    ensures |r| == |s| + 1
  {
    if s == [] || e.key <= s[0].key then [e] + s else [s[0]] + Insert(e, s[1..])
  }

  function StableSort<T>(s: seq<Entry<T>>): (r: seq<Entry<T>>)
    ensures |r| == |s|
  {
    if s == [] then [] else Insert(s[0], StableSort(s[1..]))
  }

  // The entries with key k, in order.
  function OfKey<T>(s: seq<Entry<T>>, k: nat): seq<Entry<T>> {
    if s == [] then [] else (if s[0].key == k then [s[0]] else []) + OfKey(s[1..], k)
  }

  // ---- it sorts, permutes and is stable ----

  lemma {:induction false} InsertPermutes<T>(e: Entry<T>, s: seq<Entry<T>>)
    ensures multiset(Insert(e, s)) == multiset(s) + multiset{e}
  {
    if s != [] && e.key > s[0].key {
      InsertPermutes(e, s[1..]);
      assert s == [s[0]] + s[1..];
    }
  }

  lemma {:induction false} InsertSorts<T>(e: Entry<T>, s: seq<Entry<T>>)
    requires Sorted(s)
    ensures Sorted(Insert(e, s))
  {
    if s != [] && e.key > s[0].key {
      InsertSorts(e, s[1..]);
      InsertPermutes(e, s[1..]);
      var r := Insert(e, s[1..]);
      forall i | 0 <= i < |r|
        ensures s[0].key <= r[i].key
      {
        assert r[i] in multiset(r);
        assert r[i] == e || r[i] in multiset(s[1..]);
      }
    }
  }

  lemma {:induction false} InsertKeepsOrder<T>(e: Entry<T>, s: seq<Entry<T>>, k: nat)
    ensures OfKey(Insert(e, s), k) == OfKey([e] + s, k)
  {
    if s != [] && e.key > s[0].key {
      var r := Insert(e, s[1..]);
      InsertKeepsOrder(e, s[1..], k);
      assert ([s[0]] + r)[1..] == r && ([e] + s[1..])[1..] == s[1..] && ([e] + s)[1..] == s;
    }
  }

  lemma {:induction false} SortSorts<T>(s: seq<Entry<T>>)
    ensures Sorted(StableSort(s)) && multiset(StableSort(s)) == multiset(s)
    ensures forall k: nat :: OfKey(StableSort(s), k) == OfKey(s, k)
  {
    if s != [] {
      SortSorts(s[1..]);
      InsertSorts(s[0], StableSort(s[1..]));
      InsertPermutes(s[0], StableSort(s[1..]));
      assert s == [s[0]] + s[1..];
      forall k: nat
        ensures OfKey(StableSort(s), k) == OfKey(s, k)
      {
        InsertKeepsOrder(s[0], StableSort(s[1..]), k);
        assert ([s[0]] + StableSort(s[1..]))[1..] == StableSort(s[1..]);
      }
    }
  }

  lemma {:induction false} SortedStays<T>(s: seq<Entry<T>>)
    requires Sorted(s)
    ensures StableSort(s) == s
  {
    if s != [] {
      SortedStays(s[1..]);
      assert s == [s[0]] + s[1..];
    }
  }

  // ---- one bubble step ----

  lemma {:induction false} InsertsCommute<T>(x: Entry<T>, y: Entry<T>, s: seq<Entry<T>>)
    requires y.key < x.key
    ensures Insert(x, Insert(y, s)) == Insert(y, Insert(x, s))
  {
    if s != [] && s[0].key < y.key {
      InsertsCommute(x, y, s[1..]);
      assert ([s[0]] + Insert(x, s[1..]))[1..] == Insert(x, s[1..]);
      assert ([s[0]] + Insert(y, s[1..]))[1..] == Insert(y, s[1..]);
    } else {
      assert ([y] + s)[1..] == s;
    }
  }

  lemma {:induction false} SwapKeepsSort<T>(a: seq<Entry<T>>, x: Entry<T>, y: Entry<T>, b: seq<Entry<T>>)
    requires y.key < x.key
    ensures StableSort(a + [x, y] + b) == StableSort(a + [y, x] + b)
  {
    if a == [] {
      assert ([x, y] + b)[1..] == [y] + b && ([y] + b)[1..] == b;
      assert ([y, x] + b)[1..] == [x] + b && ([x] + b)[1..] == b;
      assert [] + [x, y] + b == [x, y] + b && [] + [y, x] + b == [y, x] + b;
      InsertsCommute(x, y, StableSort(b));
    } else {
      assert (a + [x, y] + b)[1..] == a[1..] + [x, y] + b;
      assert (a + [y, x] + b)[1..] == a[1..] + [y, x] + b;
      SwapKeepsSort(a[1..], x, y, b);
    }
  }

  function Swapped<T>(s: seq<T>, i: nat): (r: seq<T>)
    requires 0 < i < |s|
    ensures |r| == |s|
  {
    s[i := s[i - 1]][i - 1 := s[i]]
  }

  lemma SwappedSplit<T>(s: seq<T>, i: nat)
    requires 0 < i < |s|
    ensures s == s[..i - 1] + [s[i - 1], s[i]] + s[i + 1..]
    ensures Swapped(s, i) == s[..i - 1] + [s[i], s[i - 1]] + s[i + 1..]
  {
  }

  lemma BubbleStep<T>(s: seq<Entry<T>>, i: nat)
    requires 0 < i < |s| && s[i].key < s[i - 1].key
    ensures StableSort(Swapped(s, i)) == StableSort(s)
    ensures Inversions(Swapped(s, i)) < Inversions(s)
  {
    hide StableSort, Inversions, Swapped;
    var a, x, y, b := s[..i - 1], s[i - 1], s[i], s[i + 1..];
    SwappedSplit(s, i);
    SwapKeepsSort(a, x, y, b);
    SwapUninverts(a, x, y, b);
  }

  // ---- the bubbling ends ----

  function Below<T>(k: nat, s: seq<Entry<T>>): nat {
    if s == [] then 0 else (if s[0].key < k then 1 else 0) + Below(k, s[1..])
  }

  function Inversions<T>(s: seq<Entry<T>>): nat {
    if s == [] then 0 else Below(s[0].key, s[1..]) + Inversions(s[1..])
  }

  lemma {:induction false} BelowSplit<T>(k: nat, a: seq<Entry<T>>, b: seq<Entry<T>>)
    ensures Below(k, a + b) == Below(k, a) + Below(k, b)
  {
    if a == [] {
      assert a + b == b;
    } else {
      assert (a + b)[1..] == a[1..] + b;
      BelowSplit(k, a[1..], b);
    }
  }

  lemma {:induction false} SwapUninverts<T>(a: seq<Entry<T>>, x: Entry<T>, y: Entry<T>, b: seq<Entry<T>>)
    requires y.key < x.key
    ensures Inversions(a + [y, x] + b) < Inversions(a + [x, y] + b)
  {
    if a == [] {
      assert [] + [x, y] + b == [x, y] + b && [] + [y, x] + b == [y, x] + b;
      assert ([x, y] + b)[1..] == [y] + b && ([y] + b)[1..] == b;
      assert ([y, x] + b)[1..] == [x] + b && ([x] + b)[1..] == b;
    } else {
      var k := a[0].key;
      assert (a + [x, y] + b)[1..] == a[1..] + [x, y] + b;
      assert (a + [y, x] + b)[1..] == a[1..] + [y, x] + b;
      SwapUninverts(a[1..], x, y, b);
      BelowSplit(k, a[1..] + [x, y], b);
      BelowSplit(k, a[1..] + [y, x], b);
      BelowSplit(k, a[1..], [x, y]);
      BelowSplit(k, a[1..], [y, x]);
      assert [x, y][1..] == [y] && [y, x][1..] == [x];
    }
  }

  // ---- one entry out of place ----

  // An entry slides right past smaller keys.
  lemma {:induction false} SlideRight<T>(a: seq<Entry<T>>, x: Entry<T>, b: seq<Entry<T>>)
    requires forall i :: 0 <= i < |b| ==> b[i].key < x.key
    ensures StableSort(a + [x] + b) == StableSort(a + b + [x])
    decreases |b|
  {
    if b == [] {
      assert a + [x] + b == a + b + [x];
    } else {
      var y, c := b[0], b[1..];
      assert a + [x] + b == a + [x, y] + c;
      SwapKeepsSort(a, x, y, c);
      assert a + [y, x] + c == (a + [y]) + [x] + c;
      SlideRight(a + [y], x, c);
      assert (a + [y]) + c + [x] == a + b + [x];
    }
  }

  // An entry slides left past greater keys.
  lemma {:induction false} SlideLeft<T>(a: seq<Entry<T>>, b: seq<Entry<T>>, x: Entry<T>, c: seq<Entry<T>>)
    requires forall i :: 0 <= i < |b| ==> x.key < b[i].key
    ensures StableSort(a + b + [x] + c) == StableSort(a + [x] + b + c)
  {
    if b == [] {
      assert a + b + [x] + c == a + [x] + b + c;
    } else {
      var n := |b| - 1;
      var y, d := b[n], b[..n];
      assert b == d + [y];
      assert a + b + [x] + c == (a + d) + [y, x] + c;
      SwapKeepsSort(a + d, y, x, c);
      assert (a + d) + [x, y] + c == a + d + [x] + ([y] + c);
      SlideLeft(a, d, x, [y] + c);
      assert a + [x] + d + ([y] + c) == a + [x] + b + c;
    }
  }

  predicate Numbered<T>(s: seq<Entry<T>>) {
    forall i :: 0 <= i < |s| ==> s[i].key == i
  }

  function Raised<T>(s: seq<T>, j: nat): (r: seq<T>)
    requires j < |s|
    ensures |r| == |s|
    ensures forall i :: 0 <= i < |s| ==> r[i] == s[if i == |s| - 1 then j else if i < j then i else i + 1]
  {
    s[..j] + s[j + 1..] + [s[j]]
  }

  lemma SplitAt<T>(s: seq<T>, j: nat)
    requires j < |s|
    ensures s == s[..j] + [s[j]] + s[j + 1..]
  {
  }

  // The key of one entry of a numbered list is raised above all others: it goes last.
  lemma RaisedGoesLast<T>(s: seq<Entry<T>>, j: nat)
    requires j < |s| <= s[j].key && forall i :: 0 <= i < |s| && i != j ==> s[i].key == i
    ensures StableSort(s) == Raised(s, j)
  {
    hide StableSort, Sorted;
    RaisedIsSorted(s, j);
    SplitAt(s, j);
    SlideRight(s[..j], s[j], s[j + 1..]);
    SortedStays(Raised(s, j));
  }

  lemma RaisedIsSorted<T>(s: seq<Entry<T>>, j: nat)
    requires j < |s| <= s[j].key && forall i :: 0 <= i < |s| && i != j ==> s[i].key == i
    ensures Sorted(Raised(s, j))
  {
    hide Raised;
    var r := Raised(s, j);
    forall i, k | 0 <= i < k < |r|
      ensures r[i].key <= r[k].key
    {
      assert r[i] == s[if i < j then i else i + 1];
    }
  }

  // Where a new entry of any key ends up in a numbered list of n.
  function Place(n: nat, key: nat, under: bool): (p: nat)
    ensures p <= n
  {
    if key >= n then n else if under && key == n - 1 then n - 1 else key + 1
  }

  // Behind the entries of its own key and all smaller ones, but in front of the last one when both have the same
  // key and the new entry is to go under it.
  lemma PlaceInList<T>(s: seq<T>, key: nat, under: bool, x: T)
    ensures var r := With(s, Place(|s|, key, under), x);
      && (key >= |s| ==> r == s + [x])
      && (key < |s| && (under ==> key != |s| - 1) ==> r == s[..key + 1] + [x] + s[key + 1..])
      && (key < |s| && under && key == |s| - 1 ==> r == s[..key] + [x, s[key]])
  {
  }

  // The list before sorting: the new entry is appended, or put in front of the last one.
  function Appended<T>(s: seq<T>, e: T, under: bool): seq<T> {
    if under && s != [] then s[..|s| - 1] + [e, s[|s| - 1]] else s + [e]
  }

  // In a list of one, whose entry may have any key, the smaller key goes first.
  lemma PlaceBesideOne<T>(x: Entry<T>, e: Entry<T>, under: bool)
    ensures StableSort(Appended([x], e, under))
         == if e.key < x.key || (under && e.key == x.key) then [e, x] else [x, e]
  {
    assert StableSort([x]) == [x] by { SortedStays([x]); }
    assert StableSort([e]) == [e] by { SortedStays([e]); }
    assert [x][..0] == [] && [x, e][1..] == [e] && [e, x][1..] == [x];
  }

  lemma PlacedIsSorted<T>(s: seq<Entry<T>>, e: Entry<T>, p: nat)
    requires Numbered(s) && p <= |s|
    requires (p > 0 ==> p - 1 <= e.key) && (p < |s| ==> e.key <= p)
    ensures Sorted(s[..p] + [e] + s[p..])
  {
    var r := s[..p] + [e] + s[p..];
    forall i, k | 0 <= i < k < |r|
      ensures r[i].key <= r[k].key
    {
      assert i < p ==> r[i] == s[i];
      assert k > p ==> r[k] == s[k - 1];
    }
  }

  lemma NewGoesTo<T>(s: seq<Entry<T>>, e: Entry<T>, under: bool)
    requires Numbered(s)
    ensures var p := Place(|s|, e.key, under);
            StableSort(Appended(s, e, under)) == s[..p] + [e] + s[p..]
  {
    hide StableSort, Sorted;
    var n, p := |s|, Place(|s|, e.key, under);
    var r := s[..p] + [e] + s[p..];
    PlacedIsSorted(s, e, p);
    SortedStays(r);
    if under && n > 0 {
      var last := s[n - 1];
      if p == n {
        SwapKeepsSort(s[..n - 1], e, last, []);
        assert s[..n - 1] + [e, last] + [] == Appended(s, e, under);
        assert s[..n - 1] + [last, e] + [] == r;
      } else {
        assert s[p..] == s[p..n - 1] + [last];
        SlideLeft(s[..p], s[p..n - 1], e, [last]);
        assert s[..p] + s[p..n - 1] + [e] + [last] == Appended(s, e, under);
        assert s[..p] + [e] + s[p..n - 1] + [last] == r;
      }
    } else {
      SlideLeft(s[..p], s[p..], e, []);
      assert s[..p] + s[p..] + [e] + [] == Appended(s, e, under);
      assert s[..p] + [e] + s[p..] + [] == r;
    }
  }
}
