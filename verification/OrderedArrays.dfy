/** The array-backed list shared by the heap index, the task list and the window list. */
module OrderedArrays {

  // `s` without the entry at `i`; an `i` past the end drops the last entry instead.
  function Without<T>(s: seq<T>, i: nat): (r: seq<T>)
    requires s != []
    ensures |r| == |s| - 1
    ensures forall j :: 0 <= j < |s| - 1 ==> r[j] == s[if j < i then j else j + 1]
  {
    if i < |s| then s[..i] + s[i + 1..] else s[..|s| - 1]
  }

  function With<T>(s: seq<T>, i: nat, x: T): (r: seq<T>)
    requires i <= |s|
    ensures |r| == |s| + 1 && r[i] == x
  {
    s[..i] + [x] + s[i..]
  }

  lemma WithMultiset<T>(s: seq<T>, i: nat, x: T)
    requires i <= |s|
    ensures multiset(With(s, i, x)) == multiset(s) + multiset{x}
  {
    assert s == s[..i] + s[i..];
  }

  lemma WithoutMultiset<T>(s: seq<T>, i: nat)
    requires i < |s|
    ensures multiset(Without(s, i)) == multiset(s) - multiset{s[i]}
  {
    assert s == s[..i] + [s[i]] + s[i + 1..];
  }

  // No entry occurs twice.
  predicate Distinct<T(==)>(s: seq<T>) {
    forall i, j :: 0 <= i < j < |s| ==> s[i] != s[j]
  }

  class OrderedArray<T> {
    const slots: array<T>
    var size: nat

    ghost predicate Valid()
      reads this
    {
      size <= slots.Length
    }

    ghost function Contents(): (s: seq<T>)
      requires Valid()
      reads this, slots
      ensures |s| == size
    {
      slots[..size]
    }

    constructor (memory: array<T>)
      ensures Valid() && slots == memory && Contents() == []
    {
      slots := memory;
      size := 0;
    }

    // An index past the capacity reads the last slot.
    method Get(i: nat) returns (x: T)
      requires Valid() && slots.Length > 0
      ensures i < size ==> x == Contents()[i]
      ensures x == slots[if i < slots.Length then i else slots.Length - 1]
    {
      if i >= slots.Length {
        return slots[slots.Length - 1];
      }
      x := slots[i];
    }

    method Remove(index: nat)
      requires Valid() && size > 0
      modifies this`size, slots
      ensures Valid() && size == old(size) - 1
      ensures Contents() == Without(old(Contents()), index)
    {
      var i := index;
      while i < size - 1
        invariant index <= i && (index < size ==> i < size)
        invariant size == old(size)
        invariant forall k :: 0 <= k < size && (k < index || i <= k) ==> slots[k] == old(slots[k])
        invariant forall k :: index <= k < i && k < size ==> slots[k] == old(slots[k + 1])
      {
        slots[i] := slots[i + 1];
        i := i + 1;
      }
      size := size - 1;
    }

    // The shifting tail of both `Insert` bodies, once the position is known.
    method InsertAt(index: nat, item: T)
      requires Valid() && index <= size < slots.Length
      modifies this`size, slots
      ensures Valid() && size == old(size) + 1
      ensures Contents() == With(old(Contents()), index, item)
      ensures Contents() == old(Contents())[..index] + [item] + old(Contents())[index..]
    {
      if index == size {
        slots[size] := item;
        size := size + 1;
      } else {
        var i := index;
        var tmp := slots[i];
        slots[i] := item;
        while i < size
          invariant index <= i <= size == old(size)
          invariant tmp == old(slots[i])
          invariant slots[index] == item
          invariant forall k :: 0 <= k < slots.Length && (k < index || i < k) ==> slots[k] == old(slots[k])
          invariant forall k :: index < k <= i ==> slots[k] == old(slots[k - 1])
        {
          i := i + 1;
          var tmp2 := slots[i];
          slots[i] := tmp;
          tmp := tmp2;
        }
        size := size + 1;
      }
    }
  }
}
