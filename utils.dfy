/** Generic helpers of the wesplot package: Filter, Min and the bounded ring
    that caches the most recent data rows (utils.go). */
module Utils {

  datatype Option<T> = None | Some(value: T)

  /** Min[T Number](a, b) for any ordered type, its `>` given as greater:
      b when a > b, a otherwise, so a tie or an incomparable pair (a NaN
      among floats) gives a. */
  function MinBy<T>(a: T, b: T, greater: (T, T) -> bool): (r: T)
    ensures greater(a, b) ==> r == b
    ensures !greater(a, b) ==> r == a
  {
    if greater(a, b) then b else a
  }

  /** When neither argument is greater than the other, as with a NaN, the
      result is whichever came first: Min(NaN, 1.0) is NaN and Min(1.0, NaN)
      is 1.0. */
  lemma MinByIncomparable<T>(a: T, b: T, greater: (T, T) -> bool)
    requires !greater(a, b) && !greater(b, a)
    ensures MinBy(a, b, greater) == a && MinBy(b, a, greater) == b
  {
  }

  function IntGreater(a: int, b: int): bool
  {
    a > b
  }

  /** Min on integers, the instance the ring uses. */
  function Min(a: int, b: int): (r: int)
    ensures r <= a && r <= b
    ensures r == a || r == b
    ensures a <= b ==> r == a
  {
    MinBy(a, b, IntGreater)
  }

  /** The elements of s that satisfy p, in their original order. */
  function Filtered<T>(s: seq<T>, p: T -> bool): (r: seq<T>)
  {
    if s == [] then [] else (if p(s[0]) then [s[0]] else []) + Filtered(s[1..], p)
  }

  /** Filtering distributes over concatenation: the kept elements keep their order. */
  lemma {:induction false} FilteredAppend<T>(a: seq<T>, b: seq<T>, p: T -> bool)
    ensures Filtered(a + b, p) == Filtered(a, p) + Filtered(b, p)
  {
    if a == [] {
      assert a + b == b;
    } else {
      var head := if p(a[0]) then [a[0]] else [];
      assert (a + b)[0] == a[0] && (a + b)[1..] == a[1..] + b;
      assert Filtered(a + b, p) == head + Filtered(a[1..] + b, p);
      FilteredAppend(a[1..], b, p);
      assert Filtered(a, p) == head + Filtered(a[1..], p);
    }
  }

  /** Exactly the elements that satisfy p are kept, each as often as it occurs in s. */
  lemma {:induction false} FilteredCounts<T>(s: seq<T>, p: T -> bool)
    ensures forall x :: multiset(Filtered(s, p))[x] == if p(x) then multiset(s)[x] else 0
  {
    if s != [] {
      FilteredCounts(s[1..], p);
      assert s == [s[0]] + s[1..];
      assert multiset(s) == multiset([s[0]]) + multiset(s[1..]);
    }
  }

  /** Every kept element satisfies p, and an element of s is kept exactly when it satisfies p. */
  lemma FilteredMembers<T>(s: seq<T>, p: T -> bool)
    ensures forall x :: x in Filtered(s, p) <==> x in s && p(x)
  {
    FilteredCounts(s, p);
    forall x
      ensures x in Filtered(s, p) <==> x in s && p(x)
    {
      assert x in Filtered(s, p) <==> multiset(Filtered(s, p))[x] > 0;
      assert x in s <==> multiset(s)[x] > 0;
    }
  }

  /** When every element satisfies p, filtering keeps s as it is. */
  lemma {:induction false} FilteredAll<T>(s: seq<T>, p: T -> bool)
    requires forall i :: 0 <= i < |s| ==> p(s[i])
    ensures Filtered(s, p) == s
  {
    if s != [] {
      assert p(s[0]);
      FilteredAll(s[1..], p);
    }
  }

  /** Filter, as the loop that appends each matching element to a fresh slice.
      It gives an empty result, never a missing one, when nothing matches. */
  method Filter<T>(s: seq<T>, p: T -> bool) returns (filtered: seq<T>)
    ensures filtered == Filtered(s, p)
  {
    filtered := [];
    for i := 0 to |s|
      invariant filtered == Filtered(s[..i], p)
    {
      FilteredAppend(s[..i], [s[i]], p);
      assert s[..i + 1] == s[..i] + [s[i]];
      if p(s[i]) {
        filtered := filtered + [s[i]];
      }
    }
    assert s[..|s|] == s;
  }

  /** The last min(|s|, capacity) elements of s, oldest first. */
  function LastN<T>(s: seq<T>, capacity: nat): seq<T>
  {
    s[|s| - Min(|s|, capacity)..]
  }

  lemma LastNBounds<T>(s: seq<T>, capacity: nat)
    ensures |LastN(s, capacity)| == Min(|s|, capacity) <= capacity
    ensures LastN<T>([], capacity) == []
  {
  }

  /** With capacity 1, each push replaces the previous value. */
  lemma LastNOfOne<T>(s: seq<T>, x: T)
    ensures LastN(s + [x], 1) == [x]
  {
  }

  /** Pushing x after s keeps the window of s, shifted by one, with x as newest. */
  lemma LastNPush<T>(s: seq<T>, x: T, capacity: nat)
    requires capacity >= 1
    ensures LastN(s + [x], capacity) == LastN(s, capacity - 1) + [x]
  {
    var t := s + [x];
    var k := Min(|t|, capacity);
    assert t[|t| - k..] == t[|t| - k..|t| - 1] + [x];
    assert t[|t| - k..|t| - 1] == s[|s| - Min(|s|, capacity - 1)..];
  }

  /** The slot j steps behind slot i in a ring of n slots. */
  function StepsBehind(i: nat, n: nat, j: nat): (r: nat)
    requires i < n && j < n
    ensures r < n
  {
    if j <= i then i - j else i + n - j
  }

  /** A fixed-capacity ring of the most recently pushed values. Slot values
      are Some(v) once written and None before that (Go's nil Value). */
  class Ring<T> {
    /** Every value pushed so far, oldest first. */
    ghost var Pushed: seq<T>

    const capacity: nat
    const slots: array<Option<T>>
    var cursor: nat

    /** Index of the slot j steps behind the cursor. */
    function Back(j: nat): nat
      reads this
      requires cursor < capacity && j < capacity
    {
      StepsBehind(cursor, capacity, j)
    }

    ghost function Held(): nat
      reads this
    {
      Min(|Pushed|, capacity)
    }

    ghost predicate Valid()
      reads this, slots
    {
      && capacity >= 1
      && slots.Length == capacity
      && cursor < capacity
      && forall j :: 0 <= j < capacity ==>
           slots[Back(j)] == if j < Held() then Some(Pushed[|Pushed| - 1 - j]) else None
    }

    /** NewRing: an empty ring. Capacity 0 gives a ring on which every Push
        panics, so it is excluded here. */
    constructor (capacity: nat)
      requires capacity >= 1
      ensures Valid() && fresh(slots)
      ensures this.capacity == capacity && Pushed == []
    {
      this.capacity := capacity;
      slots := new Option<T>[capacity](_ => None);
      cursor := 0;
      Pushed := [];
    }

    /** Move the cursor forward and overwrite that slot. */
    method Push(x: T)
      requires Valid()
      modifies this, slots
      ensures Valid()
      ensures Pushed == old(Pushed) + [x]
    {
      ghost var oldCursor, oldSlots, oldHeld := cursor, slots[..], Held();
      forall j | 0 <= j < capacity
        ensures oldSlots[StepsBehind(cursor, capacity, j)] ==
                if j < oldHeld then Some(Pushed[|Pushed| - 1 - j]) else None
      {
        SlotContents(j);
      }
      cursor := Next(cursor);
      slots[cursor] := Some(x);
      Pushed := Pushed + [x];
      forall j | 0 <= j < capacity
        ensures slots[Back(j)] == if j < Held() then Some(Pushed[|Pushed| - 1 - j]) else None
      {
        if j > 0 {
          var k := StepsBehind(oldCursor, capacity, j - 1);
          assert Back(j) == k != cursor;
          assert oldSlots[k] == if j - 1 < oldHeld then Some(Pushed[|Pushed| - 1 - j]) else None;
        }
      }
    }

    /** Walk back from the cursor over written slots to the oldest value, then
        forward to the cursor, collecting values: the window of the most recent
        pushes, oldest first. */
    method ReadAllOrdered() returns (arr: seq<T>)
      requires Valid()
      ensures arr == LastN(Pushed, capacity)
    {
      ghost var n, h := |Pushed|, Held();
      arr := [];
      var earliest: nat;
      ghost var d: nat;
      earliest, d := Earliest();
      while earliest != cursor
        invariant d < capacity && earliest == Back(d)
        invariant h == 0 ==> arr == [] && d == 0
        invariant h > 0 ==> d < h && arr == Pushed[n - h..n - 1 - d]
        decreases d
      {
        ghost var e := d;
        assert e > 0 by { StepBack(e); }
        ReadStep(e, arr, n, h);
        arr := arr + [slots[earliest].value];
        earliest := Next(earliest);
        d := e - 1;
      }
      ReadLast(arr, n, h);
      if slots[earliest].Some? {
        arr := arr + [slots[earliest].value];
      }
    }

    /** The last step of the forward walk: the cursor slot holds the newest
        value, or nothing when the ring is still empty. */
    lemma ReadLast(arr: seq<T>, n: nat, h: nat)
      requires Valid() && n == |Pushed| && h == Held()
      requires h == 0 ==> arr == []
      requires h > 0 ==> arr == Pushed[n - h..n - 1]
      ensures slots[cursor].None? ==> arr == LastN(Pushed, capacity)
      ensures slots[cursor].Some? ==> arr + [slots[cursor].value] == LastN(Pushed, capacity)
    {
      SlotContents(0);
      if h > 0 {
        assert Pushed[n - h..] == Pushed[n - h..n - 1] + [Pushed[n - 1]];
      }
    }

    /** The backward walk: from the cursor, step back while the previous slot
        is written and is not the cursor. It stops at the oldest held value,
        or at the cursor when nothing has been pushed. */
    method Earliest() returns (earliest: nat, ghost d: nat)
      requires Valid()
      ensures d < capacity && earliest == Back(d)
      ensures d + 1 == Held() || d == 0 == Held()
    {
      earliest := cursor;
      d := 0;
      while Prev(earliest) != cursor && slots[Prev(earliest)].Some?
        invariant d < capacity && earliest == Back(d)
        invariant d == 0 || d < Held()
        decreases capacity - d
      {
        StepBack(d);
        SlotContents(d + 1);
        earliest := Prev(earliest);
        d := d + 1;
      }
      StepBack(d);
      if d + 1 < capacity {
        SlotContents(d + 1);
      }
      SlotContents(d);
    }

    /** One step of the forward walk: the slot d behind the cursor holds the
        next value of the window, and the slot after it is d - 1 behind. */
    lemma ReadStep(d: nat, arr: seq<T>, n: nat, h: nat)
      requires Valid() && n == |Pushed| && h == Held() && 0 < d < h
      requires arr == Pushed[n - h..n - 1 - d]
      ensures slots[Back(d)].Some?
      ensures arr + [slots[Back(d)].value] == Pushed[n - h..n - d]
      ensures Next(Back(d)) == Back(d - 1)
    {
      SlotContents(d);
      StepBack(d - 1);
    }

    /** What the slot d steps behind the cursor holds. */
    lemma SlotContents(d: nat)
      requires Valid() && d < capacity
      ensures slots[Back(d)] == if d < Held() then Some(Pushed[|Pushed| - 1 - d]) else None
    {
    }

    /** Stepping back from the slot d behind the cursor reaches the slot d + 1
        behind it, or the cursor itself after a full turn. */
    lemma StepBack(d: nat)
      requires cursor < capacity && d < capacity
      ensures Prev(Back(d)) == if d + 1 < capacity then Back(d + 1) else cursor
      ensures d + 1 < capacity ==> Next(Back(d + 1)) == Back(d)
      ensures Back(d) == cursor <==> d == 0
    {
    }

    function Prev(i: nat): nat
      reads this
      requires i < capacity
    {
      if i == 0 then capacity - 1 else i - 1
    }

    function Next(i: nat): nat
      reads this
      requires i < capacity
    {
      if i + 1 == capacity then 0 else i + 1
    }
  }
}
