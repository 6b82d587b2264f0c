/** The double-ended queue: a power-of-two ring whose 32-bit head and tail counters wrap
around (bootstrap/cell.c:2157-2297).

The lemmas say what one write or clear at either end does to the represented sequence. */
module Deque {
  import opened Bits
  import opened Options

  const WORD: nat := 0x1_0000_0000
  const MIN_CAP: nat := 8
  const MAX_CAP: nat := 0x8000_0000

  function Inc(v: nat): (r: nat)
    ensures r < WORD
  {
    (v + 1) % WORD
  }

  function Dec(v: nat): (r: nat)
    ensures r < WORD
  {
    (v + WORD - 1) % WORD
  }

  /** `tail - head` in 32-bit arithmetic. */
  function Distance(head: nat, tail: nat): (r: nat)
    requires head < WORD && tail < WORD
    ensures r < WORD
  {
    (tail + WORD - head) % WORD
  }

  /** Moving either counter by one changes the size by one, wrapped or not. */
  lemma SizeMoves(head: nat, tail: nat, n: nat)
    requires head < WORD && tail < WORD && Distance(head, tail) == n <= MAX_CAP
    ensures Distance(Dec(head), tail) == n + 1 && Distance(head, Inc(tail)) == n + 1
    ensures n > 0 ==> Distance(Inc(head), tail) == n - 1 && Distance(head, Dec(tail)) == n - 1
  {
    hide Inc, Dec, Distance;
    StepForm(head);
    StepForm(tail);
    DistanceForm(head, tail);
    DistanceForm(Dec(head), tail);
    DistanceForm(head, Inc(tail));
    DistanceForm(Inc(head), tail);
    DistanceForm(head, Dec(tail));
  }

  lemma StepForm(v: nat)
    requires v < WORD
    ensures Inc(v) == if v == WORD - 1 then 0 else v + 1
    ensures Dec(v) == if v == 0 then WORD - 1 else v - 1
  {
  }

  lemma DistanceForm(head: nat, tail: nat)
    requires head < WORD && tail < WORD
    ensures Distance(head, tail) == if head <= tail then tail - head else tail + WORD - head
  {
  }

  ghost predicate Capacity(cap: nat) {
    IsPow2(cap) && MIN_CAP <= cap <= MAX_CAP
  }

  lemma {:induction false} PowGrows(a: nat, b: nat)
    requires a <= b
    ensures Pow2(a) <= Pow2(b)
    decreases b
  {
    if a < b { PowGrows(a, b - 1); }
  }

  lemma {:induction false} PowSplit(a: nat, b: nat)
    ensures Pow2(a + b) == Pow2(a) * Pow2(b)
  {
    if a > 0 {
      PowSplit(a - 1, b);
      Regroup(Pow2(a - 1), Pow2(b));
    }
  }

  lemma Regroup(x: int, y: int)
    ensures 2 * (x * y) == (2 * x) * y
  {
  }

  lemma WordPowers()
    ensures Pow2(31) == MAX_CAP && Pow2(32) == WORD
  {
    assert Pow2(4) == 16;
    PowSplit(4, 4);
    PowSplit(8, 8);
    PowSplit(16, 16);
  }

  /** Counting past the word size does not change the slot. */
  lemma SlotWraps(x: nat, cap: nat)
    requires Capacity(cap)
    ensures Slot(x + WORD, cap) == Slot(x, cap)
  {
    hide Slot;
    var k: nat :| cap == Pow2(k);
    WordPowers();
    if k > 32 {
      PowGrows(33, k);
    }
    PowSplit(k, 32 - k);
    hide Pow2;
    SlotIsRemainder(x, cap);
    SlotIsRemainder(x + WORD, cap);
    AddMultiple(x, cap, Pow2(32 - k));
    SlotBody(x, cap);
    SlotBody(x + WORD, cap);
  }

  lemma AddMultiple(x: nat, c: nat, m: nat)
    requires c >= 1
    ensures (x + c * m) % c == x % c
  {
    DivisionLaw(x, c);
    var minus: int := m;
    Distribute(c, x / c, -minus);
    RemainderUnique(x + c * m, c, x / c + m, x % c);
  }

  /** The slot of the `i`-th element counted from `head`. */
  function Ring(head: nat, i: nat, cap: nat): (r: nat)
    requires Capacity(cap)
    ensures r < cap
  {
    Slot((head + i) % WORD, cap)
  }

  lemma RingUnwrapped(head: nat, i: nat, cap: nat)
    requires Capacity(cap) && head < WORD && i <= WORD
    ensures Ring(head, i, cap) == Slot(head + i, cap)
  {
    hide Slot;
    if head + i >= WORD {
      SlotWraps(head + i - WORD, cap);
    }
  }

  /** Elements of a window no longer than the capacity have different slots. */
  lemma RingDistinct(head: nat, i: nat, j: nat, cap: nat)
    requires Capacity(cap) && head < WORD && i < j < i + cap && j <= WORD
    ensures Ring(head, i, cap) != Ring(head, j, cap)
  {
    RingUnwrapped(head, i, cap);
    RingUnwrapped(head, j, cap);
    SlotsApart(head + i, head + j, cap);
  }

  lemma RingShift(head: nat, i: nat, cap: nat)
    requires Capacity(cap) && head < WORD && i < WORD
    ensures Ring(Inc(head), i, cap) == Ring(head, i + 1, cap)
    ensures Ring(Dec(head), i + 1, cap) == Ring(head, i, cap)
    ensures Ring(Dec(head), 0, cap) == Slot(Dec(head), cap)
  {
    hide Slot;
    assert (Inc(head) + i) % WORD == (head + i + 1) % WORD;
    assert (Dec(head) + i + 1) % WORD == (head + i) % WORD;
  }

  /** The slots run from the head's slot to the end of the buffer and on from its start. */
  lemma RingIndex(head: nat, i: nat, cap: nat)
    requires Capacity(cap) && head < WORD && i <= cap
    ensures var h := Slot(head, cap);
            Ring(head, i, cap) == if h + i < cap then h + i else h + i - cap
  {
    hide Slot;
    RingUnwrapped(head, i, cap);
    SlotBody(head, cap);
    SlotBody(head + i, cap);
    AddBelow(head, i, cap);
  }

  lemma AddBelow(x: nat, i: nat, c: nat)
    requires c >= 1 && i <= c
    ensures (x + i) % c == if x % c + i < c then x % c + i else x % c + i - c
  {
    DivisionLaw(x, c);
    if x % c + i < c {
      RemainderUnique(x + i, c, x / c, x % c + i);
    } else {
      var one: int := 1;
      Distribute(c, x / c, -one);
      RemainderUnique(x + i, c, x / c + 1, x % c + i - c);
    }
  }

  // ----- what a buffer holds -----

  /** The ring holds the elements of `s` from front to back. */
  ghost predicate Represents<T>(buf: seq<Option<T>>, cap: nat, head: nat, s: seq<T>) {
    && Capacity(cap) && |buf| == cap && head < WORD && |s| <= cap
    && (forall i :: 0 <= i < |s| ==> buf[Ring(head, i, cap)] == Some(s[i]))
  }

  lemma FrontPushed<T>(buf: seq<Option<T>>, cap: nat, head: nat, s: seq<T>, v: T)
    requires Represents(buf, cap, head, s) && |s| < cap
    ensures Represents(buf[Slot(Dec(head), cap) := Some(v)], cap, Dec(head), [v] + s)
  {
    hide Slot, Pow2, IsPow2, Ring;
    var h := Dec(head);
    RingShift(head, 0, cap);
    forall i | 0 <= i < |s| ensures Ring(h, i + 1, cap) == Ring(head, i, cap) != Slot(h, cap) {
      RingShift(head, i, cap);
      RingDistinct(h, 0, i + 1, cap);
    }
  }

  lemma BackPushed<T>(buf: seq<Option<T>>, cap: nat, head: nat, tail: nat, s: seq<T>, v: T)
    requires Represents(buf, cap, head, s) && |s| < cap && tail < WORD && Distance(head, tail) == |s|
    ensures Represents(buf[Slot(tail, cap) := Some(v)], cap, head, s + [v])
  {
    hide Slot, Pow2, IsPow2, Ring;
    EndSlot(head, tail, cap);
    forall i | 0 <= i < |s| ensures Ring(head, i, cap) != Slot(tail, cap) {
      RingDistinct(head, i, |s|, cap);
    }
  }

  lemma FrontPopped<T>(buf: seq<Option<T>>, cap: nat, head: nat, s: seq<T>)
    requires Represents(buf, cap, head, s) && s != []
    ensures buf[Slot(head, cap)] == Some(s[0])
    ensures Represents(buf[Slot(head, cap) := None], cap, Inc(head), s[1..])
  {
    hide Slot, Pow2, IsPow2, Ring;
    RingStart(head, cap);
    forall i | 0 <= i < |s| - 1 ensures Ring(Inc(head), i, cap) == Ring(head, i + 1, cap) != Slot(head, cap) {
      RingShift(head, i, cap);
      RingDistinct(head, 0, i + 1, cap);
    }
  }

  lemma BackPopped<T>(buf: seq<Option<T>>, cap: nat, head: nat, tail: nat, s: seq<T>)
    requires Represents(buf, cap, head, s) && s != [] && tail < WORD && Distance(head, tail) == |s|
    ensures buf[Slot(Dec(tail), cap)] == Some(s[|s| - 1])
    ensures Represents(buf[Slot(Dec(tail), cap) := None], cap, head, s[..|s| - 1])
  {
    hide Slot, Pow2, IsPow2, Ring;
    EndSlot(head, Dec(tail), cap);
    forall i | 0 <= i < |s| - 1 ensures Ring(head, i, cap) != Slot(Dec(tail), cap) {
      RingDistinct(head, i, |s| - 1, cap);
    }
  }

  /** The unwrapped copy that growing makes. */
  lemma Unwrapped<T>(buf: seq<Option<T>>, cap: nat, head: nat, tail: nat, s: seq<T>, fill: seq<Option<T>>)
    requires Represents(buf, cap, head, s) && tail < WORD && Distance(head, tail) == |s|
    requires 2 * cap <= MAX_CAP && |fill| == 2 * cap
    requires var h, t := Slot(head, cap), Slot(tail, cap);
             |s| > 0 ==>
               if h < t then h + |s| <= cap ==> forall i :: 0 <= i < |s| ==> fill[i] == buf[h + i]
               else (forall i :: 0 <= i < cap - h ==> fill[i] == buf[h + i])
                    && (forall i :: cap - h <= i < cap - h + t ==> fill[i] == buf[i - (cap - h)])
    ensures Represents(fill, 2 * cap, 0, s)
  {
    hide Slot, Pow2, IsPow2, Ring;
    DoubleCapacity(cap);
    EndSlot(head, tail, cap);
    RingIndex(head, |s|, cap);
    forall i | 0 <= i < |s| ensures fill[Ring(0, i, 2 * cap)] == Some(s[i]) {
      FromZero(i, 2 * cap);
      RingIndex(head, i, cap);
    }
  }

  // ----- the deque object -----

  class Deque<T(0)> {
    var buffer: array<Option<T>>
    var capacity: nat
    var head: nat
    var tail: nat
    ghost var contents: seq<T>  // front to back

    ghost predicate Valid()
      reads this, buffer
    {
      && Represents(buffer[..], capacity, head, contents)
      && tail < WORD && Distance(head, tail) == |contents|
    }

    constructor (initialCap: nat)
      requires initialCap <= MAX_CAP
      ensures Valid() && contents == [] && fresh(buffer) && capacity >= initialCap
    {
      var want := if initialCap < MIN_CAP then MIN_CAP else initialCap;
      var cap := RoundUp(want);
      capacity, head, tail := cap, 0, 0;
      buffer := new Option<T>[cap](_ => None);
      contents := [];
    }

    method Size() returns (n: nat)
      requires Valid()
      ensures n == |contents|
    {
      n := Distance(head, tail);
    }

    /** `deque_grow`: twice the capacity, the ring unwrapped to the front of the new
    buffer with one or two block copies. */
    method Grow()
      requires Valid() && 2 * capacity <= MAX_CAP
      modifies this
      ensures Valid() && contents == old(contents) && fresh(buffer)
      ensures capacity == 2 * old(capacity) && head == 0
    {
      hide Slot, Pow2, IsPow2, Ring;
      var oldCap := capacity;
      var size := Distance(head, tail);
      ghost var before := buffer[..];
      var fill := new Option<T>[2 * oldCap](_ => None);
      var headIdx, tailIdx := Slot(head, oldCap), Slot(tail, oldCap);
      if size == 0 {
      } else if headIdx < tailIdx {
        RunFits(head, tail, oldCap, size);
        forall i | 0 <= i < size { fill[i] := buffer[headIdx + i]; }
      } else {
        var firstChunk := oldCap - headIdx;
        forall i | 0 <= i < firstChunk { fill[i] := buffer[headIdx + i]; }
        forall i | 0 <= i < tailIdx { fill[firstChunk + i] := buffer[i]; }
      }
      Unwrapped(before, oldCap, head, tail, contents, fill[..]);
      buffer := fill;
      capacity := 2 * oldCap;
      head, tail := 0, size;
    }

    /** Grows when the ring is full. */
    method EnsureSpace()
      requires Valid() && |contents| < MAX_CAP
      modifies this
      ensures Valid() && contents == old(contents) && |contents| < capacity
      ensures buffer == old(buffer) || fresh(buffer)
    {
      if Distance(head, tail) == capacity {
        RoomToDouble(capacity);
        Grow();
      }
    }

    /** `cell_deque_push_front`. */
    method PushFront(val: T)
      requires Valid() && |contents| < MAX_CAP
      modifies this, buffer
      ensures Valid() && contents == [val] + old(contents)
      ensures buffer == old(buffer) || fresh(buffer)
    {
      hide Represents, Slot, Pow2, IsPow2, Ring, Distance, Inc, Dec;
      EnsureSpace();
      CapacityKnown(buffer[..], capacity, head, contents);
      SizeMoves(head, tail, |contents|);
      FrontPushed(buffer[..], capacity, head, contents, val);
      ghost var before := buffer[..];
      head := Dec(head);
      var idx := Slot(head, capacity);
      buffer[idx] := Some(val);
      assert buffer[..] == before[idx := Some(val)];
      contents := [val] + contents;
    }

    /** `cell_deque_push_back`. */
    method PushBack(val: T)
      requires Valid() && |contents| < MAX_CAP
      modifies this, buffer
      ensures Valid() && contents == old(contents) + [val]
      ensures buffer == old(buffer) || fresh(buffer)
    {
      hide Represents, Slot, Pow2, IsPow2, Ring, Distance, Inc, Dec;
      EnsureSpace();
      CapacityKnown(buffer[..], capacity, head, contents);
      SizeMoves(head, tail, |contents|);
      BackPushed(buffer[..], capacity, head, tail, contents, val);
      ghost var before := buffer[..];
      var idx := Slot(tail, capacity);
      buffer[idx] := Some(val);
      assert buffer[..] == before[idx := Some(val)];
      tail := Inc(tail);
      contents := contents + [val];
    }

    /** `cell_deque_pop_front`; `None` is the NULL of an empty deque. */
    method PopFront() returns (r: Option<T>)
      requires Valid()
      modifies this, buffer
      ensures Valid() && buffer == old(buffer)
      ensures old(contents) == [] ==> r == None && contents == []
      ensures old(contents) != [] ==> r == Some(old(contents)[0]) && contents == old(contents)[1..]
    {
      hide Represents, Slot, Pow2, IsPow2, Ring, Distance, Inc, Dec;
      CapacityKnown(buffer[..], capacity, head, contents);
      if Distance(head, tail) == 0 {
        return None;
      }
      SizeMoves(head, tail, |contents|);
      FrontPopped(buffer[..], capacity, head, contents);
      ghost var before := buffer[..];
      var idx := Slot(head, capacity);
      r := buffer[idx];
      buffer[idx] := None;
      assert buffer[..] == before[idx := None];
      head := Inc(head);
      contents := contents[1..];
    }

    /** `cell_deque_pop_back`. */
    method PopBack() returns (r: Option<T>)
      requires Valid()
      modifies this, buffer
      ensures Valid() && buffer == old(buffer)
      ensures old(contents) == [] ==> r == None && contents == []
      ensures old(contents) != [] ==>
                var n := |old(contents)| - 1;
                r == Some(old(contents)[n]) && contents == old(contents)[..n]
    {
      hide Represents, Slot, Pow2, IsPow2, Ring, Distance, Inc, Dec;
      CapacityKnown(buffer[..], capacity, head, contents);
      if Distance(head, tail) == 0 {
        return None;
      }
      SizeMoves(head, tail, |contents|);
      BackPopped(buffer[..], capacity, head, tail, contents);
      ghost var before := buffer[..];
      tail := Dec(tail);
      var idx := Slot(tail, capacity);
      r := buffer[idx];
      buffer[idx] := None;
      assert buffer[..] == before[idx := None];
      contents := contents[..|contents| - 1];
    }

    /** `cell_deque_peek_front`. */
    method PeekFront() returns (r: Option<T>)
      requires Valid()
      ensures r == if contents == [] then None else Some(contents[0])
    {
      hide Slot, Pow2, IsPow2, Ring;
      if Distance(head, tail) == 0 {
        return None;
      }
      FrontPopped(buffer[..], capacity, head, contents);
      r := buffer[Slot(head, capacity)];
    }

    /** `cell_deque_peek_back`. */
    method PeekBack() returns (r: Option<T>)
      requires Valid()
      ensures r == if contents == [] then None else Some(contents[|contents| - 1])
    {
      hide Slot, Pow2, IsPow2, Ring;
      if Distance(head, tail) == 0 {
        return None;
      }
      BackPopped(buffer[..], capacity, head, tail, contents);
      r := buffer[Slot(Dec(tail), capacity)];
    }

    /** `cell_deque_to_list`. */
    method ToList() returns (list: seq<T>)
      requires Valid()
      ensures list == contents
    {
      hide Slot, Pow2, IsPow2;
      list := [];
      var i := Distance(head, tail);
      while i > 0
        invariant 0 <= i <= |contents| && list == contents[i..]
      {
        assert buffer[..][Ring(head, i - 1, capacity)] == Some(contents[i - 1]);
        list := [buffer[Slot((head + (i - 1)) % WORD, capacity)].value] + list;
        i := i - 1;
      }
    }
  }

  lemma CapacityKnown<T>(buf: seq<Option<T>>, cap: nat, head: nat, s: seq<T>)
    requires Represents(buf, cap, head, s)
    ensures Capacity(cap) && |buf| == cap <= MAX_CAP && head < WORD && |s| <= cap
  {
  }

  /** An unwrapped run ends inside the buffer. */
  lemma RunFits(head: nat, tail: nat, cap: nat, n: nat)
    requires Capacity(cap) && head < WORD && tail < WORD && Distance(head, tail) == n <= cap
    requires Slot(head, cap) < Slot(tail, cap)
    ensures Slot(head, cap) + n <= cap
  {
    hide Slot, Ring;
    EndSlot(head, tail, cap);
    RingIndex(head, n, cap);
  }

  lemma RingStart(head: nat, cap: nat)
    requires Capacity(cap) && head < WORD
    ensures Ring(head, 0, cap) == Slot(head, cap)
  {
  }

  lemma RoomToDouble(cap: nat)
    requires Capacity(cap) && cap < MAX_CAP
    ensures 2 * cap <= MAX_CAP
  {
    var k: nat :| cap == Pow2(k);
    WordPowers();
    if k >= 31 {
      PowGrows(31, k);
    } else {
      PowGrows(k, 30);
    }
  }

  lemma EndSlot(head: nat, tail: nat, cap: nat)
    requires Capacity(cap) && head < WORD && tail < WORD
    ensures Ring(head, Distance(head, tail), cap) == Slot(tail, cap)
  {
    hide Slot;
  }

  lemma FromZero(i: nat, cap: nat)
    requires Capacity(cap) && i < cap
    ensures Ring(0, i, cap) == i
  {
    SlotOfSmall(i, cap);
  }

  lemma DoubleCapacity(cap: nat)
    requires Capacity(cap) && 2 * cap <= MAX_CAP
    ensures Capacity(2 * cap)
  {
    Doubled(cap);
  }

  /** Doubles from the minimum capacity up to the wanted one. */
  method RoundUp(want: nat) returns (cap: nat)
    requires MIN_CAP <= want <= MAX_CAP
    ensures Capacity(cap) && cap >= want
  {
    cap := MIN_CAP;
    assert Pow2(3) == MIN_CAP;
    WordPowers();
    ghost var k: nat := 3;
    while cap < want
      invariant cap == Pow2(k) && MIN_CAP <= cap <= MAX_CAP
      decreases MAX_CAP - cap
    {
      if k >= 31 {
        PowGrows(31, k);
      } else {
        PowGrows(k + 1, 31);
      }
      k := k + 1;
      cap := 2 * cap;
    }
  }
}
