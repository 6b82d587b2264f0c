/** The set type (bootstrap/cell.c:1824-2144). */
module HashSet {
  // Open addressing in groups of 15 slots with one overflow byte per group, triangular probing
  // and delete without tombstones.
  //
  // Equality and hash are parameters. A group's 16 metadata bytes are 15 tags and the overflow
  // byte; SIMD matching is a scan of the tags in slot order.

  import opened Bits
  import opened Sets
  import opened Probe
  import opened Options

  const SLOTS: nat := 15
  const EMPTY: bv8 := 0

  /** The element equality and hash function. */
  datatype Keys<!T> = Keys(eq: (T, T) -> bool, hash: T -> bv64)

  /** Equality is an equivalence and equal elements hash alike. */
  ghost predicate Lawful<T(!new)>(k: Keys<T>) {
    && (forall x :: k.eq(x, x))
    && (forall x, y :: k.eq(x, y) ==> k.eq(y, x))
    && (forall x, y, z :: k.eq(x, y) && k.eq(y, z) ==> k.eq(x, z))
    && (forall x, y :: k.eq(x, y) ==> k.hash(x) == k.hash(y))
  }

  // ----- hash pieces -----

  function TagOf(h: bv64): (t: bv8)
    ensures t >= 2
  {
    var t := ((h >> 56) & 0xFF) as bv8;
    if t < 2 then t + 2 else t
  }

  function OverflowBit(h: bv64): (b: bv8)
    ensures b != 0
  {
    (1 as bv8) << (((h >> 48) & 7) as bv4)
  }

  function Home(h: bv64): (g: nat) {
    (h & 0xFFFF_FFFF) as nat
  }

  predicate HasBit(byte: bv8, b: bv8) {
    byte & b != 0
  }

  lemma BitSet(byte: bv8, b: bv8)
    requires b != 0
    ensures HasBit(byte | b, b) && byte | b != 0
    ensures forall c :: HasBit(byte, c) ==> HasBit(byte | b, c)
    ensures forall c :: !HasBit(0, c)
  {
  }

  // ----- the table as values -----

  /** Metadata index of the tag of slot `i`, where slots are numbered `group * 15 + s`. */
  function TagAt(i: nat): (m: nat)
    ensures m % 16 < 15 && m / 16 == i / 15
    ensures forall ng :: i < 15 * ng ==> m < 16 * ng
  {
    (i / 15) * 16 + i % 15
  }

  /** Metadata index of the overflow byte of group `g`. */
  function OverflowAt(g: nat): (m: nat) {
    g * 16 + 15
  }

  /** The round of the probe for `h` that reaches group `g`, all earlier groups carrying
  the overflow bit of `h`. */
  ghost predicate OnPath(ng: nat, meta: seq<bv8>, h: bv64, g: nat)
    requires IsPow2(ng) && |meta| == 16 * ng
  {
    exists k :: 0 <= k < ng && Group(Home(h), ng, k) == g && Bypassed(ng, meta, h, k)
  }

  ghost predicate Bypassed(ng: nat, meta: seq<bv8>, h: bv64, k: nat)
    requires IsPow2(ng) && |meta| == 16 * ng
  {
    forall j :: 0 <= j < k ==> HasBit(meta[OverflowAt(Group(Home(h), ng, j))], OverflowBit(h))
  }

  /** The representation invariant.  `pos` maps every member to its slot, `used` holds
  the slots filled at some time since the last rehash, and `slack` is how many more
  insertions the load limit allows. */
  ghost predicate TableOk<T>(k: Keys<T>, ng: nat, meta: seq<bv8>, elems: seq<Option<T>>,
                             pos: map<T, nat>, used: set<nat>, slack: nat)
  {
    && Sized(ng, meta, elems)
    && (forall i :: 0 <= i < 15 * ng ==> SlotOk(k, ng, meta, elems, pos, i))
    && (forall x :: x in pos ==> pos[x] < 15 * ng && elems[pos[x]] == Some(x))
    && (forall x, y :: x in pos && y in pos && k.eq(x, y) ==> x == y)
    && UsedOk(ng, meta, used, slack)
  }

  ghost predicate Sized<T>(ng: nat, meta: seq<bv8>, elems: seq<Option<T>>) {
    IsPow2(ng) && |meta| == 16 * ng && |elems| == 15 * ng
  }

  /** An occupied slot holds a member, its tag, and is on the member's probe path. */
  ghost predicate SlotOk<T>(k: Keys<T>, ng: nat, meta: seq<bv8>, elems: seq<Option<T>>,
                            pos: map<T, nat>, i: nat)
    requires Sized(ng, meta, elems) && i < 15 * ng
  {
    match elems[i]
    case None => meta[TagAt(i)] == EMPTY
    case Some(x) =>
      && meta[TagAt(i)] == TagOf(k.hash(x))
      && x in pos && pos[x] == i
      && OnPath(ng, meta, k.hash(x), i / 15)
  }

  /** The load accounting behind termination: a group with any overflow bit has been
  full since the last rehash, and fewer than 15 slots per group were ever used. */
  ghost predicate UsedOk(ng: nat, meta: seq<bv8>, used: set<nat>, slack: nat)
    requires IsPow2(ng) && |meta| == 16 * ng
  {
    && (forall i :: 0 <= i < 15 * ng && meta[TagAt(i)] != EMPTY ==> i in used)
    && (forall i :: 0 <= i < 15 * ng && meta[OverflowAt(i / 15)] != 0 ==> i in used)
    && |used| + slack <= 13 * ng
  }

  /** Some group was never full: it has an empty slot and a zero overflow byte. */
  lemma NeverFullGroup(ng: nat, meta: seq<bv8>, used: set<nat>, slack: nat) returns (i: nat)
    requires IsPow2(ng) && ng >= 1 && |meta| == 16 * ng && UsedOk(ng, meta, used, slack)
    ensures i < 15 * ng && meta[OverflowAt(i / 15)] == 0 && meta[TagAt(i)] == EMPTY
  {
    if Interval(0, 15 * ng) <= used {
      SubsetSize(Interval(0, 15 * ng), used);
      assert false;
    }
    i :| i in Interval(0, 15 * ng) && i !in used;
  }

  /** A probe cannot have bypassed every group. */
  lemma ProbeStops(ng: nat, meta: seq<bv8>, used: set<nat>, slack: nat, h: bv64)
    requires IsPow2(ng) && ng >= 1 && |meta| == 16 * ng && UsedOk(ng, meta, used, slack)
    ensures !Bypassed(ng, meta, h, ng)
  {
    hide Group, Bits.IsPow2;
    var i := NeverFullGroup(ng, meta, used, slack);
    EveryGroupVisited(Home(h), ng, i / 15);
    BitSet(0, 1);
  }

  lemma StopsInTable<T>(k: Keys<T>, ng: nat, meta: seq<bv8>, elems: seq<Option<T>>,
                        pos: map<T, nat>, used: set<nat>, slack: nat, h: bv64)
    requires TableOk(k, ng, meta, elems, pos, used, slack) && ng >= 1
    ensures Sized(ng, meta, elems) && !Bypassed(ng, meta, h, ng)
  {
    hide Group, Bits.IsPow2;
    ProbeStops(ng, meta, used, slack, h);
  }

  /** Raising the overflow byte of a full group keeps the invariant. */
  lemma RaiseOverflow<T>(k: Keys<T>, ng: nat, meta: seq<bv8>, elems: seq<Option<T>>,
                         pos: map<T, nat>, used: set<nat>, slack: nat, g: nat, b: bv8)
    requires TableOk(k, ng, meta, elems, pos, used, slack) && g < ng && b != 0
    requires forall i :: g * 15 <= i < g * 15 + 15 ==> meta[TagAt(i)] != EMPTY
    ensures var meta' := meta[OverflowAt(g) := meta[OverflowAt(g)] | b];
            && TableOk(k, ng, meta', elems, pos, used, slack)
            && (forall h, n :: Bypassed(ng, meta, h, n) ==> Bypassed(ng, meta', h, n))
  {
    hide Group, Bits.IsPow2;
    var meta' := meta[OverflowAt(g) := meta[OverflowAt(g)] | b];
    BitSet(meta[OverflowAt(g)], b);
    forall h, n | Bypassed(ng, meta, h, n) ensures Bypassed(ng, meta', h, n) {
    }
    forall i | 0 <= i < 15 * ng ensures SlotOk(k, ng, meta', elems, pos, i) {
      assert SlotOk(k, ng, meta, elems, pos, i);
    }
    forall i | 0 <= i < 15 * ng && meta'[OverflowAt(i / 15)] != 0 ensures i in used {
    }
    assert UsedOk(ng, meta', used, slack);
  }

  /** Filling an empty slot on the element's path keeps the invariant. */
  lemma FillSlot<T>(k: Keys<T>, ng: nat, meta: seq<bv8>, elems: seq<Option<T>>,
                    pos: map<T, nat>, used: set<nat>, slack: nat, x: T, i: nat)
    requires TableOk(k, ng, meta, elems, pos, used, slack) && slack >= 1
    requires i < 15 * ng && meta[TagAt(i)] == EMPTY && OnPath(ng, meta, k.hash(x), i / 15)
    requires forall y :: y in pos ==> !k.eq(x, y) && !k.eq(y, x)
    requires k.eq(x, x)
    ensures TableOk(k, ng, meta[TagAt(i) := TagOf(k.hash(x))], elems[i := Some(x)],
                    pos[x := i], used + {i}, slack - 1)
  {
    hide Group, Bits.IsPow2;
    var meta' := meta[TagAt(i) := TagOf(k.hash(x))];
    var elems' := elems[i := Some(x)];
    var pos' := pos[x := i];
    assert SlotOk(k, ng, meta, elems, pos, i);
    assert x !in pos;
    TagsOnly(ng, meta, meta');
    forall j | 0 <= j < 15 * ng ensures SlotOk(k, ng, meta', elems', pos', j) {
      assert SlotOk(k, ng, meta, elems, pos, j);
    }
  }

  /** Emptying a member's slot keeps the invariant; overflow bits stay as they are. */
  lemma ClearSlot<T>(k: Keys<T>, ng: nat, meta: seq<bv8>, elems: seq<Option<T>>,
                     pos: map<T, nat>, used: set<nat>, slack: nat, x: T)
    requires TableOk(k, ng, meta, elems, pos, used, slack) && x in pos
    ensures TableOk(k, ng, meta[TagAt(pos[x]) := EMPTY], elems[pos[x] := None], pos - {x}, used, slack)
  {
    hide Group, Bits.IsPow2;
    var i := pos[x];
    var meta' := meta[TagAt(i) := EMPTY];
    var elems' := elems[i := None];
    TagsOnly(ng, meta, meta');
    forall j | 0 <= j < 15 * ng ensures SlotOk(k, ng, meta', elems', pos - {x}, j) {
      assert SlotOk(k, ng, meta, elems, pos, j);
    }
  }

  /** Paths depend on the overflow bytes only. */
  lemma TagsOnly(ng: nat, meta: seq<bv8>, meta': seq<bv8>)
    requires IsPow2(ng) && |meta| == |meta'| == 16 * ng
    requires forall g :: 0 <= g < ng ==> meta[OverflowAt(g)] == meta'[OverflowAt(g)]
    ensures forall h, n :: Bypassed(ng, meta, h, n) ==> Bypassed(ng, meta', h, n)
    ensures forall h, g :: OnPath(ng, meta, h, g) ==> OnPath(ng, meta', h, g)
  {
    hide Group, Bits.IsPow2;
  }

  /** Members never exceed the load limit. */
  lemma SizeWithinLoad<T>(k: Keys<T>, ng: nat, meta: seq<bv8>, elems: seq<Option<T>>,
                          pos: map<T, nat>, used: set<nat>, slack: nat)
    requires TableOk(k, ng, meta, elems, pos, used, slack)
    ensures |pos| + slack <= 13 * ng
  {
    hide Group, Bits.IsPow2;
    forall x | x in pos ensures pos[x] in used {
      assert SlotOk(k, ng, meta, elems, pos, pos[x]);
    }
    InjectiveImage(pos);
    SubsetSize(pos.Values, used);
  }

  /** An all-empty table satisfies the invariant for the empty set. */
  lemma BlankTable<T>(k: Keys<T>, ng: nat, meta: seq<bv8>, elems: seq<Option<T>>)
    requires Sized(ng, meta, elems)
    requires forall i :: 0 <= i < 16 * ng ==> meta[i] == EMPTY
    requires forall i :: 0 <= i < 15 * ng ==> elems[i] == None
    ensures TableOk(k, ng, meta, elems, map[], {}, 13 * ng)
  {
    hide Bits.IsPow2;
  }

  /** The least power of two that is not below `want`, by doubling. */
  method RoundUp(want: nat) returns (ng: nat)
    ensures IsPow2(ng) && ng >= want && ng >= 1
    ensures ng == 1 || ng < 2 * want
  {
    ng := 1;
    assert ng == Pow2(0);
    while ng < want
      invariant IsPow2(ng) && ng >= 1
      invariant ng == 1 || ng < 2 * want
      decreases want - ng
    {
      ghost var n: nat :| ng == Pow2(n);
      assert 2 * ng == Pow2(n + 1);
      ng := 2 * ng;
    }
  }

  /** Some element of `ms` equals `x`. */
  ghost predicate Among<T>(k: Keys<T>, ms: set<T>, x: T) {
    exists y :: y in ms && k.eq(y, x)
  }

  lemma AmongUnion<T(!new)>(k: Keys<T>, ms: set<T>, val: T)
    ensures forall y :: Among(k, ms + {val}, y) <==> Among(k, ms, y) || k.eq(val, y)
  {
    forall y | Among(k, ms, y) ensures Among(k, ms + {val}, y) {
      var x :| x in ms && k.eq(x, y);
      assert x in ms + {val};
    }
    forall y | k.eq(val, y) ensures Among(k, ms + {val}, y) {
      assert val in ms + {val};
    }
  }

  lemma EqualAlready<T(!new)>(k: Keys<T>, ms: set<T>, val: T)
    requires Lawful(k) && Among(k, ms, val)
    ensures forall y :: k.eq(val, y) ==> Among(k, ms, y)
  {
  }

  lemma NoneAmong<T>(k: Keys<T>, ms: set<T>, val: T)
    requires !Among(k, ms, val)
    ensures forall y :: y in ms ==> !k.eq(y, val)
  {
  }

  lemma NoneAmongEqual<T(!new)>(k: Keys<T>, ms: set<T>, val: T)
    requires Lawful(k) && !Among(k, ms, val)
    ensures forall y :: k.eq(val, y) ==> !Among(k, ms, y)
  {
  }

  lemma AmongMinus<T(!new)>(k: Keys<T>, ms: set<T>, x: T, val: T)
    requires Lawful(k) && x in ms && k.eq(x, val)
    requires forall y, z :: y in ms && z in ms && k.eq(y, z) ==> y == z
    ensures forall y :: Among(k, ms - {x}, y) <==> Among(k, ms, y) && !k.eq(val, y)
  {
    assert k.eq(val, x);
    forall y | Among(k, ms, y) && !k.eq(val, y) ensures Among(k, ms - {x}, y) {
      var w :| w in ms && k.eq(w, y);
      assert w in ms - {x};
    }
    forall y | Among(k, ms - {x}, y) ensures Among(k, ms, y) && !k.eq(val, y) {
      var w :| w in ms - {x} && k.eq(w, y);
      assert k.eq(val, y) ==> k.eq(x, y);
      assert k.eq(x, y) ==> k.eq(x, w);
    }
  }

  // ----- the set object -----

  class HashSet<T(!new, ==)> {
    const keys: Keys<T>
    var nGroups: nat
    var mlLeft: nat
    var size: nat
    var metadata: array<bv8>
    var elements: array<Option<T>>
    ghost var pos: map<T, nat>
    ghost var used: set<nat>

    ghost predicate Valid()
      reads this, metadata, elements
      ensures Valid() ==> Lawful(keys) && Sized(nGroups, metadata[..], elements[..]) && nGroups >= 1
    {
      && Lawful(keys)
      && nGroups >= 1
      && TableOk(keys, nGroups, metadata[..], elements[..], pos, used, mlLeft)
      && size == |pos|
    }

    /** The objects the set owns. */
    ghost function Footprint(): (f: set<object>)
      reads this
    {
      {this, metadata, elements}
    }

    /** The elements stored, one of each equivalence class. */
    ghost function Members(): (s: set<T>)
      reads this
    {
      pos.Keys
    }

    /** `x` belongs to the set: some stored element equals it. */
    ghost predicate Has(x: T)
      reads this
    {
      Among(keys, Members(), x)
    }

    constructor (keys: Keys<T>, initialGroups: nat)
      requires Lawful(keys)
      ensures Valid() && fresh(metadata) && fresh(elements)
      ensures this.keys == keys && Members() == {}
      ensures nGroups >= initialGroups
    {
      var ng := RoundUp(if initialGroups < 1 then 1 else initialGroups);
      this.keys := keys;
      metadata := new bv8[16 * ng](_ => EMPTY);
      elements := new Option<T>[15 * ng](_ => None);
      size, nGroups, mlLeft := 0, ng, ng * 13;
      pos, used := map[], {};
      new;
      BlankTable(keys, nGroups, metadata[..], elements[..]);
    }

    /** Tag match within one group: the first slot whose element equals `val`. */
    method ScanGroup(val: T, tag: bv8, gi: nat) returns (s: int)
      requires Valid() && gi < nGroups && tag == TagOf(keys.hash(val))
      ensures -1 <= s < SLOTS
      ensures s >= 0 ==> var e := elements[gi * 15 + s]; e.Some? && keys.eq(e.value, val)
      ensures forall i :: gi * 15 <= i < gi * 15 + s && elements[i].Some? ==> !keys.eq(elements[i].value, val)
      ensures s < 0 ==> Missing(keys, elements[..], val, gi)
    {
      hide Group, Bits.IsPow2, OnPath;
      s := 0;
      while s < SLOTS
        invariant 0 <= s <= SLOTS
        invariant forall i :: gi * 15 <= i < gi * 15 + s && elements[i].Some? ==> !keys.eq(elements[i].value, val)
      {
        assert SlotOk(keys, nGroups, metadata[..], elements[..], pos, gi * 15 + s);
        assert TagAt(gi * 15 + s) == gi * 16 + s;
        if metadata[gi * 16 + s] == tag && keys.eq(elements[gi * 15 + s].value, val) {
          return;
        }
        s := s + 1;
      }
      s := -1;
    }

    /** `hashset_find`: the slot of the element equal to `val`, or -1. */
    method Find(val: T, h: bv64) returns (idx: int)
      requires Valid() && h == keys.hash(val)
      ensures idx >= 0 ==> idx < elements.Length && elements[idx].Some? && keys.eq(elements[idx].value, val)
      ensures idx < 0 ==> idx == -1 && !Has(val)
    {
      hide Valid, Lawful, Missing, Group, Triangle, TagOf, OverflowBit, Home, Bits.Slot, Bits.IsPow2;
      var ng := nGroups;
      var tag, g, bit := TagOf(h), Home(h), OverflowBit(h);
      var offset, step := 0, 0;
      FirstRound();
      while true
        invariant offset == Triangle(step) && step < ng
        invariant Bypassed(ng, metadata[..], h, step)
        invariant forall j :: 0 <= j < step ==> Missing(keys, elements[..], val, Group(g, ng, j))
        decreases ng - step
      {
        var gi := Slot(g + offset, ng);
        RoundGroup(g, ng, offset, step);
        var s := ScanGroup(val, tag, gi);
        if s >= 0 {
          return gi * 15 + s;
        }
        if metadata[OverflowAt(gi)] & bit == 0 {
          NotFound(val, h, step);
          return -1;
        }
        step := step + 1;
        offset := offset + step;
        if step == ng {
          NotAllBypassed(h);
        }
      }
    }

    lemma NotAllBypassed(h: bv64)
      requires Valid()
      ensures !Bypassed(nGroups, metadata[..], h, nGroups)
    {
      hide Group, Bits.IsPow2;
      ProbeStops(nGroups, metadata[..], used, mlLeft, h);
    }

    /** No group before the stop and not the stop itself holds the element, and its path
    would have to pass the stop. */
    lemma NotFound(val: T, h: bv64, step: nat)
      requires Valid() && h == keys.hash(val) && step < nGroups
      requires forall j :: 0 <= j <= step ==> Missing(keys, elements[..], val, Group(Home(h), nGroups, j))
      requires !HasBit(metadata[OverflowAt(Group(Home(h), nGroups, step))], OverflowBit(h))
      ensures !Has(val)
    {
      hide Group, Bits.IsPow2;
      forall y | y in pos ensures !keys.eq(y, val) {
        var i := pos[y];
        assert SlotOk(keys, nGroups, metadata[..], elements[..], pos, i);
      }
    }

    /** The first slot of a group whose tag is empty, or -1. */
    method FirstEmpty(gi: nat) returns (s: int)
      requires gi < nGroups && metadata.Length == 16 * nGroups
      ensures -1 <= s < SLOTS
      ensures s >= 0 ==> metadata[TagAt(gi * 15 + s)] == EMPTY
      ensures s < 0 ==> forall i :: gi * 15 <= i < gi * 15 + 15 ==> metadata[TagAt(i)] != EMPTY
    {
      s := 0;
      while s < SLOTS
        invariant 0 <= s <= SLOTS
        invariant forall i :: gi * 15 <= i < gi * 15 + s ==> metadata[TagAt(i)] != EMPTY
      {
        assert TagAt(gi * 15 + s) == gi * 16 + s;
        if metadata[gi * 16 + s] == EMPTY {
          return;
        }
        s := s + 1;
      }
      s := -1;
    }

    /** Marks a full group as bypassed. */
    method RaiseBit(gi: nat, bit: bv8, ghost slack: nat)
      requires TableOk(keys, nGroups, metadata[..], elements[..], pos, used, slack)
      requires gi < nGroups && bit != 0
      requires forall i :: gi * 15 <= i < gi * 15 + 15 ==> metadata[TagAt(i)] != EMPTY
      modifies metadata
      ensures TableOk(keys, nGroups, metadata[..], elements[..], pos, used, slack)
      ensures HasBit(metadata[OverflowAt(gi)], bit)
      ensures forall h, n :: Bypassed(nGroups, old(metadata[..]), h, n) ==> Bypassed(nGroups, metadata[..], h, n)
    {
      hide UsedOk, SlotOk, Group, Bits.IsPow2;
      ghost var before := metadata[..];
      RaiseOverflow(keys, nGroups, before, elements[..], pos, used, slack, gi, bit);
      BitSet(before[OverflowAt(gi)], bit);
      metadata[OverflowAt(gi)] := metadata[OverflowAt(gi)] | bit;
      assert metadata[..] == before[OverflowAt(gi) := before[OverflowAt(gi)] | bit];
    }

    /** `hashset_find_insert_slot`: the first empty slot on the probe path of `h`; the
    overflow bit of `h` is raised in every full group passed on the way. */
    method FindInsertSlot(h: bv64, ghost slack: nat) returns (idx: nat)
      requires nGroups >= 1
      requires TableOk(keys, nGroups, metadata[..], elements[..], pos, used, slack)
      modifies metadata
      ensures TableOk(keys, nGroups, metadata[..], elements[..], pos, used, slack)
      ensures idx < 15 * nGroups && metadata[TagAt(idx)] == EMPTY
      ensures OnPath(nGroups, metadata[..], h, idx / 15)
    {
      hide UsedOk, SlotOk, TableOk, Group, Triangle, TagOf, OverflowBit, Home, Bits.Slot, Bits.IsPow2;
      TableSized(keys, nGroups, metadata[..], elements[..], pos, used, slack);
      var ng := nGroups;
      var g, bit := Home(h), OverflowBit(h);
      var offset, step := 0, 0;
      FirstRound();
      while true
        invariant offset == Triangle(step) && step < ng
        invariant TableOk(keys, ng, metadata[..], elements[..], pos, used, slack)
        invariant Bypassed(ng, metadata[..], h, step)
        decreases ng - step
      {
        var gi := Slot(g + offset, ng);
        RoundGroup(g, ng, offset, step);
        var s := FirstEmpty(gi);
        if s >= 0 {
          return gi * 15 + s;
        }
        RaiseBit(gi, bit, slack);
        step := step + 1;
        offset := offset + step;
        if step == ng {
          StopsInTable(keys, ng, metadata[..], elements[..], pos, used, slack, h);
        }
      }
    }

    /** Stores a new element: its tag and value go to the slot the probe finds. */
    method Place(val: T, ghost slack: nat)
      requires Lawful(keys) && nGroups >= 1 && slack >= 1
      requires TableOk(keys, nGroups, metadata[..], elements[..], pos, used, slack)
      requires forall y :: y in pos ==> !keys.eq(y, val)
      modifies metadata, elements, this`pos, this`used
      ensures TableOk(keys, nGroups, metadata[..], elements[..], pos, used, slack - 1)
      ensures pos.Keys == old(pos.Keys) + {val} && val !in old(pos.Keys)
      ensures |pos| == |old(pos)| + 1
    {
      hide UsedOk, TagOf, OverflowBit, Home, Bits.Slot, Bits.IsPow2;
      var h := keys.hash(val);
      var idx := FindInsertSlot(h, slack);
      FillSlot(keys, nGroups, metadata[..], elements[..], pos, used, slack, val, idx);
      ghost var m, e := metadata[..], elements[..];
      metadata[TagAt(idx)] := TagOf(h);
      elements[idx] := Some(val);
      assert metadata[..] == m[TagAt(idx) := TagOf(h)];
      assert elements[..] == e[idx := Some(val)];
      pos, used := pos[val := idx], used + {idx};
    }

    /** Rehash into `newNg` groups: the members stay, the load budget is restored. */
    method Resize(newNg: nat)
      requires Valid() && IsPow2(newNg) && newNg > nGroups
      modifies this
      ensures Valid() && fresh(metadata) && fresh(elements)
      ensures Members() == old(Members()) && nGroups == newNg && mlLeft == 13 * newNg - size && size == old(size)
    {
      hide TableOk, Lawful, TagOf, OverflowBit, Home, Bits.Slot, Bits.IsPow2;
      var oldNg, oldMeta, oldElems := nGroups, metadata[..], elements[..];  // the old buffers
      ghost var was, wasUsed, slack := pos, used, mlLeft;
      SizeWithinLoad(keys, nGroups, oldMeta, oldElems, pos, used, mlLeft);
      metadata := new bv8[16 * newNg](_ => EMPTY);
      elements := new Option<T>[15 * newNg](_ => None);
      nGroups, mlLeft := newNg, newNg * 13 - size;
      pos, used := map[], {};
      BlankTable(keys, newNg, metadata[..], elements[..]);
      Reinsert(oldNg, oldMeta, oldElems, was, wasUsed, slack);
    }

    /** The loop of `hashset_resize`: every occupied old slot is placed again. */
    method Reinsert(oldNg: nat, oldMeta: seq<bv8>, oldElems: seq<Option<T>>,
                    ghost was: map<T, nat>, ghost wasUsed: set<nat>, ghost slack: nat)
      requires Lawful(keys) && nGroups >= 1 && pos == map[]
      requires TableOk(keys, nGroups, metadata[..], elements[..], pos, used, 13 * nGroups)
      requires TableOk(keys, oldNg, oldMeta, oldElems, was, wasUsed, slack)
      requires |was| <= 13 * nGroups
      modifies metadata, elements, this`pos, this`used
      ensures pos.Keys == was.Keys && |pos| == |was|
      ensures TableOk(keys, nGroups, metadata[..], elements[..], pos, used, 13 * nGroups - |was|)
    {
      TableSized(keys, oldNg, oldMeta, oldElems, was, wasUsed, slack);
      hide Lawful, TableOk, Below, TagOf, TagAt, Sized, Bits.IsPow2;
      var i := 0;
      ghost var room := 13 * nGroups;
      while i < oldNg * SLOTS
        invariant 0 <= i <= oldNg * SLOTS
        invariant pos.Keys == Below(was, i)
        invariant room >= 0 && room + |pos| == 13 * nGroups
        invariant TableOk(keys, nGroups, metadata[..], elements[..], pos, used, room)
      {
        room := ReinsertSlot(oldNg, oldMeta, oldElems, i, was, wasUsed, slack, room);
        i := i + 1;
      }
      BelowAll(was, i);
    }

    method ReinsertSlot(oldNg: nat, oldMeta: seq<bv8>, oldElems: seq<Option<T>>, i: nat,
                        ghost was: map<T, nat>, ghost wasUsed: set<nat>, ghost slack: nat, ghost room: nat)
      returns (ghost room': nat)
      requires Lawful(keys) && nGroups >= 1 && |was| <= 13 * nGroups == room + |pos|
      requires TableOk(keys, nGroups, metadata[..], elements[..], pos, used, room)
      requires TableOk(keys, oldNg, oldMeta, oldElems, was, wasUsed, slack)
      requires i < 15 * oldNg && pos.Keys == Below(was, i)
      modifies metadata, elements, this`pos, this`used
      ensures pos.Keys == Below(was, i + 1) && room' + |pos| == 13 * nGroups
      ensures TableOk(keys, nGroups, metadata[..], elements[..], pos, used, room')
    {
      hide Lawful, TableOk, Below, TagOf, TagAt, Bits.IsPow2;
      OccupiedSlot(keys, oldNg, oldMeta, oldElems, was, wasUsed, slack, i);
      room' := room;
      if oldMeta[TagAt(i)] >= 2 {
        BelowFits(was, i, oldElems[i].value);
        Place(oldElems[i].value, room);
        room' := room - 1;
      }
    }

    lemma FoundIsMember(idx: nat, val: T)
      requires Valid() && idx < elements.Length && elements[idx].Some? && keys.eq(elements[idx].value, val)
      ensures elements[idx].value in pos && pos[elements[idx].value] == idx && Has(val)
    {
      assert SlotOk(keys, nGroups, metadata[..], elements[..], pos, idx);
    }

    /** Makes room for one more element when the load limit is reached. */
    method EnsureRoom()
      requires Valid()
      modifies this
      ensures Valid() && mlLeft >= 1 && Members() == old(Members()) && size == old(size)
      ensures metadata == old(metadata) || fresh(metadata)
      ensures elements == old(elements) || fresh(elements)
    {
      hide Lawful, TableOk, Bits.IsPow2;
      if mlLeft == 0 {
        Doubled(nGroups);
        SizeWithinLoad(keys, nGroups, metadata[..], elements[..], pos, used, mlLeft);
        Resize(nGroups * 2);
      }
    }

    /** The insertion itself, into a table that has room. */
    method AddNew(val: T)
      requires Valid() && mlLeft >= 1 && forall y :: y in pos ==> !keys.eq(y, val)
      modifies this, metadata, elements
      ensures Valid() && metadata == old(metadata) && elements == old(elements)
      ensures Members() == old(Members()) + {val}
    {
      hide Lawful, TableOk, TagOf, OverflowBit, Home, Bits.Slot, Bits.IsPow2;
      Place(val, mlLeft);
      size := size + 1;
      mlLeft := mlLeft - 1;
    }

    /** `cell_hashset_add`. */
    method Add(val: T) returns (added: bool)
      requires Valid()
      modifies this, metadata, elements
      ensures Valid()
      ensures metadata == old(metadata) || fresh(metadata)
      ensures elements == old(elements) || fresh(elements)
      ensures added == !old(Has(val))
      ensures Members() == if added then old(Members()) + {val} else old(Members())
      ensures forall y :: Has(y) <==> old(Has(y)) || keys.eq(val, y)
    {
      hide Lawful, TableOk, Among, TagOf, OverflowBit, Home, Bits.Slot, Bits.IsPow2;
      var idx := Find(val, keys.hash(val));
      if idx >= 0 {
        FoundIsMember(idx, val);
        EqualAlready(keys, Members(), val);
        return false;
      }
      NoneAmong(keys, Members(), val);
      EnsureRoom();
      AddNew(val);
      AmongUnion(keys, old(Members()), val);
      added := true;
    }

    /** `cell_hashset_remove`: the tag goes back to EMPTY, overflow bits and the load
    budget stay. */
    method Remove(val: T) returns (removed: bool)
      requires Valid()
      modifies this, metadata, elements
      ensures Valid() && metadata == old(metadata) && elements == old(elements)
      ensures removed == old(Has(val))
      ensures |Members()| == |old(Members())| - if removed then 1 else 0
      ensures forall y :: Has(y) <==> old(Has(y)) && !keys.eq(val, y)
    {
      hide Lawful, TableOk, Among, TagOf, OverflowBit, Home, Bits.Slot, Bits.IsPow2;
      var idx := Find(val, keys.hash(val));
      if idx < 0 {
        NoneAmongEqual(keys, Members(), val);
        return false;
      }
      FoundIsMember(idx, val);
      ghost var x := elements[idx].value;
      MembersDistinct();
      AmongMinus(keys, Members(), x, val);
      ClearSlot(keys, nGroups, metadata[..], elements[..], pos, used, mlLeft, x);
      ghost var m, e := metadata[..], elements[..];
      metadata[TagAt(idx)] := EMPTY;
      elements[idx] := None;
      assert metadata[..] == m[TagAt(idx) := EMPTY];
      assert elements[..] == e[idx := None];
      pos := pos - {x};
      size := size - 1;
      removed := true;
      assert pos.Keys == old(pos.Keys) - {x};
    }

    lemma MembersDistinct()
      requires Valid()
      ensures forall x, y :: x in Members() && y in Members() && keys.eq(x, y) ==> x == y
      ensures size == |Members()|
    {
    }

    /** `cell_hashset_has`, with its shortcut for the empty set. */
    method Contains(val: T) returns (b: bool)
      requires Valid()
      ensures b == Has(val)
    {
      if size == 0 {
        return false;
      }
      var idx := Find(val, keys.hash(val));
      b := idx >= 0;
      if b {
        FoundIsMember(idx, val);
      }
    }

    /** The members found in the first `n` slots. */
    ghost function Upto(n: nat): (s: set<T>)
      reads this
    {
      Below(pos, n)
    }

    /** The element of slot `i`, if its tag says it is occupied. */
    method Occupant(i: nat) returns (o: Option<T>)
      requires Valid() && i < 15 * nGroups
      ensures o.Some? ==> Upto(i + 1) == Upto(i) + {o.value}
      ensures o.None? ==> Upto(i + 1) == Upto(i)
    {
      hide Among, TagOf, OverflowBit, Home, Bits.Slot, Bits.IsPow2;
      OccupiedSlot(keys, nGroups, metadata[..], elements[..], pos, used, mlLeft, i);
      o := if metadata[TagAt(i)] >= 2 then elements[i] else None;
    }

    lemma EmptyHasNothing()
      requires Members() == {}
      ensures forall y :: !Has(y)
    {
    }

    lemma MemberHas(x: T)
      requires Valid() && x in Members()
      ensures Has(x)
    {
      assert keys.eq(x, x);
    }

    lemma UptoMember(n: nat)
      ensures Upto(n) <= Members()
    {
    }

    lemma HasRespectsEquality(val: T)
      requires Valid()
      ensures forall y :: keys.eq(val, y) ==> Has(y) == Has(val)
    {
      if Has(val) {
        EqualAlready(keys, Members(), val);
      } else {
        NoneAmongEqual(keys, Members(), val);
      }
    }

    lemma AllSlots()
      requires Valid()
      ensures Upto(15 * nGroups) == Members() && Upto(0) == {}
    {
      TableSized(keys, nGroups, metadata[..], elements[..], pos, used, mlLeft);
    }
  }


  /** The members whose slot is below `n`. */
  ghost function Below<T>(pos: map<T, nat>, n: nat): (r: set<T>) {
    set x | x in pos && pos[x] < n
  }

  lemma BelowFits<T>(pos: map<T, nat>, n: nat, x: T)
    requires x in pos && pos[x] >= n
    ensures |Below(pos, n)| < |pos|
  {
    assert |Below(pos, n) + {x}| == |Below(pos, n)| + 1;
    SubsetSize(Below(pos, n) + {x}, pos.Keys);
  }

  lemma BelowAll<T>(pos: map<T, nat>, n: nat)
    requires forall x :: x in pos ==> pos[x] < n
    ensures Below(pos, n) == pos.Keys && |pos.Keys| == |pos|
  {
  }

  /** A tag of at least 2 marks exactly the slots that hold a member. */
  lemma OccupiedSlot<T>(k: Keys<T>, ng: nat, meta: seq<bv8>, elems: seq<Option<T>>,
                        pos: map<T, nat>, used: set<nat>, slack: nat, i: nat)
    requires TableOk(k, ng, meta, elems, pos, used, slack) && i < 15 * ng
    ensures Sized(ng, meta, elems)
    ensures meta[TagAt(i)] >= 2 <==> elems[i].Some?
    ensures elems[i].Some? ==> Below(pos, i + 1) == Below(pos, i) + {elems[i].value}
    ensures elems[i].None? ==> Below(pos, i + 1) == Below(pos, i)
    ensures elems[i].Some? ==>
              var x := elems[i].value;
              x in pos && pos[x] == i && forall y :: y in Below(pos, i) ==> !k.eq(y, x)
  {
    hide Group, Bits.IsPow2;
    assert SlotOk(k, ng, meta, elems, pos, i);
    assert elems[i].Some? ==> Below(pos, i + 1) == Below(pos, i) + {elems[i].value};
    assert elems[i].None? ==> Below(pos, i + 1) == Below(pos, i);
  }

  lemma TableSized<T>(k: Keys<T>, ng: nat, meta: seq<bv8>, elems: seq<Option<T>>,
                      pos: map<T, nat>, used: set<nat>, slack: nat)
    requires TableOk(k, ng, meta, elems, pos, used, slack)
    ensures Sized(ng, meta, elems)
    ensures forall x :: x in pos ==> pos[x] < 15 * ng
  {
  }

  /** Group `g` holds no element equal to `val`. */
  ghost predicate Missing<T>(k: Keys<T>, elems: seq<Option<T>>, val: T, g: nat) {
    forall i :: g * 15 <= i < g * 15 + 15 && i < |elems| && elems[i].Some? ==> !k.eq(elems[i].value, val)
  }

  // ----- set operations -----

  lemma AmongNothing<T(!new)>(k: Keys<T>)
    ensures forall y :: !Among(k, {}, y)
  {
  }

  /** Adds every element of `src` to `r`, slot by slot. */
  method AddAll<T(!new, ==)>(r: HashSet<T>, src: HashSet<T>)
    requires r.Valid() && src.Valid() && r.keys == src.keys
    requires r.Footprint() !! src.Footprint()
    modifies r.Footprint()
    ensures r.Valid() && fresh(r.Footprint() - old(r.Footprint()))
    ensures forall y :: r.Has(y) <==> old(r.Has(y)) || src.Has(y)
    ensures r.Members() <= old(r.Members()) + src.Members()
  {
    hide HashSet.Valid, HashSet.Upto, Among, Bits.IsPow2;
    var i := 0;
    src.AllSlots();
    AmongNothing(src.keys);
    while i < src.nGroups * SLOTS
      invariant 0 <= i <= src.nGroups * SLOTS
      invariant r.Valid() && src.Valid()
      invariant fresh(r.Footprint() - old(r.Footprint())) && r.Footprint() !! src.Footprint()
      invariant forall y :: r.Has(y) <==> old(r.Has(y)) || Among(r.keys, src.Upto(i), y)
      invariant r.Members() <= old(r.Members()) + src.Upto(i)
    {
      var o := src.Occupant(i);
      if o.Some? {
        var added := r.Add(o.value);
        AmongUnion(r.keys, src.Upto(i), o.value);
      }
      i := i + 1;
    }
  }

  /** `cell_hashset_union`: all of `s1`, then all of `s2`, added to a fresh set. */
  method Union<T(!new, ==)>(s1: HashSet<T>, s2: HashSet<T>) returns (r: HashSet<T>)
    requires s1.Valid() && s2.Valid() && s1.keys == s2.keys
    ensures fresh(r) && fresh(r.metadata) && fresh(r.elements) && r.Valid() && r.keys == s1.keys
    ensures forall y :: r.Has(y) <==> s1.Has(y) || s2.Has(y)
    ensures r.Members() <= s1.Members() + s2.Members()
  {
    hide HashSet.Valid, HashSet.Has, HashSet.Members, Lawful, Bits.IsPow2;
    var ng := RoundUp((s1.size + s2.size + 12) / 13);
    r := new HashSet(s1.keys, ng);
    r.EmptyHasNothing();
    AddBoth(r, s1, s2);
  }

  method AddBoth<T(!new, ==)>(r: HashSet<T>, s1: HashSet<T>, s2: HashSet<T>)
    requires r.Valid() && s1.Valid() && s2.Valid() && r.keys == s1.keys == s2.keys
    requires r.Footprint() !! s1.Footprint() && r.Footprint() !! s2.Footprint()
    modifies r.Footprint()
    ensures r.Valid() && fresh(r.Footprint() - old(r.Footprint()))
    ensures forall y :: r.Has(y) <==> old(r.Has(y)) || s1.Has(y) || s2.Has(y)
    ensures r.Members() <= old(r.Members()) + s1.Members() + s2.Members()
  {
    hide HashSet.Valid, HashSet.Has, Lawful, Bits.IsPow2;
    AddAll(r, s1);
    AddAll(r, s2);
  }

  /** Adds to `r` the elements of `s1` whose membership in `s2` is `wanted`. */
  method AddWhere<T(!new, ==)>(r: HashSet<T>, s1: HashSet<T>, s2: HashSet<T>, wanted: bool)
    requires r.Valid() && s1.Valid() && s2.Valid() && r.keys == s1.keys == s2.keys
    requires r.Footprint() !! s1.Footprint() && r.Footprint() !! s2.Footprint()
    requires r.Members() == {}
    modifies r.Footprint()
    ensures r.Valid() && fresh(r.Footprint() - old(r.Footprint()))
    ensures forall y :: r.Has(y) <==> s1.Has(y) && s2.Has(y) == wanted
    ensures r.Members() <= s1.Members()
  {
    hide HashSet.Valid, HashSet.Upto, Among, Bits.IsPow2;
    var i := 0;
    s1.AllSlots();
    AmongNothing(s1.keys);
    while i < s1.nGroups * SLOTS
      invariant 0 <= i <= s1.nGroups * SLOTS
      invariant r.Valid() && s1.Valid() && s2.Valid()
      invariant fresh(r.Footprint() - old(r.Footprint()))
      invariant r.Footprint() !! s1.Footprint() && r.Footprint() !! s2.Footprint()
      invariant forall y :: r.Has(y) <==> Among(r.keys, s1.Upto(i), y) && s2.Has(y) == wanted
      invariant r.Members() <= s1.Upto(i)
    {
      var o := s1.Occupant(i);
      if o.Some? {
        var inOther := s2.Contains(o.value);
        s2.HasRespectsEquality(o.value);
        AmongUnion(r.keys, s1.Upto(i), o.value);
        if inOther == wanted {
          var added := r.Add(o.value);
        }
      }
      i := i + 1;
    }
  }

  /** `cell_hashset_intersection`. */
  method Intersection<T(!new, ==)>(s1: HashSet<T>, s2: HashSet<T>) returns (r: HashSet<T>)
    requires s1.Valid() && s2.Valid() && s1.keys == s2.keys
    ensures fresh(r) && fresh(r.metadata) && fresh(r.elements) && r.Valid() && r.keys == s1.keys
    ensures forall y :: r.Has(y) <==> s1.Has(y) && s2.Has(y)
    ensures r.Members() <= s1.Members()
  {
    hide HashSet.Valid, Lawful, Bits.IsPow2;
    r := new HashSet(s1.keys, 1);
    AddWhere(r, s1, s2, true);
  }

  /** `cell_hashset_difference`. */
  method Difference<T(!new, ==)>(s1: HashSet<T>, s2: HashSet<T>) returns (r: HashSet<T>)
    requires s1.Valid() && s2.Valid() && s1.keys == s2.keys
    ensures fresh(r) && fresh(r.metadata) && fresh(r.elements) && r.Valid() && r.keys == s1.keys
    ensures forall y :: r.Has(y) <==> s1.Has(y) && !s2.Has(y)
    ensures r.Members() <= s1.Members()
  {
    hide HashSet.Valid, Lawful, Bits.IsPow2;
    r := new HashSet(s1.keys, 1);
    AddWhere(r, s1, s2, false);
  }

  /** If every element of `a` has an equal in `b` and `a` is free of equals, `a` is not
  larger than `b`. */
  lemma {:induction false} NotLarger<T(!new)>(k: Keys<T>, a: set<T>, b: set<T>)
    requires Lawful(k)
    requires forall x :: x in a ==> Among(k, b, x)
    requires forall x, y :: x in a && y in a && k.eq(x, y) ==> x == y
    ensures |a| <= |b|
    decreases |a|
  {
    if a != {} {
      var x :| x in a;
      var y :| y in b && k.eq(y, x);
      forall z | z in a - {x} ensures Among(k, b - {y}, z) {
        var w :| w in b && k.eq(w, z);
        assert k.eq(x, y);
        assert w == y ==> k.eq(x, z);
        assert w in b - {y};
      }
      NotLarger(k, a - {x}, b - {y});
    }
  }

  /** `cell_hashset_subset`, with its shortcut on the sizes. */
  method Subset<T(!new, ==)>(s1: HashSet<T>, s2: HashSet<T>) returns (b: bool)
    requires s1.Valid() && s2.Valid() && s1.keys == s2.keys
    ensures b <==> forall y :: s1.Has(y) ==> s2.Has(y)
  {
    hide HashSet.Valid, HashSet.Upto, Among, Lawful, Bits.IsPow2;
    if s1.size > s2.size {
      LargerIsNoSubset(s1, s2);
      return false;
    }
    MemberwiseSubset(s1.keys, s1.Members(), s2.Members());
    var i := 0;
    s1.AllSlots();
    while i < s1.nGroups * SLOTS
      invariant 0 <= i <= s1.nGroups * SLOTS
      invariant forall x :: x in s1.Upto(i) ==> s2.Has(x)
    {
      var o := s1.Occupant(i);
      if o.Some? {
        var inOther := s2.Contains(o.value);
        if !inOther {
          s1.UptoMember(i + 1);
          s1.MemberHas(o.value);
          return false;
        }
      }
      i := i + 1;
    }
    b := true;
  }

  /** The shortcut: a larger set has an element that the smaller one lacks. */
  lemma LargerIsNoSubset<T(!new)>(s1: HashSet<T>, s2: HashSet<T>)
    requires s1.Valid() && s2.Valid() && s1.keys == s2.keys && s1.size > s2.size
    ensures exists y :: s1.Has(y) && !s2.Has(y)
  {
    s1.MembersDistinct();
    s2.MembersDistinct();
    hide HashSet.Valid, Among;
    MemberwiseSubset(s1.keys, s1.Members(), s2.Members());
    if forall x :: x in s1.Members() ==> s2.Has(x) {
      NotLarger(s1.keys, s1.Members(), s2.Members());
    }
  }

  /** Inclusion up to equality is decided on the stored elements. */
  lemma MemberwiseSubset<T(!new)>(k: Keys<T>, a: set<T>, b: set<T>)
    requires Lawful(k)
    ensures (forall x :: x in a ==> Among(k, b, x)) <==> (forall y :: Among(k, a, y) ==> Among(k, b, y))
  {
    if forall x :: x in a ==> Among(k, b, x) {
      forall y | Among(k, a, y) ensures Among(k, b, y) {
        var x :| x in a && k.eq(x, y);
        var z :| z in b && k.eq(z, x);
        assert k.eq(z, y);
      }
    } else {
      var x :| x in a && !Among(k, b, x);
      assert k.eq(x, x);
      assert Among(k, a, x);
    }
  }
}
