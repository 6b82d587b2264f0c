/** The fill functions of list, vector, deque and set sources
(bootstrap/cell.c:4623-4684, 4738-4764). */
module BatchSources {
  import opened Cells
  import opened Bits
  import opened Options
  import opened BatchIter
  import D = Deque
  import H = HashSet

  const SLOTS: nat := H.SLOTS

  /** Where an iterator over a container stands.  The containers do not change meanwhile. */
  datatype Source =
    | ListSource(current: Cell)
    | VectorSource(items: seq<Cell>, index: nat)
    | DequeSource(ring: seq<Option<Cell>>, cap: nat, tail: nat, vindex: nat)
    | SetSource(meta: seq<bv8>, elems: seq<Option<Cell>>, groups: nat, group: nat, slot: nat)

  /** A set's metadata and element arrays: a slot whose tag is not empty holds an element. */
  ghost predicate TableOk(meta: seq<bv8>, elems: seq<Option<Cell>>, groups: nat) {
    && |meta| == 16 * groups && |elems| == SLOTS * groups
    && (forall g, s :: 0 <= g < groups && 0 <= s < SLOTS ==> SlotOk(meta, elems, groups, g, s))
  }

  ghost predicate SlotOk(meta: seq<bv8>, elems: seq<Option<Cell>>, groups: nat, g: nat, s: nat)
    requires |meta| == 16 * groups && |elems| == SLOTS * groups && g < groups && s < SLOTS
  {
    meta[16 * g + s] >= 2 ==> elems[SLOTS * g + s].Some?
  }

  /** The elements from a slot on, in table order. */
  ghost function SetElems(meta: seq<bv8>, elems: seq<Option<Cell>>, groups: nat, g: nat, s: nat): (r: seq<Cell>)
    requires TableOk(meta, elems, groups)
    decreases groups - g, SLOTS - s
  {
    if g >= groups then []
    else if s >= SLOTS then SetElems(meta, elems, groups, g + 1, 0)
    else
      assert SlotOk(meta, elems, groups, g, s);
      (if meta[16 * g + s] >= 2 then [elems[SLOTS * g + s].value] else [])
      + SetElems(meta, elems, groups, g, s + 1)
  }

  /** What the source has still to give. */
  ghost predicate Gives(s: Source, rest: seq<Cell>) {
    match s
    case ListSource(current) => rest == ListElems(current)
    case VectorSource(items, index) => index <= |items| && rest == items[index..]
    case DequeSource(ring, cap, tail, vindex) =>
      D.Represents(ring, cap, vindex, rest) && tail < D.WORD && D.Distance(vindex, tail) == |rest|
    case SetSource(meta, elems, groups, group, slot) =>
      TableOk(meta, elems, groups) && slot <= SLOTS && rest == SetElems(meta, elems, groups, group, slot)
  }

  /** A fill took `batch` off the front of `before` and leaves the source giving the rest;
  it takes nothing only from a source that has nothing. */
  ghost predicate Took(before: seq<Cell>, batch: seq<Cell>, rest: seq<Cell>) {
    before == batch + rest && (batch == [] ==> before == [])
  }

  method FillList(b: Batch, current: Cell) returns (next: Cell, exhausted: bool)
    requires b.Valid()
    modifies b, b.elems
    ensures b.Valid() && b.cursor == 0 && Took(ListElems(current), b.Live(), ListElems(next))
    ensures exhausted <==> ListElems(next) == []
  {
    var n := 0;
    next := current;
    while n < BATCH && next.Pair?
      invariant 0 <= n <= BATCH
      invariant ListElems(current) == b.elems[..n] + ListElems(next)
      invariant n == 0 ==> next == current
      modifies b.elems
    {
      b.elems[n] := next.car;
      next := next.cdr;
      n := n + 1;
    }
    exhausted := !next.Pair?;
    b.Filled(n);
  }

  method FillVector(b: Batch, items: seq<Cell>, index: nat) returns (next: nat, exhausted: bool)
    requires b.Valid() && b.Live() == [] && b.cursor == 0 && index <= |items|
    modifies b, b.elems
    ensures b.Valid() && next <= |items|
    ensures Took(items[index..], b.Live(), items[next..])
    ensures b.cursor == 0
    ensures exhausted <==> b.Live() == []
    ensures exhausted ==> items[next..] == []
  {
    var n := if |items| - index > BATCH then BATCH else |items| - index;
    if n == 0 {
      return index, true;
    }
    forall i | 0 <= i < n { b.elems[i] := items[index + i]; }
    next, exhausted := index + n, false;
    b.Filled(n);
    assert b.elems[..n] == items[index..next];
  }

  method FillDeque(b: Batch, ring: seq<Option<Cell>>, cap: nat, tail: nat, vindex: nat, ghost rest: seq<Cell>)
    returns (next: nat, exhausted: bool)
    requires b.Valid() && b.Live() == [] && b.cursor == 0 && Gives(DequeSource(ring, cap, tail, vindex), rest)
    modifies b, b.elems
    ensures b.Valid() && |b.Live()| <= |rest|
    ensures Took(rest, b.Live(), rest[|b.Live()|..])
    ensures Gives(DequeSource(ring, cap, tail, next), rest[|b.Live()|..])
    ensures b.cursor == 0
    ensures exhausted <==> b.Live() == []
    ensures exhausted ==> rest == []
  {
    hide Slot, Pow2, IsPow2, D.Ring, D.Distance;
    var avail := D.Distance(vindex, tail);
    var n := if avail > BATCH then BATCH else avail;
    if n == 0 {
      return vindex, true;
    }
    var phys := Slot(vindex, cap);
    var firstRun := cap - phys;
    TwoRuns(ring, cap, vindex, rest);
    if firstRun >= n {
      forall i | 0 <= i < n { b.elems[i] := ring[phys + i].value; }
    } else {
      forall i | 0 <= i < firstRun { b.elems[i] := ring[phys + i].value; }
      forall i | 0 <= i < n - firstRun { b.elems[firstRun + i] := ring[i].value; }
    }
    assert b.elems[..n] == rest[..n];
    next, exhausted := (vindex + n) % D.WORD, false;
    Advanced(ring, cap, tail, vindex, rest, n);
    b.Filled(n);
  }

  /** The elements lie in one run from the first slot to the end of the buffer and another
  from its start. */
  lemma TwoRuns(ring: seq<Option<Cell>>, cap: nat, vindex: nat, rest: seq<Cell>)
    requires D.Represents(ring, cap, vindex, rest)
    ensures var phys := Slot(vindex, cap);
            && (forall j :: phys <= j < cap && j - phys < |rest| ==> ring[j] == Some(rest[j - phys]))
            && (forall j :: 0 <= j < |rest| - (cap - phys) ==> ring[j] == Some(rest[j + (cap - phys)]))
  {
    hide Slot, Pow2, IsPow2, D.Ring;
    var phys := Slot(vindex, cap);
    forall j | phys <= j < cap && j - phys < |rest| ensures ring[j] == Some(rest[j - phys]) {
      D.RingIndex(vindex, j - phys, cap);
    }
    forall j | 0 <= j < |rest| - (cap - phys) ensures ring[j] == Some(rest[j + (cap - phys)]) {
      D.RingIndex(vindex, j + (cap - phys), cap);
    }
  }

  lemma Advanced(ring: seq<Option<Cell>>, cap: nat, tail: nat, vindex: nat, rest: seq<Cell>, n: nat)
    requires Gives(DequeSource(ring, cap, tail, vindex), rest) && n <= |rest|
    ensures Gives(DequeSource(ring, cap, tail, (vindex + n) % D.WORD), rest[n..])
  {
    hide Slot, Pow2, IsPow2, D.Ring;
    var next := (vindex + n) % D.WORD;
    forall i | 0 <= i < |rest| - n ensures D.Ring(next, i, cap) == D.Ring(vindex, n + i, cap) {
      RingMoves(vindex, n, i, cap);
    }
  }

  lemma RingMoves(head: nat, n: nat, i: nat, cap: nat)
    requires D.Capacity(cap)
    ensures D.Ring((head + n) % D.WORD, i, cap) == D.Ring(head, n + i, cap)
  {
    hide Slot;
    assert ((head + n) % D.WORD + i) % D.WORD == (head + n + i) % D.WORD;
  }

  lemma SetStep(meta: seq<bv8>, elems: seq<Option<Cell>>, groups: nat, g: nat, s: nat)
    requires TableOk(meta, elems, groups) && g < groups && s <= SLOTS
    ensures |meta| == 16 * groups && |elems| == SLOTS * groups
    ensures s < SLOTS ==>
              && 16 * g + s < |meta| && SLOTS * g + s < |elems|
              && (meta[16 * g + s] >= 2 ==> elems[SLOTS * g + s].Some?)
              && SetElems(meta, elems, groups, g, s) ==
                 (if meta[16 * g + s] >= 2 then [elems[SLOTS * g + s].value] else [])
                 + SetElems(meta, elems, groups, g, s + 1)
    ensures s == SLOTS ==> SetElems(meta, elems, groups, g, s) == SetElems(meta, elems, groups, g + 1, 0)
  {
    if s < SLOTS {
      assert SlotOk(meta, elems, groups, g, s);
    }
  }

  /** The inner loop of `fill_hashset`: the occupied slots of one group, from slot `slot`. */
  method FillGroup(b: Batch, meta: seq<bv8>, elems: seq<Option<Cell>>, groups: nat, g: nat, slot: nat, have: nat)
    returns (s: nat, n: nat)
    requires b.elems.Length == BATCH && TableOk(meta, elems, groups) && g < groups && slot <= SLOTS && have <= BATCH
    modifies b.elems
    ensures slot <= s <= SLOTS && have <= n <= BATCH && (s == SLOTS || n == BATCH)
    ensures b.elems[..n] + SetElems(meta, elems, groups, g, s) ==
            old(b.elems[..have]) + SetElems(meta, elems, groups, g, slot)
  {
    hide TableOk, SetElems;
    s, n := slot, have;
    SetStep(meta, elems, groups, g, s);
    while s < SLOTS && n < BATCH
      invariant slot <= s <= SLOTS && have <= n <= BATCH
      invariant b.elems[..n] + SetElems(meta, elems, groups, g, s) ==
                old(b.elems[..have]) + SetElems(meta, elems, groups, g, slot)
    {
      SetStep(meta, elems, groups, g, s);
      ghost var before := b.elems[..n];
      if meta[16 * g + s] >= 2 {
        b.elems[n] := elems[SLOTS * g + s].value;
        n := n + 1;
        assert b.elems[..n] == before + [elems[SLOTS * g + s].value];
      }
      s := s + 1;
    }
  }

  method FillSet(b: Batch, meta: seq<bv8>, elems: seq<Option<Cell>>, groups: nat, group: nat, slot: nat)
    returns (g: nat, s: nat, exhausted: bool)
    requires b.Valid() && TableOk(meta, elems, groups) && slot <= SLOTS
    modifies b, b.elems
    ensures b.Valid() && b.cursor == 0 && s <= SLOTS
    ensures Took(SetElems(meta, elems, groups, group, slot), b.Live(), SetElems(meta, elems, groups, g, s))
    ensures exhausted <==> g >= groups
    ensures exhausted ==> SetElems(meta, elems, groups, g, s) == []
    ensures b.Live() == [] ==> exhausted
  {
    hide TableOk, SetElems;
    g, s := group, slot;
    var n := 0;
    ghost var all := SetElems(meta, elems, groups, group, slot);
    while n < BATCH && g < groups
      invariant 0 <= n <= BATCH && s <= SLOTS
      invariant all == b.elems[..n] + SetElems(meta, elems, groups, g, s)
      decreases groups - g, BATCH - n
      modifies b.elems
    {
      s, n := FillGroup(b, meta, elems, groups, g, s, n);
      if s >= SLOTS {
        SetStep(meta, elems, groups, g, s);
        g, s := g + 1, 0;
      }
    }
    exhausted := g >= groups;
    PastTheEnd(meta, elems, groups, g, s);
    b.Filled(n);
  }

  lemma PastTheEnd(meta: seq<bv8>, elems: seq<Option<Cell>>, groups: nat, g: nat, s: nat)
    requires TableOk(meta, elems, groups)
    ensures g >= groups ==> SetElems(meta, elems, groups, g, s) == []
  {
  }

  // ----- the slots of a set object -----

  /** The members from slot `i` on. */
  ghost function From(pos: map<Cell, nat>, i: nat): (r: set<Cell>) {
    set x | x in pos && pos[x] >= i
  }

  /** A slot of a valid table holds the one member placed there, or none. */
  lemma SlotMember(k: H.Keys<Cell>, ng: nat, meta: seq<bv8>, elems: seq<Option<Cell>>,
                   pos: map<Cell, nat>, used: set<nat>, slack: nat, g: nat, s: nat)
    requires H.TableOk(k, ng, meta, elems, pos, used, slack) && g < ng && s < SLOTS
    ensures |meta| == 16 * ng && |elems| == SLOTS * ng
    ensures SlotOk(meta, elems, ng, g, s)
    ensures var i := SLOTS * g + s;
            if meta[16 * g + s] >= 2 then
              var x := elems[i].value; x !in From(pos, i + 1) && From(pos, i) == From(pos, i + 1) + {x}
            else From(pos, i) == From(pos, i + 1)
  {
    hide H.OnPath, H.UsedOk, IsPow2;
    var i := SLOTS * g + s;
    assert H.SlotOk(k, ng, meta, elems, pos, i);
    assert H.TagAt(i) == 16 * g + s;
    var x := elems[i];
    if x.Some? {
      assert From(pos, i) == From(pos, i + 1) + {x.value};
    } else {
      assert From(pos, i) == From(pos, i + 1);
    }
  }

  lemma SetTableOk(k: H.Keys<Cell>, ng: nat, meta: seq<bv8>, elems: seq<Option<Cell>>,
                   pos: map<Cell, nat>, used: set<nat>, slack: nat)
    requires H.TableOk(k, ng, meta, elems, pos, used, slack)
    ensures TableOk(meta, elems, ng)
  {
    H.TableSized(k, ng, meta, elems, pos, used, slack);
    hide H.TableOk, SlotOk, IsPow2;
    forall g, s | 0 <= g < ng && 0 <= s < SLOTS ensures SlotOk(meta, elems, ng, g, s) {
      SlotMember(k, ng, meta, elems, pos, used, slack, g, s);
    }
  }

  lemma {:induction false} ElemsFrom(k: H.Keys<Cell>, ng: nat, meta: seq<bv8>, elems: seq<Option<Cell>>,
                                     pos: map<Cell, nat>, used: set<nat>, slack: nat, g: nat, s: nat)
    requires H.TableOk(k, ng, meta, elems, pos, used, slack) && TableOk(meta, elems, ng) && s <= SLOTS
    ensures multiset(SetElems(meta, elems, ng, g, s)) == multiset(From(pos, SLOTS * g + s))
    decreases ng - g, SLOTS - s
  {
    hide H.TableOk, TableOk, SlotOk, SetElems, From, IsPow2;
    if g >= ng {
      PastTheEnd(meta, elems, ng, g, s);
      NoneFrom(k, ng, meta, elems, pos, used, slack, SLOTS * g + s);
    } else {
      SetStep(meta, elems, ng, g, s);
      if s == SLOTS {
        ElemsFrom(k, ng, meta, elems, pos, used, slack, g + 1, 0);
      } else {
        ElemsFrom(k, ng, meta, elems, pos, used, slack, g, s + 1);
        SlotMember(k, ng, meta, elems, pos, used, slack, g, s);
        if meta[16 * g + s] >= 2 {
          OneMember(elems[SLOTS * g + s].value, SetElems(meta, elems, ng, g, s + 1), From(pos, SLOTS * g + s + 1));
        }
      }
    }
  }

  lemma OneMember(x: Cell, xs: seq<Cell>, ms: set<Cell>)
    requires multiset(xs) == multiset(ms) && x !in ms
    ensures multiset([x] + xs) == multiset(ms + {x})
  {
  }

  lemma NoneFrom(k: H.Keys<Cell>, ng: nat, meta: seq<bv8>, elems: seq<Option<Cell>>,
                 pos: map<Cell, nat>, used: set<nat>, slack: nat, i: nat)
    requires H.TableOk(k, ng, meta, elems, pos, used, slack) && i >= SLOTS * ng
    ensures From(pos, i) == {}
  {
    H.TableSized(k, ng, meta, elems, pos, used, slack);
  }

  /** Filling batches from a set gives its members, each once. */
  lemma MembersListed(s: H.HashSet<Cell>)
    requires s.Valid()
    ensures TableOk(s.metadata[..], s.elements[..], s.nGroups)
    ensures multiset(SetElems(s.metadata[..], s.elements[..], s.nGroups, 0, 0)) == multiset(s.Members())
  {
    SetTableOk(s.keys, s.nGroups, s.metadata[..], s.elements[..], s.pos, s.used, s.mlLeft);
    hide H.TableOk, TableOk, IsPow2;
    ElemsFrom(s.keys, s.nGroups, s.metadata[..], s.elements[..], s.pos, s.used, s.mlLeft, 0, 0);
    assert From(s.pos, 0) == s.pos.Keys;
  }
}
