/** Batch iterators: sources fill batches of 256, transformers rewrite the batch in place
or narrow its selection vector (bootstrap/cell.c:4623-4684, 4738-4764, 4959-5046,
5198-5274).

This part is the batch and the list functions that give its operations their meaning. */
module BatchIter {
  import opened Cells

  const BATCH: nat := 256

  // ----- the element-at-a-time meaning -----

  function ListElems(c: Cell): (r: seq<Cell>) {
    if c.Pair? then [c.car] + ListElems(c.cdr) else []
  }

  function ToList(s: seq<Cell>): (r: Cell) {
    if s == [] then Nil else Pair(s[0], ToList(s[1..]))
  }

  function MapSeq(f: Cell -> Cell, s: seq<Cell>): (r: seq<Cell>)
    ensures |r| == |s| && forall i :: 0 <= i < |s| ==> r[i] == f(s[i])
  {
    if s == [] then [] else [f(s[0])] + MapSeq(f, s[1..])
  }

  /** Anything but nil and false. */
  predicate Truthy(c: Cell) {
    c != Nil && c != Bool(false)
  }

  function FilterSeq(f: Cell -> Cell, s: seq<Cell>): (r: seq<Cell>) {
    if s == [] then []
    else if Truthy(f(s[0])) then [s[0]] + FilterSeq(f, s[1..])
    else FilterSeq(f, s[1..])
  }

  function TakeSeq(n: nat, s: seq<Cell>): (r: seq<Cell>) {
    if |s| <= n then s else s[..n]
  }

  /** Collecting stops at the first nil element, which reads as the end. */
  function UpToNil(s: seq<Cell>): (r: seq<Cell>) {
    if s == [] || s[0] == Nil then [] else [s[0]] + UpToNil(s[1..])
  }

  lemma {:induction false} MapSplits(f: Cell -> Cell, s: seq<Cell>, t: seq<Cell>)
    ensures MapSeq(f, s + t) == MapSeq(f, s) + MapSeq(f, t)
  {
  }

  lemma {:induction false} FilterSplits(f: Cell -> Cell, s: seq<Cell>, t: seq<Cell>)
    ensures FilterSeq(f, s + t) == FilterSeq(f, s) + FilterSeq(f, t)
  {
    if s == [] {
      assert s + t == t;
    } else {
      assert (s + t)[1..] == s[1..] + t;
      FilterSplits(f, s[1..], t);
    }
  }

  lemma FilterLast(f: Cell -> Cell, s: seq<Cell>, i: nat)
    requires i < |s|
    ensures FilterSeq(f, s[..i + 1]) ==
            FilterSeq(f, s[..i]) + if Truthy(f(s[i])) then [s[i]] else []
  {
    assert s[..i + 1] == s[..i] + [s[i]];
    FilterSplits(f, s[..i], [s[i]]);
    assert FilterSeq(f, [s[i]]) == if Truthy(f(s[i])) then [s[i]] else [];
  }

  /** `r` is what remains of `s` when some elements are struck out. */
  predicate Within(r: seq<Cell>, s: seq<Cell>) {
    if r == [] then true
    else if s == [] then false
    else (r[0] == s[0] && Within(r[1..], s[1..])) || Within(r, s[1..])
  }

  /** An element is in `r` as often as in `s` where the predicate answers something other than
  nil and false, and else never. */
  ghost predicate Counts(f: Cell -> Cell, s: seq<Cell>, r: seq<Cell>) {
    forall x :: multiset(r)[x] == if f(x) != Nil && f(x) != Bool(false) then multiset(s)[x] else 0
  }

  /** `r` lists, in their order, exactly the elements of `s` that the predicate lets pass. */
  ghost predicate Selected(f: Cell -> Cell, s: seq<Cell>, r: seq<Cell>) {
    Within(r, s) && Counts(f, s, r)
  }

  lemma Headed(s: seq<Cell>)
    requires s != []
    ensures multiset(s) == multiset{s[0]} + multiset(s[1..])
  {
    assert s == [s[0]] + s[1..];
  }

  lemma {:induction false} WithinCounts(r: seq<Cell>, s: seq<Cell>)
    requires Within(r, s)
    ensures multiset(r) <= multiset(s)
    decreases |s|
  {
    if r != [] {
      Headed(r);
      Headed(s);
      if Within(r, s[1..]) {
        WithinCounts(r, s[1..]);
      } else {
        WithinCounts(r[1..], s[1..]);
      }
    }
  }

  lemma {:induction false} FilterSelected(f: Cell -> Cell, s: seq<Cell>)
    ensures Selected(f, s, FilterSeq(f, s))
  {
    if s != [] {
      FilterSelected(f, s[1..]);
      Headed(s);
      var rest := FilterSeq(f, s[1..]);
      assert multiset([s[0]] + rest) == multiset{s[0]} + multiset(rest);
      assert ([s[0]] + rest)[1..] == rest;
    }
  }

  lemma CountsRest(f: Cell -> Cell, s: seq<Cell>, r: seq<Cell>)
    requires s != [] && Selected(f, s, r)
    ensures if f(s[0]) != Nil && f(s[0]) != Bool(false) then
              r != [] && r[0] == s[0] && Selected(f, s[1..], r[1..])
            else Selected(f, s[1..], r)
  {
    Headed(s);
    if f(s[0]) != Nil && f(s[0]) != Bool(false) {
      assert multiset(r)[s[0]] == multiset(s)[s[0]] > 0;
      if Within(r, s[1..]) {
        WithinCounts(r, s[1..]);
        assert false;
      }
      Headed(r);
    } else {
      assert multiset(r)[s[0]] == 0;
      assert r != [] ==> r[0] in multiset(r);
    }
  }

  /** What the filter keeps, without its own recursion: that selection and no other. */
  lemma {:induction false} FilterSelects(f: Cell -> Cell, s: seq<Cell>, r: seq<Cell>)
    ensures Selected(f, s, r) <==> r == FilterSeq(f, s)
    decreases |s|
  {
    FilterSelected(f, s);
    if Selected(f, s, r) && s != [] {
      CountsRest(f, s, r);
      var rest := if f(s[0]) != Nil && f(s[0]) != Bool(false) then r[1..] else r;
      FilterSelects(f, s[1..], rest);
    }
  }

  /** The elements before the first nil. */
  lemma {:induction false} UpToNilIsPrefix(s: seq<Cell>)
    ensures UpToNil(s) <= s && Nil !in UpToNil(s)
    ensures |UpToNil(s)| < |s| ==> s[|UpToNil(s)|] == Nil
  {
    if s != [] && s[0] != Nil {
      UpToNilIsPrefix(s[1..]);
    }
  }

  lemma {:induction false} UpToNilSplits(s: seq<Cell>, t: seq<Cell>)
    requires Nil !in s
    ensures UpToNil(s + t) == s + UpToNil(t)
  {
    if s == [] {
      assert s + t == t;
    } else {
      assert (s + t)[1..] == s[1..] + t;
      UpToNilSplits(s[1..], t);
    }
  }

  /** Nothing is cut off a sequence without nil. */
  lemma NilFree(s: seq<Cell>)
    requires Nil !in s
    ensures UpToNil(s) == s
  {
    assert s + [] == s;
    UpToNilSplits(s, []);
  }

  // ----- a batch -----

  /** The elements a batch offers, in order. */
  function Chosen(elems: seq<Cell>, sel: seq<nat>): (r: seq<Cell>)
    requires forall i :: 0 <= i < |sel| ==> sel[i] < |elems|
    ensures |r| == |sel| && forall i :: 0 <= i < |sel| ==> r[i] == elems[sel[i]]
  {
    seq(|sel|, i requires 0 <= i < |sel| => elems[sel[i]])
  }

  ghost predicate Increasing(sel: seq<nat>, bound: nat) {
    && (forall i :: 0 <= i < |sel| ==> sel[i] < bound)
    && (forall i, j :: 0 <= i < j < |sel| ==> sel[i] < sel[j])
  }

  /** What a batch offers: the selected elements, or without a selection vector all. */
  ghost function Offered(elems: seq<Cell>, count: nat, useSel: bool, sel: seq<nat>): (r: seq<Cell>)
    requires count <= |elems| && (useSel ==> Increasing(sel, count))
    ensures |r| == if useSel then |sel| else count
  {
    if useSel then Chosen(elems, sel) else elems[..count]
  }

  /** Overwriting the element behind one selected position changes that position only. */
  lemma OneRewritten(elems: seq<Cell>, count: nat, useSel: bool, sel: seq<nat>, i: nat, v: Cell)
    requires count <= |elems| && (useSel ==> Increasing(sel, count))
    requires i < |Offered(elems, count, useSel, sel)|
    ensures var idx := if useSel then sel[i] else i;
            && idx < |elems| && elems[idx] == Offered(elems, count, useSel, sel)[i]
            && Offered(elems[idx := v], count, useSel, sel) == Offered(elems, count, useSel, sel)[i := v]
  {
  }

  lemma MapStep(f: Cell -> Cell, s: seq<Cell>, i: nat)
    requires i < |s|
    ensures (MapSeq(f, s[..i]) + s[i..])[i := f(s[i])] == MapSeq(f, s[..i + 1]) + s[i + 1..]
  {
    assert s[..i + 1] == s[..i] + [s[i]];
    MapSplits(f, s[..i], [s[i]]);
  }

  /** The positions `picked` select what passes among the first `i` elements offered, all
  below the position `bound`. */
  ghost predicate Kept(f: Cell -> Cell, elems: seq<Cell>, picked: seq<nat>, before: seq<Cell>, i: nat, bound: nat) {
    && i <= |before| && bound <= |elems| && Increasing(picked, bound)
    && Chosen(elems, picked) == FilterSeq(f, before[..i])
  }

  lemma NothingKept(f: Cell -> Cell, elems: seq<Cell>, before: seq<Cell>)
    ensures forall bound :: 0 <= bound <= |elems| ==> Kept(f, elems, [], before, 0, bound)
  {
    assert before[..0] == [];
  }

  lemma KeptMeans(f: Cell -> Cell, elems: seq<Cell>, picked: seq<nat>, before: seq<Cell>, i: nat, bound: nat)
    requires Kept(f, elems, picked, before, i, bound)
    ensures Increasing(picked, bound) && Chosen(elems, picked) == FilterSeq(f, before[..i])
  {
  }

  lemma KeepOne(f: Cell -> Cell, elems: seq<Cell>, picked: seq<nat>, before: seq<Cell>, i: nat, idx: nat, next: nat)
    requires Kept(f, elems, picked, before, i, idx) && i < |before| && idx < next <= |elems|
    requires elems[idx] == before[i]
    ensures Kept(f, elems, if Truthy(f(before[i])) then picked + [idx] else picked, before, i + 1, next)
  {
    hide FilterSeq;
    FilterLast(f, before, i);
    if Truthy(f(before[i])) {
      assert Chosen(elems, picked + [idx]) == Chosen(elems, picked) + [elems[idx]];
    }
  }

  /** The positions behind what a batch offers, in increasing order, and the count. */
  lemma Sources(elems: seq<Cell>, count: nat, useSel: bool, sel: seq<nat>) returns (from: seq<nat>)
    requires count <= |elems| && (useSel ==> Increasing(sel, count))
    ensures var offered := Offered(elems, count, useSel, sel);
            && |from| == |offered| + 1 && from[|offered|] == count
            && (forall i :: 0 <= i < |offered| ==> from[i] < count && elems[from[i]] == offered[i])
            && (forall i :: 0 <= i < |offered| ==> from[i] < from[i + 1])
            && (forall i :: 0 <= i < |offered| ==> from[i] == if useSel then sel[i] else i)
  {
    from := (if useSel then sel else seq(count, i requires 0 <= i < count => i)) + [count];
  }

  class Batch {
    const elems: array<Cell>
    const sel: array<nat>
    var count: nat
    var selCount: nat
    var useSel: bool
    var cursor: nat

    ghost predicate Valid()
      reads this, elems, sel
    {
      && elems.Length == BATCH == sel.Length
      && count <= BATCH && selCount <= BATCH
      && (useSel ==> Increasing(sel[..selCount], count))
    }

    function Limit(): (n: nat)
      reads this
    {
      if useSel then selCount else count
    }

    ghost function Live(): (r: seq<Cell>)
      requires Valid()
      reads this, elems, sel
      ensures |r| == Limit()
    {
      Offered(elems[..], count, useSel, sel[..selCount])
    }

    /** A calloc'ed batch. */
    constructor ()
      ensures Valid() && Live() == [] && cursor == 0 && fresh(elems) && fresh(sel)
    {
      elems := new Cell[BATCH](_ => Nil);
      sel := new nat[BATCH](_ => 0);
      count, selCount, useSel, cursor := 0, 0, false, 0;
    }

    /** The element at position `i` of what the batch offers. */
    method At(i: nat) returns (c: Cell)
      requires Valid() && i < Limit()
      ensures c == Live()[i]
    {
      var idx := if useSel then sel[i] else i;
      c := elems[idx];
    }

    method Advance()
      requires Valid() && cursor < Limit()
      modifies `cursor
      ensures Valid() && Live() == old(Live()) && cursor == old(cursor) + 1
    {
      cursor := cursor + 1;
    }

    /** The batch after `n` elements were written at its start. */
    method Filled(n: nat)
      requires elems.Length == BATCH == sel.Length && selCount <= BATCH && n <= BATCH
      modifies this
      ensures Valid() && Live() == elems[..n] && cursor == 0
    {
      count, useSel, cursor := n, false, 0;
    }

    /** Releases the batch. */
    method Reset()
      requires Valid()
      modifies this
      ensures Valid() && Live() == [] && cursor == 0
    {
      count, selCount, useSel, cursor := 0, 0, false, 0;
    }

    /** Releases the elements of a batch from which nothing was selected. */
    method Discard()
      requires Valid() && Live() == [] && useSel
      modifies this
      ensures Valid() && Live() == [] && useSel && cursor == old(cursor)
    {
      count := 0;
    }

    /** The loop of `fill_map`. */
    method Apply(f: Cell -> Cell)
      requires Valid()
      modifies elems
      ensures Valid() && Live() == MapSeq(f, old(Live()))
    {
      hide Increasing, Offered;
      ghost var before := Live();
      var n := Limit();
      var i := 0;
      assert before == MapSeq(f, before[..0]) + before[0..];
      while i < n
        invariant 0 <= i <= n
        invariant Live() == MapSeq(f, before[..i]) + before[i..]
      {
        ghost var es := elems[..];
        OneRewritten(es, count, useSel, sel[..selCount], i, f(before[i]));
        MapStep(f, before, i);
        var idx := if useSel then sel[i] else i;
        elems[idx] := f(elems[idx]);
        assert elems[..] == es[idx := f(before[i])];
        i := i + 1;
      }
      assert before[..n] == before && before[n..] == [];
    }

    /** The loop of `fill_filter`: compacts the selection vector in place. */
    method Compact(f: Cell -> Cell) returns (kept: nat)
      requires Valid()
      modifies sel
      ensures kept <= BATCH && Kept(f, elems[..], sel[..kept], old(Live()), old(Limit()), count)
    {
      hide FilterSeq, Chosen, Increasing, Kept, Truthy;
      ghost var before, es := Live(), elems[..];
      ghost var from := Sources(es, count, useSel, sel[..selCount]);
      var n := Limit();
      kept := 0;
      var i := 0;
      NothingKept(f, es, before);
      assert sel[..0] == [];
      while i < n
        invariant 0 <= kept <= i <= n <= BATCH
        invariant useSel ==> forall k :: i <= k < n ==> sel[k] == from[k]
        invariant Kept(f, es, sel[..kept], before, i, from[i])
      {
        var idx := if useSel then sel[i] else i;
        ghost var picked := sel[..kept];
        KeepOne(f, es, picked, before, i, idx, from[i + 1]);
        var keep := Truthy(f(elems[idx]));
        if keep {
          sel[kept] := idx;
          kept := kept + 1;
          assert sel[..kept] == picked + [idx];
        }
        i := i + 1;
      }
    }

    /** The batch narrowed to the elements that pass. */
    method Narrow(f: Cell -> Cell)
      requires Valid()
      modifies this, sel
      ensures Valid() && Live() == FilterSeq(f, old(Live())) && useSel && cursor == 0
      ensures Selected(f, old(Live()), Live())
    {
      hide FilterSeq, Chosen, Increasing, Kept, Selected;
      ghost var before, n := Live(), Limit();
      FilterSelects(f, before, FilterSeq(f, before));
      var kept := Compact(f);
      KeptMeans(f, elems[..], sel[..kept], before, n, count);
      assert before[..n] == before;
      useSel, selCount, cursor := true, kept, 0;
    }

    /** The cut of `fill_take`, when the batch offers more than `n`. */
    method Cut(n: nat)
      requires Valid() && n < Limit()
      modifies this, sel
      ensures Valid() && Live() == old(Live())[..n] && cursor == old(cursor)
    {
      if !useSel {
        useSel := true;
        forall k | 0 <= k < n { sel[k] := k; }
      } else {
        assert sel[..n] == sel[..selCount][..n];
      }
      selCount := n;
    }
  }
}
