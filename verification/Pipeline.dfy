/** Iterators over iterators: map, filter, take and chain nested in any way, pulled batch
by batch and collected into a list (bootstrap/cell.c:4959-5046, 5092-5274, 5279-5383). */
module Pipeline {
  import opened Cells
  import opened BatchIter
  import opened BatchSources
  import opened Options
  import D = Deque

  datatype Node =
    | Leaf(source: Source)
    | MapOf(upstream: Iterator, f: Cell -> Cell)
    | FilterOf(upstream: Iterator, f: Cell -> Cell)
    | TakeOf(upstream: Iterator, remaining: nat)
    | ChainOf(first: Iterator, second: Iterator, onSecond: bool)

  class Iterator {
    var node: Node
    var exhausted: bool
    ghost var rest: seq<Cell>       // what is still to come, element by element
    ghost const parts: set<Iterator>  // this iterator and everything upstream of it

    ghost predicate Above(u: Iterator) {
      this in parts && u in parts && u.parts <= parts && this !in u.parts
    }

    ghost predicate Valid()
      reads this, parts
      decreases parts
    {
      && this in parts && (exhausted ==> rest == [])
      && match node
         case Leaf(s) => Gives(s, rest)
         case MapOf(u, f) => Above(u) && u.Valid() && rest == MapSeq(f, u.rest)
         case FilterOf(u, f) => Above(u) && u.Valid() && rest == FilterSeq(f, u.rest)
         case TakeOf(u, n) => Above(u) && u.Valid() && rest == TakeSeq(n, u.rest)
         case ChainOf(a, b, onSecond) =>
           && Above(a) && Above(b) && a.parts !! b.parts && a.Valid() && b.Valid()
           && rest == if onSecond then b.rest else a.rest + b.rest
    }

    /** `cell_iterator_new` on a container. */
    constructor Over(s: Source, ghost all: seq<Cell>)
      requires Gives(s, all)
      ensures Valid() && rest == all && fresh(parts)
    {
      node, exhausted, rest, parts := Leaf(s), false, all, {this};
    }

    /** `cell_iterator_map`. */
    constructor Map(u: Iterator, f: Cell -> Cell)
      requires u.Valid()
      ensures Valid() && rest == MapSeq(f, u.rest) && fresh(parts - u.parts)
    {
      node, exhausted, rest, parts := MapOf(u, f), false, MapSeq(f, u.rest), {this} + u.parts;
    }

    /** `cell_iterator_filter`. */
    constructor Filter(u: Iterator, f: Cell -> Cell)
      requires u.Valid()
      ensures Valid() && rest == FilterSeq(f, u.rest) && fresh(parts - u.parts)
    {
      node, exhausted, rest, parts := FilterOf(u, f), false, FilterSeq(f, u.rest), {this} + u.parts;
    }

    /** `cell_iterator_take`. */
    constructor Take(u: Iterator, n: nat)
      requires u.Valid()
      ensures Valid() && rest == TakeSeq(n, u.rest) && fresh(parts - u.parts)
    {
      node, exhausted, rest, parts := TakeOf(u, n), false, TakeSeq(n, u.rest), {this} + u.parts;
    }

    /** `cell_iterator_chain`. */
    constructor Chain(a: Iterator, b: Iterator)
      requires a.Valid() && b.Valid() && a.parts !! b.parts
      ensures Valid() && rest == a.rest + b.rest && fresh(parts - a.parts - b.parts)
    {
      node, exhausted := ChainOf(a, b, false), false;
      rest, parts := a.rest + b.rest, {this} + a.parts + b.parts;
    }

    /** The fill function of whatever kind of iterator this is: moves the next elements into
    an empty batch, none only if none are left. */
    method Fill(b: Batch) returns (n: nat)
      requires Valid() && b.Valid() && b.Live() == [] && b.cursor == 0
      modifies parts, b, b.elems, b.sel
      ensures Valid() && b.Valid() && n == |b.Live()| && Took(old(rest), b.Live(), rest)
      ensures b.cursor == 0
      ensures n == 0 ==> exhausted
      decreases parts, 2
    {
      match node
      case Leaf(s) => n := FillLeaf(b);
      case MapOf(u, f) => n := FillMap(b);
      case FilterOf(u, f) => n := FillFilter(b);
      case TakeOf(u, k) => n := FillTake(b);
      case ChainOf(x, y, onSecond) => n := FillChain(b);
    }

    method MarkExhausted()
      requires Valid() && rest == []
      modifies this`exhausted
      ensures Valid() && rest == [] && exhausted
    {
      exhausted := true;
    }

    method FillLeaf(b: Batch) returns (n: nat)
      requires Valid() && b.Valid() && b.Live() == [] && b.cursor == 0 && node.Leaf?
      modifies this, b, b.elems
      ensures Valid() && b.Valid() && n == |b.Live()| && Took(old(rest), b.Live(), rest)
      ensures b.cursor == 0
      ensures n == 0 ==> exhausted
    {
      hide ListElems, SetElems, TableOk, Offered;
      var s, done := node.source, exhausted;
      ghost var before := rest;
      match s {
      case ListSource(current) =>
        var next, e := FillList(b, current);
        s, done := ListSource(next), done || e;
      case VectorSource(items, index) =>
        var next, e := FillVector(b, items, index);
        s, done := VectorSource(items, next), done || e;
      case DequeSource(ring, cap, tail, vindex) =>
        var next, e := FillDeque(b, ring, cap, tail, vindex, rest);
        s, done := DequeSource(ring, cap, tail, next), done || e;
      case SetSource(meta, elems, groups, group, slot) =>
        var g, k, e := FillSet(b, meta, elems, groups, group, slot);
        s, done := SetSource(meta, elems, groups, g, k), done || e;
      }
      n := b.Limit();
      assert Gives(s, before[n..]);
      node, exhausted, rest := Leaf(s), done, rest[n..];
    }

    /** `fill_map`. */
    method FillMap(b: Batch) returns (n: nat)
      requires Valid() && b.Valid() && b.Live() == [] && b.cursor == 0 && node.MapOf?
      modifies parts, b, b.elems, b.sel
      ensures Valid() && b.Valid() && n == |b.Live()| && Took(old(rest), b.Live(), rest)
      ensures b.cursor == 0
      ensures n == 0 ==> exhausted
      decreases parts, 0
    {
      hide MapSeq, FilterSeq, TakeSeq, Gives, Batch.Valid, Batch.Live;
      var u, f := node.upstream, node.f;
      n := u.Fill(b);
      MapSplits(f, b.Live(), u.rest);
      if n == 0 {
        exhausted := true;
        return;
      }
      b.Apply(f);
      rest := MapSeq(f, u.rest);
    }

    /** `fill_filter`: pulls upstream batches until something passes. */
    method FillFilter(b: Batch) returns (n: nat)
      requires Valid() && b.Valid() && b.Live() == [] && b.cursor == 0 && node.FilterOf?
      modifies parts, b, b.elems, b.sel
      ensures Valid() && b.Valid() && n == |b.Live()| && Took(old(rest), b.Live(), rest)
      ensures b.cursor == 0
      ensures n == 0 ==> exhausted
      decreases parts, 0
    {
      hide MapSeq, FilterSeq, TakeSeq, Gives, Batch.Valid, Batch.Live;
      var u, f := node.upstream, node.f;
      while !exhausted
        invariant Valid() && node == old(node) && rest == old(rest)
        invariant b.Valid() && b.Live() == [] && b.cursor == 0
        decreases |u.rest|
      {
        n := u.Fill(b);
        FilterSplits(f, b.Live(), u.rest);
        NothingPasses(f, u.rest);
        if n == 0 {
          exhausted := true;
          return;
        }
        b.Narrow(f);
        if b.selCount > 0 {
          rest := FilterSeq(f, u.rest);
          return b.selCount;
        }
        b.Discard();
      }
      n := 0;
    }

    /** `fill_take`. */
    method FillTake(b: Batch) returns (n: nat)
      requires Valid() && b.Valid() && b.Live() == [] && b.cursor == 0 && node.TakeOf?
      modifies parts, b, b.elems, b.sel
      ensures Valid() && b.Valid() && n == |b.Live()| && Took(old(rest), b.Live(), rest)
      ensures b.cursor == 0
      ensures n == 0 ==> exhausted
      decreases parts, 0
    {
      hide MapSeq, FilterSeq, TakeSeq, Gives, Batch.Valid, Batch.Live;
      var u, remaining := node.upstream, node.remaining;
      TakeSplits(remaining, [], u.rest);
      if remaining == 0 {
        exhausted := true;
        return 0;
      }
      n := u.Fill(b);
      TakeSplits(remaining, b.Live(), u.rest);
      if n == 0 {
        exhausted := true;
        return;
      }
      if n > remaining {
        b.Cut(remaining);
        n := remaining;
      }
      node := TakeOf(u, remaining - n);
      rest := TakeSeq(remaining - n, u.rest);
    }

    /** `fill_chain`. */
    method FillChain(b: Batch) returns (n: nat)
      requires Valid() && b.Valid() && b.Live() == [] && b.cursor == 0 && node.ChainOf?
      modifies parts, b, b.elems, b.sel
      ensures Valid() && b.Valid() && n == |b.Live()| && Took(old(rest), b.Live(), rest)
      ensures b.cursor == 0
      ensures n == 0 ==> exhausted
      decreases parts, 1
    {
      if !node.onSecond {
        n := FillFirst(b);
        if n > 0 {
          return;
        }
      }
      n := FillSecond(b);
    }

    /** Pulls from the first iterator, and moves on to the second when it is empty. */
    method FillFirst(b: Batch) returns (n: nat)
      requires Valid() && b.Valid() && b.Live() == [] && b.cursor == 0 && node.ChainOf? && !node.onSecond
      modifies parts, b, b.elems, b.sel
      ensures Valid() && b.Valid() && n == |b.Live()| && old(rest) == b.Live() + rest
      ensures b.cursor == 0
      ensures n == 0 ==> node.ChainOf? && node.onSecond
      decreases parts, 0
    {
      hide MapSeq, FilterSeq, TakeSeq, Gives, Batch.Valid, Batch.Live;
      var x, y := node.first, node.second;
      n := x.Fill(b);
      Regroup(b.Live(), x.rest, y.rest);
      if n == 0 {
        node := ChainOf(x, y, true);
        rest := y.rest;
      } else {
        rest := x.rest + y.rest;
      }
    }

    method FillSecond(b: Batch) returns (n: nat)
      requires Valid() && b.Valid() && b.Live() == [] && b.cursor == 0 && node.ChainOf? && node.onSecond
      modifies parts, b, b.elems, b.sel
      ensures Valid() && b.Valid() && n == |b.Live()| && Took(old(rest), b.Live(), rest)
      ensures b.cursor == 0
      ensures n == 0 ==> exhausted
      decreases parts, 0
    {
      hide MapSeq, FilterSeq, TakeSeq, Gives, Batch.Valid, Batch.Live;
      var y := node.second;
      n := y.Fill(b);
      rest := y.rest;
      if n == 0 {
        exhausted := true;
      }
    }
  }

  lemma Regroup(a: seq<Cell>, b: seq<Cell>, c: seq<Cell>)
    ensures (a + b) + c == a + (b + c)
    ensures a == [] ==> (a + b) + c == b + c
  {
  }

  lemma NothingPasses(f: Cell -> Cell, s: seq<Cell>)
    ensures s == [] ==> FilterSeq(f, s) == []
    ensures FilterSeq(f, []) == []
  {
  }

  lemma TakeSplits(n: nat, s: seq<Cell>, t: seq<Cell>)
    ensures |s| <= n ==> TakeSeq(n, s + t) == s + TakeSeq(n - |s|, t)
    ensures |s| > n ==> TakeSeq(n, s + t) == s[..n]
    ensures TakeSeq(0, t) == [] && TakeSeq(n, []) == []
  {
  }

  // ----- pulling -----

  /** An iterator value: the iterator and its current batch. */
  class Handle {
    const it: Iterator
    const batch: Batch

    ghost predicate Valid()
      reads this, it, it.parts, batch, batch.elems, batch.sel
    {
      it.Valid() && batch.Valid() && batch.cursor <= batch.Limit()
    }

    /** Every element still to be pulled. */
    ghost function Pending(): (r: seq<Cell>)
      requires Valid()
      reads this, it, it.parts, batch, batch.elems, batch.sel
    {
      batch.Live()[batch.cursor..] + it.rest
    }

    constructor (i: Iterator)
      requires i.Valid()
      ensures Valid() && Pending() == i.rest && it == i
      ensures fresh(batch) && fresh(batch.elems) && fresh(batch.sel)
    {
      it := i;
      batch := new Batch();
    }

    /** `cell_iterator_next`: the next element, nil at the end. */
    method Next() returns (elem: Cell)
      requires Valid()
      modifies it.parts, batch, batch.elems, batch.sel
      ensures Valid()
      ensures old(Pending()) == [] ==> elem == Nil && Pending() == [] && Ended()
      ensures old(Pending()) != [] ==> [elem] + Pending() == old(Pending())
    {
      hide Batch.Valid, Batch.Live, Iterator.Valid;
      ghost var before := Pending();
      if batch.cursor < batch.Limit() {
        elem := batch.At(batch.cursor);
        batch.Advance();
        return;
      }
      batch.Reset();
      var n := it.Fill(batch);
      if n == 0 {
        it.MarkExhausted();
        return Nil;
      }
      elem := batch.At(0);
      batch.Advance();
    }

    /** The end has been noticed. */
    predicate Ended()
      reads it, batch
    {
      it.exhausted && batch.cursor >= batch.Limit()
    }

    /** `cell_iterator_done`: true exactly once the end has been noticed, which a pull that
    finds nothing does, and only when nothing is left. */
    method Done() returns (done: bool)
      requires Valid()
      ensures done <==> Ended()
      ensures done ==> Pending() == []
    {
      done := it.exhausted && batch.cursor >= batch.Limit();
    }

    /** `cell_iterator_collect`: conses up the elements backwards, then reverses them. */
    method Collect() returns (list: Cell)
      requires Valid()
      modifies it.parts, batch, batch.elems, batch.sel
      ensures list == ToList(UpToNil(old(Pending())))
    {
      hide Handle.Valid, Handle.Pending, ToList;
      ghost var all, taken := Pending(), [];
      var acc := Nil;
      while true
        invariant Valid() && Backwards(acc, taken)
        invariant UpToNil(all) == taken + UpToNil(Pending())
        decreases |Pending()|
      {
        ghost var before := Pending();
        var elem := Next();
        if elem == Nil {
          break;
        }
        Consed(acc, taken, elem);
        acc := Pair(elem, acc);
        taken := taken + [elem];
      }
      assert UpToNil(all) == taken;
      list := Reverse(acc, taken);
    }
  }

  /** The list holds the sequence last element first. */
  ghost predicate Backwards(list: Cell, s: seq<Cell>)
    decreases |s|
  {
    if s == [] then list == Nil
    else list.Pair? && list.car == s[|s| - 1] && Backwards(list.cdr, s[..|s| - 1])
  }

  lemma Consed(list: Cell, s: seq<Cell>, c: Cell)
    requires Backwards(list, s)
    ensures Backwards(Pair(c, list), s + [c])
  {
    assert (s + [c])[..|s|] == s;
  }

  /** The reversing loop. */
  method Reverse(acc: Cell, ghost s: seq<Cell>) returns (list: Cell)
    requires Backwards(acc, s)
    ensures list == ToList(s)
  {
    list := Nil;
    var cur := acc;
    ghost var n := |s|;
    assert s[..n] == s && s[n..] == [];
    while cur.Pair?
      invariant 0 <= n <= |s| && Backwards(cur, s[..n]) && list == ToList(s[n..])
      decreases n
    {
      list := Pair(cur.car, list);
      cur := cur.cdr;
      assert s[..n][..n - 1] == s[..n - 1] && s[n - 1..][1..] == s[n..];
      n := n - 1;
    }
  }

  // ----- any nesting over fresh sources -----

  datatype Expr =
    | From(source: Source)
    | Mapped(inner: Expr, f: Cell -> Cell)
    | Filtered(inner: Expr, f: Cell -> Cell)
    | Taken(inner: Expr, n: nat)
    | Chained(left: Expr, right: Expr)

  ghost predicate WellFormed(e: Expr) {
    match e
    case From(s) => exists all :: Gives(s, all)
    case Mapped(i, _) => WellFormed(i)
    case Filtered(i, _) => WellFormed(i)
    case Taken(i, _) => WellFormed(i)
    case Chained(l, r) => WellFormed(l) && WellFormed(r)
  }

  /** The source's contents are determined: the four kinds give their elements front to back. */
  lemma GivesOnce(s: Source, x: seq<Cell>, y: seq<Cell>)
    requires Gives(s, x) && Gives(s, y)
    ensures x == y
  {
    if s.DequeSource? {
      forall i | 0 <= i < |x| ensures x[i] == y[i] {
        assert s.ring[D.Ring(s.vindex, i, s.cap)] == Some(x[i]);
      }
    }
  }

  /** What a source gives: the only sequence it can give. */
  ghost function Contents(s: Source): (r: seq<Cell>)
    requires exists all :: Gives(s, all)
    ensures Gives(s, r) && forall all :: Gives(s, all) ==> all == r
  {
    var r :| Gives(s, r);
    assert forall all :: Gives(s, all) ==> all == r by {
      forall all | Gives(s, all) ensures all == r { GivesOnce(s, all, r); }
    }
    r
  }

  /** The element-at-a-time meaning of a nest of transformers. */
  ghost function Denote(e: Expr): (r: seq<Cell>)
    requires WellFormed(e)
  {
    match e
    case From(s) => Contents(s)
    case Mapped(i, f) => MapSeq(f, Denote(i))
    case Filtered(i, f) => FilterSeq(f, Denote(i))
    case Taken(i, n) => TakeSeq(n, Denote(i))
    case Chained(l, r) => Denote(l) + Denote(r)
  }

  /** What a nest means, transformer by transformer, without the functions that compute it. */
  ghost predicate Means(e: Expr, r: seq<Cell>) {
    match e
    case From(s) => Gives(s, r)
    case Mapped(i, f) => exists t :: Means(i, t) && |r| == |t| && forall k :: 0 <= k < |t| ==> r[k] == f(t[k])
    case Filtered(i, f) => exists t :: Means(i, t) && Selected(f, t, r)
    case Taken(i, n) => exists t :: Means(i, t) && r <= t && |r| == if |t| < n then |t| else n
    case Chained(x, y) => exists s, t :: Means(x, s) && Means(y, t) && r == s + t
  }

  lemma {:induction false} DenoteMeans(e: Expr, r: seq<Cell>)
    requires WellFormed(e)
    ensures Means(e, r) <==> r == Denote(e)
    decreases e
  {
    match e
    case From(s) =>
    case Mapped(i, f) =>
      DenoteMeans(i, Denote(i));
      forall t | Means(i, t) ensures t == Denote(i) { DenoteMeans(i, t); }
    case Filtered(i, f) =>
      DenoteMeans(i, Denote(i));
      forall t | Means(i, t) ensures t == Denote(i) { DenoteMeans(i, t); }
      FilterSelects(f, Denote(i), r);
    case Taken(i, n) =>
      DenoteMeans(i, Denote(i));
      forall t | Means(i, t) ensures t == Denote(i) { DenoteMeans(i, t); }
    case Chained(x, y) =>
      DenoteMeans(x, Denote(x));
      DenoteMeans(y, Denote(y));
      forall t | Means(x, t) ensures t == Denote(x) { DenoteMeans(x, t); }
      forall t | Means(y, t) ensures t == Denote(y) { DenoteMeans(y, t); }
  }

  method Build(e: Expr) returns (it: Iterator)
    requires WellFormed(e)
    ensures it.Valid() && it.rest == Denote(e) && fresh(it.parts)
    decreases e
  {
    hide MapSeq, FilterSeq, TakeSeq, Gives, Iterator.Valid;
    if e.From? {
      it := new Iterator.Over(e.source, Contents(e.source));
    } else if e.Mapped? {
      var u := Build(e.inner);
      it := new Iterator.Map(u, e.f);
    } else if e.Filtered? {
      var u := Build(e.inner);
      it := new Iterator.Filter(u, e.f);
    } else if e.Taken? {
      var u := Build(e.inner);
      it := new Iterator.Take(u, e.n);
    } else {
      var x := Build(e.left);
      var y := Build(e.right);
      it := new Iterator.Chain(x, y);
    }
  }

  /** For any nesting over fresh sources of any length, collecting through batches and
  selection vectors gives the element-at-a-time result in order, up to its first nil. */
  method CollectNest(e: Expr) returns (list: Cell)
    requires WellFormed(e)
    ensures list == ToList(UpToNil(Denote(e))) && Means(e, Denote(e))
    ensures Nil !in Denote(e) ==> Means(e, ListElems(list))
  {
    DenoteMeans(e, Denote(e));
    hide Means;
    var it := Build(e);
    var handle := new Handle(it);
    list := handle.Collect();
    if Nil !in Denote(e) {
      NilFree(Denote(e));
    }
    ListOfElems(UpToNil(Denote(e)));
  }

  lemma {:induction false} ListOfElems(s: seq<Cell>)
    ensures ListElems(ToList(s)) == s
  {
    if s != [] {
      ListOfElems(s[1..]);
    }
  }
}
