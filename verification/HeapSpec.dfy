/** The 4-ary min-heap as a sequence of entries with real keys, and the frontier argument
behind the lazy sorted drain (bootstrap/cell.c:2589-2776, 4835-4913). */
module HeapSpec {

  datatype Entry<+V> = Entry(key: real, val: V)

  function Parent(i: nat): (p: nat)
    requires i > 0
    ensures p < i
  {
    (i - 1) / 4
  }

  function FirstChild(i: nat): (c: nat)
    ensures c > i
    ensures forall j :: j > 0 ==> (Parent(j) == i <==> c <= j < c + 4)
  {
    4 * i + 1
  }

  ghost predicate Heap<V>(s: seq<Entry<V>>) {
    forall i :: 0 < i < |s| ==> s[Parent(i)].key <= s[i].key
  }

  function Swap<V>(s: seq<Entry<V>>, i: nat, j: nat): (r: seq<Entry<V>>)
    requires i < |s| && j < |s|
    ensures |r| == |s|
    ensures multiset(r) == multiset(s)
  {
    s[i := s[j]][j := s[i]]
  }

  /** The first child with the smallest key. */
  function MinChild<V>(s: seq<Entry<V>>, pos: nat): (b: nat)
    requires FirstChild(pos) < |s|
    ensures pos < b < |s| && Parent(b) == pos
    ensures forall j :: 0 < j < |s| && Parent(j) == pos ==> s[b].key <= s[j].key
  {
    var c := FirstChild(pos);
    var b1 := if c + 1 < |s| && s[c + 1].key < s[c].key then c + 1 else c;
    var b2 := if c + 2 < |s| && s[c + 2].key < s[b1].key then c + 2 else b1;
    if c + 3 < |s| && s[c + 3].key < s[b2].key then c + 3 else b2
  }

  /** The choice does not look at the parent itself. */
  lemma SameChildren<V>(s: seq<Entry<V>>, t: seq<Entry<V>>, pos: nat)
    requires |s| == |t| && FirstChild(pos) < |s|
    requires forall i :: pos < i < |s| ==> s[i] == t[i]
    ensures MinChild(s, pos) == MinChild(t, pos)
  {
  }

  function SiftUp<V>(s: seq<Entry<V>>, pos: nat): (r: seq<Entry<V>>)
    requires pos < |s|
    ensures |r| == |s|
    decreases pos
  {
    if pos == 0 || s[Parent(pos)].key <= s[pos].key then s
    else SiftUp(Swap(s, pos, Parent(pos)), Parent(pos))
  }

  lemma SiftUpUnfold<V>(s: seq<Entry<V>>, pos: nat)
    requires pos < |s|
    ensures SiftUp(s, pos) == if pos == 0 || s[Parent(pos)].key <= s[pos].key then s
                              else SiftUp(Swap(s, pos, Parent(pos)), Parent(pos))
  {
  }

  function SiftDown<V>(s: seq<Entry<V>>, pos: nat): (r: seq<Entry<V>>)
    requires pos < |s|
    ensures |r| == |s|
    decreases |s| - pos
  {
    if FirstChild(pos) >= |s| || s[MinChild(s, pos)].key >= s[pos].key then s
    else SiftDown(Swap(s, pos, MinChild(s, pos)), MinChild(s, pos))
  }

  lemma SiftDownUnfold<V>(s: seq<Entry<V>>, pos: nat)
    requires pos < |s|
    ensures SiftDown(s, pos) == if FirstChild(pos) >= |s| || s[MinChild(s, pos)].key >= s[pos].key then s
                                else SiftDown(Swap(s, pos, MinChild(s, pos)), MinChild(s, pos))
  {
  }

  /** A heap except that `pos` may be smaller than its parent. */
  ghost predicate HeapAbove<V>(s: seq<Entry<V>>, pos: nat) {
    && (forall i :: 0 < i < |s| && i != pos ==> s[Parent(i)].key <= s[i].key)
    && (forall i :: 0 < i < |s| && Parent(i) == pos && pos > 0 ==> s[Parent(pos)].key <= s[i].key)
  }

  /** A heap except that `pos` may be larger than its children. */
  ghost predicate HeapBelow<V>(s: seq<Entry<V>>, pos: nat) {
    && (forall i :: 0 < i < |s| && Parent(i) != pos ==> s[Parent(i)].key <= s[i].key)
    && (forall i :: 0 < i < |s| && Parent(i) == pos && 0 < pos < |s| ==> s[Parent(pos)].key <= s[i].key)
  }

  lemma SwapUp<V>(s: seq<Entry<V>>, pos: nat)
    requires 0 < pos < |s| && HeapAbove(s, pos) && s[Parent(pos)].key > s[pos].key
    ensures HeapAbove(Swap(s, pos, Parent(pos)), Parent(pos))
  {
    hide Parent;
    var p := Parent(pos);
    var t := Swap(s, pos, p);
    forall i | 0 < i < |t| && i != p ensures t[Parent(i)].key <= t[i].key {
      assert i != pos ==> t[i] == s[i];
    }
  }

  lemma {:induction false} SiftUpRestores<V>(s: seq<Entry<V>>, pos: nat)
    requires pos < |s| && HeapAbove(s, pos)
    ensures Heap(SiftUp(s, pos)) && multiset(SiftUp(s, pos)) == multiset(s)
    decreases pos
  {
    hide Parent, Swap, SiftUp;
    SiftUpUnfold(s, pos);
    if pos > 0 && s[Parent(pos)].key > s[pos].key {
      SwapUp(s, pos);
      SiftUpRestores(Swap(s, pos, Parent(pos)), Parent(pos));
    }
  }

  lemma {:induction false} SiftDownRestores<V>(s: seq<Entry<V>>, pos: nat)
    requires pos < |s| && HeapBelow(s, pos)
    ensures Heap(SiftDown(s, pos)) && multiset(SiftDown(s, pos)) == multiset(s)
    decreases |s| - pos
  {
    if FirstChild(pos) < |s| && s[MinChild(s, pos)].key < s[pos].key {
      var b := MinChild(s, pos);
      var t := Swap(s, pos, b);
      SiftDownRestores(t, b);
    }
  }

  /** The root of a heap is a minimum. */
  lemma {:induction false} RootIsLeast<V>(s: seq<Entry<V>>, i: nat)
    requires Heap(s) && i < |s|
    ensures s[0].key <= s[i].key
    decreases i
  {
    if i > 0 {
      RootIsLeast(s, Parent(i));
    }
  }

  // ----- the operations -----

  function Push<V>(s: seq<Entry<V>>, e: Entry<V>): (r: seq<Entry<V>>) {
    SiftUp(s + [e], |s|)
  }

  /** What is left after taking the root: the last entry replaces it and sinks. */
  function Pop<V>(s: seq<Entry<V>>): (r: seq<Entry<V>>)
    requires s != []
  {
    var n := |s| - 1;
    if n == 0 then [] else SiftDown(s[..n][0 := s[n]], 0)
  }

  lemma PopUnfold<V>(s: seq<Entry<V>>)
    requires s != []
    ensures Pop(s) == if |s| == 1 then [] else SiftDown(s[..|s| - 1][0 := s[|s| - 1]], 0)
  {
  }

  lemma PushKeepsHeap<V>(s: seq<Entry<V>>, e: Entry<V>)
    requires Heap(s)
    ensures Heap(Push(s, e)) && multiset(Push(s, e)) == multiset(s) + multiset{e}
  {
    SiftUpRestores(s + [e], |s|);
  }

  lemma RootIsMinimum<V>(s: seq<Entry<V>>)
    requires Heap(s) && s != []
    ensures forall e :: e in multiset(s) ==> s[0].key <= e.key
  {
    forall e | e in multiset(s) ensures s[0].key <= e.key {
      var i :| 0 <= i < |s| && s[i] == e;
      RootIsLeast(s, i);
    }
  }

  /** Popping removes the root and nothing else. */
  lemma PopKeepsHeap<V>(s: seq<Entry<V>>)
    requires Heap(s) && s != []
    ensures Heap(Pop(s)) && multiset(Pop(s)) == multiset(s) - multiset{s[0]}
  {
    var n := |s| - 1;
    assert s == s[..n] + [s[n]];
    if n > 0 {
      var t := s[..n][0 := s[n]];
      assert t == [s[n]] + s[1..n];
      assert s == [s[0]] + s[1..n] + [s[n]];
      SiftDownRestores(t, 0);
    }
  }

  ghost predicate SortedKeys<V>(s: seq<Entry<V>>) {
    forall i, j :: 0 <= i < j < |s| ==> s[i].key <= s[j].key
  }

  /** Popping everything. */
  function Drained<V>(s: seq<Entry<V>>): (r: seq<Entry<V>>)
    requires Heap(s)
    decreases |s|
  {
    if s == [] then []
    else
      PopKeepsHeap(s);
      PopShrinks(s);
      [s[0]] + Drained(Pop(s))
  }

  lemma PopShrinks<V>(s: seq<Entry<V>>)
    requires s != []
    ensures |Pop(s)| == |s| - 1
  {
  }

  lemma DrainedUnfold<V>(s: seq<Entry<V>>)
    requires Heap(s)
    ensures s == [] ==> Drained(s) == []
    ensures s != [] ==> Heap(Pop(s)) && Drained(s) == [s[0]] + Drained(Pop(s))
  {
    if s != [] { PopKeepsHeap(s); }
  }

  /** Popping everything yields all entries in nondecreasing key order. */
  lemma {:induction false} DrainedIsSorted<V>(s: seq<Entry<V>>)
    requires Heap(s)
    ensures SortedKeys(Drained(s)) && multiset(Drained(s)) == multiset(s)
    decreases |s|
  {
    hide Pop, Heap;
    if s != [] {
      PopKeepsHeap(s);
      PopShrinks(s);
      RootIsMinimum(s);
      var rest := Drained(Pop(s));
      DrainedIsSorted(Pop(s));
      assert s[0] in multiset(s);
      forall j | 0 <= j < |rest| ensures s[0].key <= rest[j].key {
        assert rest[j] in multiset(rest);
      }
    }
  }

  // ----- the lazy drain: only the frontier is kept -----

  /** `i` has not been emitted but its parent has. */
  predicate OnFrontier(emitted: seq<nat>, i: nat) {
    i !in emitted && (i == 0 || Parent(i) in emitted)
  }

  /** The auxiliary heap holds exactly the frontier, each index once with its key. */
  ghost predicate HoldsFrontier<V>(s: seq<Entry<V>>, aux: multiset<Entry<int>>, emitted: seq<nat>) {
    forall e: Entry<int> :: aux[e] ==
      if 0 <= e.val < |s| && e.key == s[e.val].key && OnFrontier(emitted, e.val) then 1 else 0
  }

  /** The emitted indices are distinct and their keys nondecreasing. */
  ghost predicate InOrder<V>(s: seq<Entry<V>>, emitted: seq<nat>) {
    && (forall k :: 0 <= k < |emitted| ==> emitted[k] < |s|)
    && (forall j, k :: 0 <= j < k < |emitted| ==> emitted[j] != emitted[k] && s[emitted[j]].key <= s[emitted[k]].key)
  }

  ghost predicate ParentsEmitted(emitted: seq<nat>) {
    forall i :: i in emitted && i > 0 ==> Parent(i) in emitted
  }

  /** No emitted key exceeds a frontier key. */
  ghost predicate BelowFrontier<V>(s: seq<Entry<V>>, emitted: seq<nat>)
    requires InOrder(s, emitted)
  {
    forall k, i :: 0 <= k < |emitted| && 0 <= i < |s| && OnFrontier(emitted, i) ==> s[emitted[k]].key <= s[i].key
  }

  ghost predicate EmittedOk<V>(s: seq<Entry<V>>, emitted: seq<nat>)
    ensures EmittedOk(s, emitted) ==> forall k :: 0 <= k < |emitted| ==> emitted[k] < |s|
  {
    InOrder(s, emitted) && ParentsEmitted(emitted) && BelowFrontier(s, emitted)
  }

  /** The entries of the children of `i`. */
  function ChildEntries<V>(s: seq<Entry<V>>, i: nat, c: nat): (r: multiset<Entry<int>>)
    requires c <= 4
  {
    if c == 0 then multiset{}
    else
      var j := FirstChild(i) + c - 1;
      ChildEntries(s, i, c - 1) + if j < |s| then multiset{Entry(s[j].key, j)} else multiset{}
  }

  lemma ChildEntriesNext<V>(s: seq<Entry<V>>, i: nat, c: nat)
    requires c < 4
    ensures ChildEntries(s, i, 0) == multiset{}
    ensures var j := i * 4 + 1 + c;
            ChildEntries(s, i, c + 1) ==
              ChildEntries(s, i, c) + if j < |s| then multiset{Entry(s[j].key, j)} else multiset{}
  {
  }

  lemma {:induction false} ChildEntriesAre<V>(s: seq<Entry<V>>, i: nat, c: nat, e: Entry<int>)
    requires c <= 4
    ensures ChildEntries(s, i, c)[e] ==
            if FirstChild(i) <= e.val < FirstChild(i) + c && e.val < |s| && e.key == s[e.val].key then 1 else 0
  {
    if c > 0 {
      ChildEntriesAre(s, i, c - 1, e);
    }
  }

  /** Emitting a frontier index and admitting its children. */
  lemma EmitKeepsFrontier<V>(s: seq<Entry<V>>, aux: multiset<Entry<int>>, emitted: seq<nat>, i: nat)
    requires HoldsFrontier(s, aux, emitted) && EmittedOk(s, emitted)
    requires i < |s| && OnFrontier(emitted, i)
    ensures HoldsFrontier(s, aux - multiset{Entry(s[i].key, i)} + ChildEntries(s, i, 4), emitted + [i])
  {
    hide OnFrontier, Parent, ChildEntries;
    forall e: Entry<int> ensures (aux - multiset{Entry(s[i].key, i)} + ChildEntries(s, i, 4))[e] ==
                     if 0 <= e.val < |s| && e.key == s[e.val].key && OnFrontier(emitted + [i], e.val) then 1 else 0
    {
      ChildEntriesAre(s, i, 4, e);
      if e.val >= 0 {
        FrontierMovesTo(emitted, i, e.val);
      }
    }
  }

  /** Emitting a least frontier index keeps the emitted sequence in order. */
  lemma EmitKeepsOrder<V>(s: seq<Entry<V>>, emitted: seq<nat>, i: nat)
    requires Heap(s) && EmittedOk(s, emitted)
    requires i < |s| && OnFrontier(emitted, i)
    requires forall j :: 0 <= j < |s| && OnFrontier(emitted, j) ==> s[i].key <= s[j].key
    ensures EmittedOk(s, emitted + [i])
  {
    hide Parent, OnFrontier, Heap;
    NotYetEmitted(emitted, i);
    OrderExtends(s, emitted, i);
    FrontierMoves(emitted, i);
    hide InOrder;
    BoundExtends(s, emitted, i);
  }

  lemma NotYetEmitted(emitted: seq<nat>, i: nat)
    requires OnFrontier(emitted, i)
    ensures i !in emitted
  {
  }

  lemma OrderExtends<V>(s: seq<Entry<V>>, emitted: seq<nat>, i: nat)
    requires InOrder(s, emitted) && i < |s| && i !in emitted && OnFrontier(emitted, i) && BelowFrontier(s, emitted)
    ensures InOrder(s, emitted + [i])
  {
    hide OnFrontier;
  }

  lemma BoundExtends<V>(s: seq<Entry<V>>, emitted: seq<nat>, i: nat)
    requires Heap(s) && EmittedOk(s, emitted) && InOrder(s, emitted + [i])
    requires i < |s| && OnFrontier(emitted, i)
    requires forall j :: 0 <= j < |s| && OnFrontier(emitted, j) ==> s[i].key <= s[j].key
    ensures BelowFrontier(s, emitted + [i])
  {
    hide OnFrontier;
    var emitted' := emitted + [i];
    forall k, j: nat | 0 <= k < |emitted'| && j < |s| && OnFrontier(emitted', j)
      ensures s[emitted'[k]].key <= s[j].key
    {
      LeastBelowNew(s, emitted, i, j);
      assert k < |emitted| ==> s[emitted[k]].key <= s[i].key;
    }
  }

  lemma LeastBelowNew<V>(s: seq<Entry<V>>, emitted: seq<nat>, i: nat, j: nat)
    requires Heap(s) && i < |s| && j < |s| && OnFrontier(emitted, i) && OnFrontier(emitted + [i], j)
    requires ParentsEmitted(emitted)
    requires OnFrontier(emitted, j) ==> s[i].key <= s[j].key
    ensures s[i].key <= s[j].key
  {
    FrontierMovesTo(emitted, i, j);
  }

  lemma FrontierMoves(emitted: seq<nat>, i: nat)
    requires ParentsEmitted(emitted)
    requires OnFrontier(emitted, i)
    ensures ParentsEmitted(emitted + [i])
    ensures forall j :: j > 0 && Parent(j) == i ==> j !in emitted
  {
  }

  lemma FrontierMovesTo(emitted: seq<nat>, i: nat, j: nat)
    requires OnFrontier(emitted, i)
    requires ParentsEmitted(emitted)
    ensures OnFrontier(emitted + [i], j) <==>
            (OnFrontier(emitted, j) && j != i) || FirstChild(i) <= j < FirstChild(i) + 4
    ensures FirstChild(i) <= j < FirstChild(i) + 4 ==> !OnFrontier(emitted, j) && j > 0 && Parent(j) == i
  {
  }

  /** When the frontier is empty every index has been emitted. */
  lemma {:induction false} EmptyFrontierMeansAll(emitted: seq<nat>, n: nat, i: nat)
    requires i < n && forall j :: 0 <= j < n ==> !OnFrontier(emitted, j)
    ensures i in emitted
    decreases i
  {
    assert !OnFrontier(emitted, i);
    if i > 0 {
      EmptyFrontierMeansAll(emitted, n, Parent(i));
    }
  }
}
