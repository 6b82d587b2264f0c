/** The heap iterator (bootstrap/cell.c:4835-4913, 5147-5160).

Batches in key order come from an auxiliary heap of frontier indices; the heap itself is
untouched. */
module LazyDrain {
  import opened HeapSpec
  import opened PriorityHeap

  const BATCH: nat := 256

  /** The auxiliary heap of a new iterator: the root, if there is one. */
  method Seed<V(0)>(source: PriorityQueue<V>) returns (aux: PriorityQueue<int>)
    requires source.Valid()
    ensures fresh(aux.Footprint()) && aux.Valid() && (source.size == 0 ==> aux.size == 0)
    ensures HoldsFrontier(source.Contents(), multiset(aux.Contents()), []) && EmittedOk(source.Contents(), [])
  {
    hide HoldsFrontier, EmittedOk, Heap, Push, PriorityQueue.Contents;
    aux := new PriorityQueue();
    if source.size > 0 {
      var root := Entry(source.keys[0], 0);
      ghost var empty := aux.Contents();
      PushKeepsHeap(empty, root);
      aux.Add(source.keys[0], 0);
      assert multiset(aux.Contents()) == multiset(empty) + multiset{root} == multiset{root};
      FirstFrontier(source.Contents());
    } else {
      NoFrontier(source.Contents());
    }
  }

  class HeapIterator<V(0)> {
    const source: PriorityQueue<V>
    const aux: PriorityQueue<int>
    var exhausted: bool
    ghost var emitted: seq<nat>

    /** The heap being drained has not changed since the iterator was made (`s`), and the
    auxiliary heap holds the frontier of what has been emitted. */
    ghost predicate Valid(s: seq<Entry<V>>)
      reads this, source, source.keys, source.vals, aux, aux.keys, aux.vals
    {
      && source.Valid() && aux.Valid() && source.Contents() == s
      && source.Footprint() !! aux.Footprint() && this !in source.Footprint() && this !in aux.Footprint()
      && HoldsFrontier(s, multiset(aux.Contents()), emitted)
      && EmittedOk(s, emitted)
      && (exhausted ==> aux.size == 0)
    }

    constructor (source: PriorityQueue<V>)
      requires source.Valid()
      ensures this.source == source && Valid(source.Contents()) && emitted == []
      ensures fresh(aux.Footprint())
    {
      hide HoldsFrontier, EmittedOk, Heap, Push, PriorityQueue.Valid, PriorityQueue.Contents;
      this.source := source;
      exhausted := source.size == 0;
      emitted := [];
      var frontier := Seed(source);
      aux := frontier;
    }

    /** `fill_heap`: the next batch, empty exactly when everything has been emitted. */
    method Fill(ghost s: seq<Entry<V>>) returns (batch: seq<Entry<V>>)
      requires Valid(s)
      modifies this`emitted, this`exhausted, aux.Footprint()
      ensures Valid(s) && fresh(aux.Footprint() - old(aux.Footprint()))
      ensures |batch| <= BATCH && old(emitted) <= emitted
      ensures |batch| == |emitted| - |old(emitted)|
      ensures forall k :: 0 <= k < |emitted| ==> emitted[k] < |s|
      ensures forall k :: 0 <= k < |batch| ==> batch[k] == s[emitted[|old(emitted)| + k]]
      ensures |batch| == 0 ==> forall i :: 0 <= i < |s| ==> i in emitted
      ensures exhausted ==> forall i :: 0 <= i < |s| ==> i in emitted
      ensures |batch| == 0 ==> exhausted
    {
      hide HoldsFrontier, EmittedOk, Heap, PriorityQueue.Contents, PriorityQueue.Valid;
      batch := [];
      while |batch| < BATCH && aux.size > 0
        invariant Valid(s) && fresh(aux.Footprint() - old(aux.Footprint()))
        invariant |batch| <= BATCH && old(emitted) <= emitted && |batch| == |emitted| - |old(emitted)|
        invariant forall k :: 0 <= k < |emitted| ==> emitted[k] < |s|
        invariant forall k :: 0 <= k < |batch| ==> batch[k] == s[emitted[|old(emitted)| + k]]
        invariant batch == [] ==> exhausted == old(exhausted)
        decreases BATCH - |batch|
      {
        var e := EmitOne(s);
        batch := batch + [e];
      }
      if aux.size == 0 {
        exhausted := true;
        AllEmitted(s);
      }
    }

    /** One round of `fill_heap`: pop the least frontier index, admit its children. */
    method EmitOne(ghost s: seq<Entry<V>>) returns (e: Entry<V>)
      requires Valid(s) && aux.size > 0
      modifies this`emitted, aux.Footprint()
      ensures Valid(s) && fresh(aux.Footprint() - old(aux.Footprint()))
      ensures |emitted| == |old(emitted)| + 1 && old(emitted) <= emitted
      ensures var i := emitted[|old(emitted)|]; i < |s| && e == s[i]
    {
      hide HoldsFrontier, EmittedOk, OnFrontier, Heap, ChildEntries, PriorityQueue.Contents, PriorityQueue.Valid;
      ghost var bag := multiset(aux.Contents());
      LeastFrontier(s, aux.Contents(), emitted);
      var top := PopLeast();
      var idx: nat := top.val;
      e := source.At(idx);
      assert top == Entry(s[idx].key, idx);
      AdmitChildren(idx);
      assert source.Valid() && source.Contents() == s;
      assert multiset(aux.Contents()) == bag - multiset{Entry(s[idx].key, idx)} + ChildEntries(s, idx, 4);
      EmitNext(s, bag, emitted, idx);
      emitted := emitted + [idx];
    }

    /** `heap_aux_pop`. */
    method PopLeast() returns (top: Entry<int>)
      requires aux.Valid() && aux.size > 0
      modifies aux.Footprint()
      ensures aux.Valid() && aux.Footprint() == old(aux.Footprint())
      ensures top == old(aux.Contents()[0])
      ensures multiset(aux.Contents()) == old(multiset(aux.Contents())) - multiset{top}
    {
      hide Heap, Pop, PriorityQueue.Contents;
      PopKeepsHeap(aux.Contents());
      var _, e := aux.Take();
      top := e;
    }

    /** Pushes the children of an emitted index. */
    method AdmitChildren(idx: nat)
      requires source.Valid() && aux.Valid() && source.Footprint() !! aux.Footprint()
      requires this !in aux.Footprint()
      modifies aux.Footprint()
      ensures source.Valid() && aux.Valid() && source.Footprint() !! aux.Footprint() && this !in aux.Footprint()
      ensures fresh(aux.Footprint() - old(aux.Footprint()))
      ensures source.Contents() == old(source.Contents())
      ensures multiset(aux.Contents()) == old(multiset(aux.Contents())) + ChildEntries(source.Contents(), idx, 4)
    {
      hide PriorityQueue.Valid, PriorityQueue.Contents, ChildEntries;
      ghost var s, rest := source.Contents(), multiset(aux.Contents());
      var c := 0;
      ChildEntriesNext(s, idx, 0);
      while c < 4
        invariant 0 <= c <= 4 && source.Valid() && source.Contents() == s && aux.Valid()
        invariant fresh(aux.Footprint() - old(aux.Footprint())) && source.Footprint() !! aux.Footprint()
        invariant this !in aux.Footprint()
        invariant multiset(aux.Contents()) == rest + ChildEntries(s, idx, c)
      {
        ChildEntriesNext(s, idx, c);
        AdmitChild(idx * 4 + 1 + c);
        c := c + 1;
      }
    }

    /** Pushes one index, if the heap has it. */
    method AdmitChild(ci: nat)
      requires source.Valid() && aux.Valid() && source.Footprint() !! aux.Footprint()
      requires this !in aux.Footprint()
      modifies aux.Footprint()
      ensures source.Valid() && aux.Valid() && source.Footprint() !! aux.Footprint() && this !in aux.Footprint()
      ensures fresh(aux.Footprint() - old(aux.Footprint()))
      ensures source.Contents() == old(source.Contents())
      ensures var s := source.Contents();
              multiset(aux.Contents()) == old(multiset(aux.Contents())) +
                if ci < |s| then multiset{Entry(s[ci].key, ci)} else multiset{}
    {
      hide Heap, Push, PriorityQueue.Contents;
      if ci < source.size {
        PushKeepsHeap(aux.Contents(), Entry(source.keys[ci], ci));
        aux.Add(source.keys[ci], ci);
      }
    }

    lemma AllEmitted(s: seq<Entry<V>>)
      requires Valid(s) && aux.size == 0
      ensures forall i :: 0 <= i < |s| ==> i in emitted
    {
      NothingOnFrontier(s, emitted);
      forall i | 0 <= i < |s| ensures i in emitted {
        EmptyFrontierMeansAll(emitted, |s|, i);
      }
    }
  }

  /** Before anything is emitted the frontier is the root. */
  lemma FirstFrontier<V>(s: seq<Entry<V>>)
    requires s != []
    ensures HoldsFrontier(s, multiset{Entry(s[0].key, 0)}, []) && EmittedOk(s, [])
  {
  }

  lemma NoFrontier<V>(s: seq<Entry<V>>)
    requires s == []
    ensures HoldsFrontier(s, multiset{}, []) && EmittedOk(s, [])
  {
  }

  /** The root of the auxiliary heap is a least frontier index. */
  lemma LeastFrontier<V>(s: seq<Entry<V>>, aux: seq<Entry<int>>, emitted: seq<nat>)
    requires Heap(aux) && aux != [] && HoldsFrontier(s, multiset(aux), emitted)
    ensures var i := aux[0].val;
            && 0 <= i < |s| && aux[0].key == s[i].key && OnFrontier(emitted, i)
            && forall j :: 0 <= j < |s| && OnFrontier(emitted, j) ==> s[i].key <= s[j].key
  {
    hide OnFrontier, Heap;
    RootIsMinimum(aux);
    assert aux[0] in multiset(aux);
    forall j: nat | j < |s| && OnFrontier(emitted, j) ensures aux[0].key <= s[j].key {
      assert Entry(s[j].key, j) in multiset(aux);
    }
  }

  /** Emitting a least frontier index keeps both halves of the drain's invariant. */
  lemma EmitNext<V>(s: seq<Entry<V>>, aux: multiset<Entry<int>>, emitted: seq<nat>, i: nat)
    requires HoldsFrontier(s, aux, emitted) && EmittedOk(s, emitted)
    requires i < |s| && OnFrontier(emitted, i)
    requires forall j :: 0 <= j < |s| && OnFrontier(emitted, j) ==> s[i].key <= s[j].key
    requires Heap(s)
    ensures HoldsFrontier(s, aux - multiset{Entry(s[i].key, i)} + ChildEntries(s, i, 4), emitted + [i])
    ensures EmittedOk(s, emitted + [i])
  {
    hide HoldsFrontier, EmittedOk, OnFrontier, Heap, ChildEntries;
    EmitKeepsFrontier(s, aux, emitted, i);
    EmitKeepsOrder(s, emitted, i);
  }

  lemma NothingOnFrontier<V>(s: seq<Entry<V>>, emitted: seq<nat>)
    requires HoldsFrontier(s, multiset{}, emitted)
    ensures forall j :: 0 <= j < |s| ==> !OnFrontier(emitted, j)
  {
    var none: multiset<Entry<int>> := multiset{};
    forall j: nat | j < |s| ensures !OnFrontier(emitted, j) {
      assert none[Entry(s[j].key, j)] == 0;
    }
  }

  /** The entries at a list of indices. */
  function Pick<V>(s: seq<Entry<V>>, idx: seq<nat>): (r: seq<Entry<V>>)
    requires forall k :: 0 <= k < |idx| ==> idx[k] < |s|
    ensures |r| == |idx| && forall k :: 0 <= k < |idx| ==> r[k] == s[idx[k]]
  {
    if idx == [] then [] else Pick(s, idx[..|idx| - 1]) + [s[idx[|idx| - 1]]]
  }

  /** A finished drain yields all entries in nondecreasing key order, each index once,
  whatever the batch boundaries. */
  lemma DrainComplete<V>(s: seq<Entry<V>>, emitted: seq<nat>)
    requires EmittedOk(s, emitted) && forall i :: 0 <= i < |s| ==> i in emitted
    ensures SortedKeys(Pick(s, emitted)) && multiset(Pick(s, emitted)) == multiset(s)
  {
    PickAll(s, emitted);
  }

  lemma {:induction false} PickAll<V>(s: seq<Entry<V>>, idx: seq<nat>)
    requires forall k :: 0 <= k < |idx| ==> idx[k] < |s|
    requires forall j, k :: 0 <= j < k < |idx| ==> idx[j] != idx[k]
    requires forall i :: 0 <= i < |s| ==> i in idx
    ensures multiset(Pick(s, idx)) == multiset(s)
    decreases |s|
  {
    hide Pick;
    assert |idx| > 0 ==> idx[0] < |s|;
    if s != [] {
      var n := |s| - 1;
      assert n in idx;
      var p :| 0 <= p < |idx| && idx[p] == n;
      var rest := idx[..p] + idx[p + 1..];
      StillAll(idx, p, n);
      assert forall k :: 0 <= k < |rest| ==> rest[k] < n;
      PickAll(s[..n], rest);
      PickWithout(s, idx, p, n);
      assert s == s[..n] + [s[n]];
    }
  }

  lemma StillAll(idx: seq<nat>, p: nat, n: nat)
    requires p < |idx| && idx[p] == n
    requires forall k :: 0 <= k < |idx| ==> idx[k] <= n
    requires forall j, k :: 0 <= j < k < |idx| ==> idx[j] != idx[k]
    requires forall i :: 0 <= i <= n ==> i in idx
    ensures var rest := idx[..p] + idx[p + 1..];
            && (forall i :: 0 <= i < n ==> i in rest)
            && (forall k :: 0 <= k < |rest| ==> rest[k] < n)
            && (forall j, k :: 0 <= j < k < |rest| ==> rest[j] != rest[k])
  {
    var rest := idx[..p] + idx[p + 1..];
    forall i | 0 <= i < n ensures i in rest {
      assert i in idx;
      var q :| 0 <= q < |idx| && idx[q] == i;
      if q < p {
        assert rest[q] == i;
      } else {
        assert q != p && rest[q - 1] == idx[p + 1..][q - 1 - p] == i;
      }
    }
  }

  lemma PickWithout<V>(s: seq<Entry<V>>, idx: seq<nat>, p: nat, n: nat)
    requires p < |idx| && idx[p] == n < |s|
    requires forall k :: 0 <= k < |idx| ==> idx[k] < |s|
    requires forall k :: 0 <= k < |idx| && k != p ==> idx[k] < n
    ensures multiset(Pick(s, idx)) == multiset(Pick(s[..n], idx[..p] + idx[p + 1..])) + multiset{s[n]}
  {
    hide Pick;
    var all, rest := Pick(s, idx), idx[..p] + idx[p + 1..];
    assert all[..p] + all[p + 1..] == Pick(s[..n], rest);
    assert all == all[..p] + [all[p]] + all[p + 1..];
  }
}
