/** The priority-queue object: parallel key and value arrays, sifting by moving a hole
(bootstrap/cell.c:2591-2776).

Every method is proved against a function of `HeapSpec` on the sequence of entries: the
hole moves along the arrays, the element is stored once at the end, and the result is the
same as that of swapping entries one by one. */
module PriorityHeap {
  import opened HeapSpec

  const MIN_CAP: nat := 16

  class PriorityQueue<V(0)> {
    var keys: array<real>
    var vals: array<V>
    var size: nat
    var capacity: nat

    ghost predicate Shape()
      reads this
    {
      keys.Length == vals.Length == capacity >= 1 && size <= capacity && keys as object != vals
    }

    /** The objects the queue owns. */
    ghost function Footprint(): (f: set<object>)
      reads this
    {
      {this, keys, vals}
    }

    /** The entry stored at index `i`. */
    function At(i: nat): (e: Entry<V>)
      requires i < keys.Length && i < vals.Length
      reads this, keys, vals
    {
      Entry(keys[i], vals[i])
    }

    /** The entries in array order. */
    ghost function Contents(): (s: seq<Entry<V>>)
      requires Shape()
      reads this, keys, vals
      ensures |s| == size
      ensures forall i :: 0 <= i < size ==> s[i] == At(i)
    {
      seq(size, i requires 0 <= i < size && Shape() reads this, keys, vals => At(i))
    }

    ghost predicate Valid()
      reads this, keys, vals
      ensures Valid() ==> Shape() && Heap(Contents())
    {
      Shape() && Heap(Contents())
    }

    constructor ()
      ensures Valid() && Contents() == [] && fresh(keys) && fresh(vals)
    {
      capacity, size := MIN_CAP, 0;
      keys := new real[MIN_CAP];
      vals := new V[MIN_CAP];
    }

    /** `heap4_grow`. */
    method Grow()
      requires Shape()
      modifies this`keys, this`vals, this`capacity
      ensures Shape() && size < capacity && Contents() == old(Contents())
      ensures fresh(keys) && fresh(vals)
    {
      var newKeys := new real[2 * capacity];
      var newVals := new V[2 * capacity];
      forall i | 0 <= i < size { newKeys[i] := keys[i]; }
      forall i | 0 <= i < size { newVals[i] := vals[i]; }
      keys, vals, capacity := newKeys, newVals, 2 * capacity;
    }

    /** Stores an entry. */
    method Put(i: nat, key: real, val: V)
      requires Shape() && i < size
      modifies keys, vals
      ensures Contents() == old(Contents())[i := Entry(key, val)]
    {
      keys[i] := key;
      vals[i] := val;
    }

    /** `heap4_sift_up`: parents move down into the hole, the element is stored once. */
    method SiftUpFrom(start: nat)
      requires Shape() && start < size
      modifies keys, vals
      ensures Contents() == SiftUp(old(Contents()), start)
    {
      hide SiftUp, Contents;
      ghost var filled := Contents();  // the hole at pos holding the element
      var pos := start;
      var key, val := keys[pos], vals[pos];
      while pos > 0
        invariant pos < size && filled == Contents()[pos := Entry(key, val)]
        invariant SiftUp(filled, pos) == SiftUp(old(Contents()), start)
        decreases pos
      {
        var p := (pos - 1) / 4;
        assert p == Parent(pos);
        SiftUpUnfold(filled, pos);
        assert filled[p] == At(p) && filled[pos] == Entry(key, val);
        if keys[p] <= key {
          break;
        }
        Put(pos, keys[p], vals[p]);
        filled := Swap(filled, pos, p);
        pos := p;
      }
      SiftUpUnfold(filled, pos);
      Put(pos, key, val);
    }

    /** `heap4_min_child`. */
    method SmallestChild(pos: nat) returns (b: nat)
      requires Shape() && FirstChild(pos) < size
      ensures b == MinChild(Contents(), pos)
    {
      var fc := 4 * pos + 1;
      b := fc;
      if fc + 1 < size && keys[fc + 1] < keys[b] { b := fc + 1; }
      if fc + 2 < size && keys[fc + 2] < keys[b] { b := fc + 2; }
      if fc + 3 < size && keys[fc + 3] < keys[b] { b := fc + 3; }
    }

    /** `heap4_sift_down`. */
    method SiftDownFrom(start: nat)
      requires Shape() && start < size
      modifies keys, vals
      ensures Contents() == SiftDown(old(Contents()), start)
    {
      hide SiftDown, MinChild, Contents;
      ghost var filled := Contents();
      var pos := start;
      var key, val := keys[pos], vals[pos];
      while 4 * pos + 1 < size
        invariant pos < size && filled == Contents()[pos := Entry(key, val)]
        invariant SiftDown(filled, pos) == SiftDown(old(Contents()), start)
        decreases size - pos
      {
        var mc := SmallestChild(pos);
        SameChildren(Contents(), filled, pos);
        SiftDownUnfold(filled, pos);
        assert filled[mc] == At(mc) && filled[pos] == Entry(key, val);
        if keys[mc] >= key {
          break;
        }
        Put(pos, keys[mc], vals[mc]);
        filled := Swap(filled, pos, mc);
        pos := mc;
      }
      SiftDownUnfold(filled, pos);
      Put(pos, key, val);
    }

    /** `cell_heap_push`. */
    method Add(priority: real, val: V)
      requires Valid()
      modifies this, keys, vals
      ensures Valid() && Contents() == Push(old(Contents()), Entry(priority, val))
      ensures keys == old(keys) || fresh(keys)
      ensures vals == old(vals) || fresh(vals)
    {
      ghost var s := Contents();
      if size == capacity {
        Grow();
      }
      var pos := size;
      keys[pos] := priority;
      vals[pos] := val;
      size := size + 1;
      assert Contents() == s + [Entry(priority, val)];
      SiftUpFrom(pos);
      PushKeepsHeap(s, Entry(priority, val));
    }

    /** `cell_heap_pop`: the least entry, or none. */
    method Take() returns (ok: bool, e: Entry<V>)
      requires Valid()
      modifies this`size, keys, vals
      ensures Valid() && ok == (old(Contents()) != [])
      ensures !ok ==> Contents() == []
      ensures ok ==> e == old(Contents())[0] && Contents() == Pop(old(Contents()))
    {
      hide Pop, Heap, SiftDown;
      ghost var s := Contents();
      e := *;
      if size == 0 {
        return false, e;
      }
      e := Entry(keys[0], vals[0]);
      size := size - 1;
      if size > 0 {
        Put(0, keys[size], vals[size]);
        assert Contents() == s[..size][0 := s[size]];
        SiftDownFrom(0);
      }
      PopKeepsHeap(s);
      PopUnfold(s);
      ok := true;
    }

    /** An unshared copy of the arrays. */
    method Copy() returns (r: PriorityQueue<V>)
      requires Valid()
      ensures fresh(r) && fresh(r.keys) && fresh(r.vals) && r.Valid() && r.Contents() == Contents()
    {
      r := new PriorityQueue();
      var newKeys := new real[capacity];
      var newVals := new V[capacity];
      forall i | 0 <= i < size { newKeys[i] := keys[i]; }
      forall i | 0 <= i < size { newVals[i] := vals[i]; }
      r.keys, r.vals, r.capacity, r.size := newKeys, newVals, capacity, size;
      assert r.Contents() == Contents();
    }

    /** `cell_heap_to_list`: the entries in key order, the heap itself unchanged. */
    method ToList() returns (list: seq<Entry<V>>)
      requires Valid()
      ensures list == Drained(Contents())
    {
      hide Drained, Pop, Heap, Contents;
      var tmp := Copy();
      list := [];
      while tmp.size > 0
        invariant fresh(tmp) && fresh(tmp.keys) && fresh(tmp.vals) && tmp.Valid()
        invariant list + Drained(tmp.Contents()) == Drained(Contents())
        decreases tmp.size
      {
        ghost var s := tmp.Contents();
        DrainedUnfold(s);
        PopShrinks(s);
        var _, e := tmp.Take();
        assert list + ([e] + Drained(tmp.Contents())) == list + [e] + Drained(tmp.Contents());
        list := list + [e];
      }
      DrainedUnfold(tmp.Contents());
    }
  }

  /** `cell_heap_merge`: all entries of both heaps pushed into a fresh one. */
  method Merge<V(0)>(h1: PriorityQueue<V>, h2: PriorityQueue<V>) returns (r: PriorityQueue<V>)
    requires h1.Valid() && h2.Valid()
    ensures fresh(r) && r.Valid()
    ensures multiset(r.Contents()) == multiset(h1.Contents()) + multiset(h2.Contents())
  {
    hide Heap, Push, PriorityQueue.Valid, PriorityQueue.Contents;
    r := new PriorityQueue();
    PushAll(r, h1);
    PushAll(r, h2);
  }

  method PushAll<V(0)>(r: PriorityQueue<V>, h: PriorityQueue<V>)
    requires r.Valid() && h.Valid()
    requires r.Footprint() !! h.Footprint()
    modifies r.Footprint()
    ensures r.Valid() && fresh(r.Footprint() - old(r.Footprint()))
    ensures multiset(r.Contents()) == multiset(old(r.Contents())) + multiset(h.Contents())
  {
    hide Heap, Push, PriorityQueue.Contents;
    ghost var before := multiset(r.Contents());
    var i := 0;
    while i < h.size
      invariant 0 <= i <= h.size && r.Valid() && h.Valid()
      invariant fresh(r.Footprint() - old(r.Footprint()))
      invariant r.Footprint() !! h.Footprint()
      invariant multiset(r.Contents()) == before + multiset(h.Contents()[..i])
    {
      var e := h.At(i);
      assert h.Contents()[..i + 1] == h.Contents()[..i] + [e];
      PushKeepsHeap(r.Contents(), e);
      r.Add(h.keys[i], h.vals[i]);
      i := i + 1;
    }
    assert h.Contents()[..i] == h.Contents();
  }
}
