/** Small facts about finite sets that several protocols count with. */
module Sets {

  predicate Within(lo: nat, p: nat, hi: nat) {
    lo <= p < hi
  }

  /** The naturals from `lo` up to but not including `hi`. */
  ghost function Interval(lo: nat, hi: nat): (r: set<nat>)
    requires lo <= hi
    ensures forall p :: p in r <==> lo <= p < hi
    ensures |r| == hi - lo
  {
    IntervalSize(lo, hi);
    set p: nat | lo <= p < hi && Within(lo, p, hi)
  }

  lemma {:induction false} IntervalSize(lo: nat, hi: nat)
    requires lo <= hi
    ensures |set p: nat | lo <= p < hi && Within(lo, p, hi)| == hi - lo
    decreases hi - lo
  {
    var all := set p: nat | lo <= p < hi && Within(lo, p, hi);
    if lo == hi {
      assert all == {};
    } else {
      var top := hi - 1;
      IntervalSize(lo, top);
      assert all == (set p: nat | lo <= p < top && Within(lo, p, top)) + {top};
    }
  }

  lemma SubsetSize<T>(a: set<T>, b: set<T>)
    requires a <= b
    ensures |a| <= |b|
    ensures |a| == |b| ==> a == b
  {
    assert b == a + (b - a);
  }

  /** An injective map has as many values as keys. */
  lemma {:induction false} InjectiveImage<T, V>(pos: map<T, V>)
    requires forall x, y :: x in pos && y in pos && pos[x] == pos[y] ==> x == y
    ensures |pos.Values| == |pos|
    decreases |pos|
  {
    if pos != map[] {
      var x :| x in pos;
      var rest := pos - {x};
      InjectiveImage(rest);
      forall v | v in pos.Values ensures v in rest.Values + {pos[x]} {
        var y :| y in pos && pos[y] == v;
        assert y != x ==> y in rest && rest[y] == v;
      }
      assert pos.Values == rest.Values + {pos[x]};
    }
  }
}
