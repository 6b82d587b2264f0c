/** Triangular probing over a power-of-two number of groups: offsets 0, 1, 3, 6, ...
reach every group before any group repeats (bootstrap/cell.c:1895-1947). */
module Probe {
  // Two rounds in the same group would make twice the group count divide a product of two
  // smaller numbers of opposite parity, which a power of two cannot do.

  import opened Bits
  import opened Sets

  /** `probe_offset` after `k` rounds of `probe_step++; probe_offset += probe_step`. */
  function Triangle(k: nat): (r: nat) {
    if k == 0 then 0 else Triangle(k - 1) + k
  }

  /** The group visited in round `k` by a probe that starts at `home`. */
  function Group(home: nat, ng: nat, k: nat): (g: nat)
    requires IsPow2(ng)
    ensures g < ng
  {
    Slot(home + Triangle(k), ng)
  }

  /** The loop's running offset names the group of its round. */
  lemma RoundGroup(home: nat, ng: nat, offset: nat, step: nat)
    requires IsPow2(ng) && offset == Triangle(step)
    ensures Slot(home + offset, ng) == Group(home, ng, step)
    ensures offset + (step + 1) == Triangle(step + 1)
  {
  }

  lemma FirstRound()
    ensures Triangle(0) == 0
  {
  }

  lemma {:induction false} TriangleTwice(k: nat)
    ensures 2 * Triangle(k) == k * (k + 1)
  {
    if k > 0 {
      TriangleTwice(k - 1);
    }
  }

  /** A power of two that divides a product divides the factor beside an odd one. */
  lemma {:induction false} OddFactor(n: nat, a: nat, b: nat, c: int) returns (c': int)
    requires a % 2 == 1 && a * b == Pow2(n) * c
    ensures b == Pow2(n) * c'
  {
    if n == 0 {
      c' := b;
    } else {
      var half := Pow2(n - 1) * c;
      assert a * b == 2 * half;
      EvenFactor(a, b);
      var b2 := b / 2;
      assert a * b2 == half by {
        assert 2 * (a * b2) == a * (2 * b2);
      }
      c' := OddFactor(n - 1, a, b2, c);
      assert 2 * (Pow2(n - 1) * c') == (2 * Pow2(n - 1)) * c';
    }
  }

  lemma EvenFactor(a: nat, b: nat)
    requires a % 2 == 1 && (a * b) % 2 == 0
    ensures b % 2 == 0
  {
    if b % 2 == 1 {
      OddTimesOdd(a, b);
    }
  }

  lemma OddTimesOdd(a: nat, b: nat)
    requires a % 2 == 1 && b % 2 == 1
    ensures (a * b) % 2 == 1
  {
    var x, y := a / 2, b / 2;
    assert a * b == (2 * x + 1) * (2 * y + 1) == 2 * (2 * x * y + x + y) + 1;
  }

  /** Numbers with equal remainders differ by a multiple. */
  lemma SameRemainder(x: nat, y: nat, m: nat) returns (c: int)
    requires m >= 1 && x % m == y % m
    ensures y - x == m * c
  {
    DivisionLaw(x, m);
    DivisionLaw(y, m);
    Distribute(m, y / m, x / m);
    c := y / m - x / m;
  }

  /** Two factors of opposite parity below a power of two: their product is no multiple
  of it. */
  lemma NoMultipleOfOppositeParity(n: nat, a: nat, b: nat, c: int)
    requires (a + b) % 2 == 1 && 0 < a < Pow2(n) && 0 < b < Pow2(n)
    ensures a * b != Pow2(n) * c
  {
    if a * b == Pow2(n) * c {
      hide Pow2;
      if a % 2 == 1 {
        var c' := OddFactor(n, a, b, c);
        SmallMultiple(Pow2(n), c');
      } else {
        Commute(a, b);
        var c' := OddFactor(n, b, a, c);
        SmallMultiple(Pow2(n), c');
      }
    }
  }

  lemma Commute(a: int, b: int)
    ensures a * b == b * a
  {
  }

  /** `(j - i)(j + i + 1)` is twice the distance between two triangular numbers. */
  lemma TrianglesDiffer(n: nat, i: nat, j: nat, c: int)
    requires i < j < Pow2(n)
    ensures Triangle(j) - Triangle(i) != Pow2(n) * c
  {
    hide Triangle;
    TriangleTwice(i);
    TriangleTwice(j);
    ProductOfGap(i, j);
    Regroup(Pow2(n), c);
    NoMultipleOfOppositeParity(n + 1, j - i, j + i + 1, c);
  }

  lemma Regroup(m: int, c: int)
    ensures 2 * (m * c) == (2 * m) * c
  {
  }

  lemma RoundsDiffer(home: nat, ng: nat, i: nat, j: nat)
    requires IsPow2(ng) && i < j < ng
    ensures Group(home, ng, i) != Group(home, ng, j)
  {
    hide Triangle;
    var n: nat :| ng == Pow2(n);
    var x, y := home + Triangle(i), home + Triangle(j);
    SlotIsRemainder(x, ng);
    SlotIsRemainder(y, ng);
    if x % ng == y % ng {
      var c := SameRemainder(x, y, ng);
      TrianglesDiffer(n, i, j, c);
    }
  }

  lemma ProductOfGap(i: int, j: int)
    ensures (j - i) * (j + i + 1) == j * (j + 1) - i * (i + 1)
  {
  }

  /** The groups of the first `n` rounds. */
  ghost function Visited(home: nat, ng: nat, n: nat): (r: set<nat>)
    requires IsPow2(ng)
  {
    set k | 0 <= k < n :: Group(home, ng, k)
  }

  lemma {:induction false} VisitedSize(home: nat, ng: nat, n: nat)
    requires IsPow2(ng) && n <= ng
    ensures |Visited(home, ng, n)| == n
  {
    hide Group;
    if n > 0 {
      VisitedSize(home, ng, n - 1);
      var last := Group(home, ng, n - 1);
      assert Visited(home, ng, n) == Visited(home, ng, n - 1) + {last};
      forall k | 0 <= k < n - 1 ensures Group(home, ng, k) != last {
        RoundsDiffer(home, ng, k, n - 1);
      }
    }
  }

  /** The first `ng` rounds visit every group. */
  lemma EveryGroupVisited(home: nat, ng: nat, g: nat)
    requires IsPow2(ng) && g < ng
    ensures exists k :: 0 <= k < ng && Group(home, ng, k) == g
  {
    hide Group;
    VisitedSize(home, ng, ng);
    SubsetSize(Visited(home, ng, ng), Interval(0, ng));
    assert g in Visited(home, ng, ng);
  }
}
