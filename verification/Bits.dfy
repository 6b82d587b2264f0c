/** Powers of two, bit masks and the arithmetic of ring indices.

The runtime indexes every ring and table with `pos & (cap - 1)`.  `BitAnd` is
the bitwise conjunction of two naturals; the lemmas here show that masking with
one less than a power of two is a remainder, which is all the other modules use.

The multiplication and division lemmas are stated one fact at a time, because the proofs
elsewhere name the instances they need. */
module Bits {

  function Pow2(k: nat): (r: nat)
    ensures r >= 1
  {
    if k == 0 then 1 else 2 * Pow2(k - 1)
  }

  ghost predicate IsPow2(n: nat) {
    exists k: nat :: n == Pow2(k)
  }

  lemma Doubled(n: nat)
    requires IsPow2(n)
    ensures IsPow2(2 * n) && 2 * n > n
  {
    var k: nat :| n == Pow2(k);
    assert 2 * n == Pow2(k + 1);
  }

  /** Bitwise `&` on naturals, least significant bit first. */
  function BitAnd(x: nat, y: nat): (r: nat)
  {
    if x == 0 || y == 0 then 0
    else (x % 2) * (y % 2) + 2 * BitAnd(x / 2, y / 2)
  }

  lemma {:induction false} MaskIsRemainder(x: nat, k: nat)
    ensures BitAnd(x, Pow2(k) - 1) == x % Pow2(k)
  {
    if k == 0 || x == 0 {
    } else {
      var h := Pow2(k - 1);
      assert (Pow2(k) - 1) / 2 == h - 1 && (Pow2(k) - 1) % 2 == 1;
      MaskIsRemainder(x / 2, k - 1);
      HalvedRemainder(x, h);
      if k == 1 {
        assert BitAnd(x / 2, 0) == 0;
      }
    }
  }

  lemma HalvedRemainder(x: nat, h: nat)
    requires h >= 1
    ensures x % (2 * h) == x % 2 + 2 * ((x / 2) % h)
  {
    var q, r := (x / 2) / h, (x / 2) % h;
    assert x / 2 == h * q + r;
    assert x == (2 * h) * q + (2 * r + x % 2);
    RemainderUnique(x, 2 * h, q, 2 * r + x % 2);
  }

  /** A multiple of `m` strictly between `-m` and `m` is zero. */
  lemma SmallMultiple(m: int, d: int)
    requires -m < m * d < m
    ensures d == 0
  {
  }

  lemma DivisionLaw(x: int, m: int)
    requires m >= 1
    ensures x == m * (x / m) + x % m && 0 <= x % m < m
  {
  }

  lemma RemainderUnique(x: int, m: nat, q: int, r: int)
    requires m >= 1
    requires x == m * q + r && 0 <= r < m
    ensures x % m == r && x / m == q
  {
    DivisionLaw(x, m);
    ghost var a, b := x / m, x % m;
    Distribute(m, q, a);
    SmallMultiple(m, q - a);
  }

  lemma Distribute(m: int, a: int, b: int)
    ensures m * (a - b) == m * a - m * b
  {
  }

  // ----- ring slots: the index of a position in a power-of-two buffer -----

  /** `pos & (cap - 1)`, the index of a position in a power-of-two buffer. */
  function Slot(pos: nat, cap: nat): (r: nat)
    requires IsPow2(cap)
    ensures r < cap
  {
    SlotIsRemainder(pos, cap);
    BitAnd(pos, cap - 1)
  }

  lemma SlotIsRemainder(pos: nat, cap: nat)
    requires IsPow2(cap)
    ensures cap >= 1 && BitAnd(pos, cap - 1) == pos % cap
  {
    var k: nat :| cap == Pow2(k);
    MaskIsRemainder(pos, k);
  }

  lemma SlotBody(pos: nat, cap: nat)
    requires IsPow2(cap)
    ensures cap >= 1 && Slot(pos, cap) == pos % cap
  {
    SlotIsRemainder(pos, cap);
  }

  /** Positions closer together than the capacity never share a slot. */
  lemma SlotsApart(p: nat, q: nat, cap: nat)
    requires IsPow2(cap)
    requires p < q < p + cap
    ensures Slot(p, cap) != Slot(q, cap)
  {
    SlotIsRemainder(p, cap);
    SlotIsRemainder(q, cap);
    if p % cap == q % cap {
      DivisionLaw(p, cap);
      DivisionLaw(q, cap);
      Distribute(cap, q / cap, p / cap);
      SmallMultiple(cap, q / cap - p / cap);
    }
  }

  lemma NextLap(p: nat, m: nat)
    requires m >= 1
    ensures (p + m) % m == p % m
  {
    DivisionLaw(p, m);
    Distribute(m, p / m, -1);
    RemainderUnique(p + m, m, p / m + 1, p % m);
  }

  /** Positions one lap apart share their slot. */
  lemma SlotPeriodic(p: nat, cap: nat)
    requires IsPow2(cap)
    ensures Slot(p + cap, cap) == Slot(p, cap)
  {
    SlotIsRemainder(p, cap);
    SlotIsRemainder(p + cap, cap);
    NextLap(p, cap);
  }

  lemma SlotOfSmall(p: nat, cap: nat)
    requires IsPow2(cap) && p < cap
    ensures Slot(p, cap) == p
  {
    SlotIsRemainder(p, cap);
    RemainderUnique(p, cap, 0, p);
  }
}
