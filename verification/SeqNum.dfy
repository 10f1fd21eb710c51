/** Serial-number comparison of 32-bit sequence numbers, and the ring position of a number. */
module SeqNum {
  import opened Words

  /** `(int32_t)(a - b)`. */
  function SeqDiff(a: u32, b: u32): (d: int) {
    Signed(Wrap(a - b))
  }

  predicate SeqLt(a: u32, b: u32) { SeqDiff(a, b) < 0 }
  predicate SeqLte(a: u32, b: u32) { SeqDiff(a, b) <= 0 }
  predicate SeqGt(a: u32, b: u32) { SeqDiff(a, b) > 0 }
  predicate SeqGte(a: u32, b: u32) { SeqDiff(a, b) >= 0 }

  /** The word on the wire for message number `n` of a window that started at `isn`. */
  function Wire(isn: int, n: int): (w: u32) {
    Wrap(isn + n)
  }

  /** Window capacities for which the `(int32_t)capacity` casts stay positive. */
  ghost predicate Capacity(cap: nat) {
    2 <= cap <= 0x4000_0000 && PowerOfTwo(cap)
  }

  /** `seq & (capacity - 1)`. */
  function Slot(w: u32, cap: nat): (k: nat)
    requires cap >= 1
    ensures k < cap
  {
    And(w, cap - 1)
  }

  /** The signed difference of two wrapped numbers is the true difference exactly while that
      difference fits an `int32_t`. */
  lemma DiffExact(x: int, y: int)
    ensures SeqDiff(Wrap(x), Wrap(y)) == x - y <==> -0x8000_0000 <= x - y < 0x8000_0000
  {
    WrapOfDifference(x, y);
  }

  lemma WrapOfDifference(x: int, y: int)
    ensures Wrap(Wrap(x) - Wrap(y)) == Wrap(x - y)
  {
    WrapIsMod(x);
    WrapIsMod(y);
    WrapShift(x - y, y / 0x1_0000_0000 - x / 0x1_0000_0000);
  }

  /** Comparison is a strict order except at distance exactly 2^31, where both directions hold. */
  lemma Antipodes(a: u32, b: u32)
    ensures SeqLt(a, b) && SeqLt(b, a) <==> Wrap(a - b) == 0x8000_0000
    ensures !SeqLt(a, b) && !SeqLt(b, a) <==> a == b
  {
  }

  lemma WireDiff(isn: int, m: int, n: int)
    ensures Wrap(Wire(isn, m) - Wire(isn, n)) == Wrap(m - n)
  {
    WrapOfDifference(isn + m, isn + n);
  }

  /** Numbers less than a capacity apart occupy distinct ring slots, across 32-bit wraparound too. */
  lemma SlotInjective(isn: int, m: int, n: int, cap: nat)
    requires Capacity(cap) && m - n < cap && n - m < cap
    ensures Slot(Wire(isn, m), cap) == Slot(Wire(isn, n), cap) ==> m == n
  {
    SlotResidue(isn + m, cap);
    SlotResidue(isn + n, cap);
    if Slot(Wire(isn, m), cap) == Slot(Wire(isn, n), cap) {
      SameResidue(isn + m, isn + n, cap);
    }
  }

  /** A number and its successor by a whole capacity share a ring slot. */
  lemma SlotPeriodic(isn: int, n: int, cap: nat)
    requires Capacity(cap)
    ensures Slot(Wire(isn, n + cap), cap) == Slot(Wire(isn, n), cap)
  {
    SlotResidue(isn + n, cap);
    SlotResidue(isn + n + cap, cap);
    ShiftByModulus(isn + n, cap);
    assert isn + (n + cap) == isn + n + cap;
  }

  lemma SlotResidue(x: int, cap: nat)
    requires Capacity(cap)
    ensures Slot(Wrap(x), cap) == x % cap
  {
    var k: nat :| cap == Pow2(k);
    WrapIsMod(x);
    Pow2Of32();
    if k > 32 { Pow2Monotone(32, k); }
    Pow2Add(k, 32 - k);
    AndMask(Wrap(x), k);
    ModOfMultiple(x, cap, Pow2(32 - k));
  }
}
