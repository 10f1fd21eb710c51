/** Fixed-width words: the integer widths of the C sources, written out over `int`. */
module Words {

  type u8 = x: int | 0 <= x < 0x100
  type u16 = x: int | 0 <= x < 0x1_0000
  type u32 = x: int | 0 <= x < 0x1_0000_0000
  type u64 = x: int | 0 <= x < 0x1_0000_0000_0000_0000

  const UINT64_MAX: u64 := 0xFFFF_FFFF_FFFF_FFFF

  /** Truncation to 32 bits: what storing any integer in a `uint32_t` leaves. */
  function Wrap(x: int): (w: u32) {
    if 0 <= x < 0x1_0000_0000 then x else x % 0x1_0000_0000
  }

  lemma WrapIsMod(x: int)
    ensures Wrap(x) == x % 0x1_0000_0000
  {
  }

  /** Whole turns do not change the word. */
  lemma WrapShift(x: int, k: int)
    ensures Wrap(x + 0x1_0000_0000 * k) == Wrap(x)
  {
    WrapIsMod(x);
    WrapIsMod(x + 0x1_0000_0000 * k);
  }

  lemma WrapOfSum(x: int, y: int)
    ensures Wrap(x + Wrap(y)) == Wrap(x + y)
  {
    WrapIsMod(y);
    WrapShift(x + y, -(y / 0x1_0000_0000));
  }

  lemma WrapBack(x: int, w: u32)
    ensures Wrap(x + Wrap(w - Wrap(x))) == w
  {
    WrapOfSum(x, w - Wrap(x));
    WrapIsMod(x);
    WrapShift(w, x / 0x1_0000_0000);
  }

  /** Reading a `uint32_t` as an `int32_t`. */
  function Signed(w: u32): (d: int)
    ensures -0x8000_0000 <= d < 0x8000_0000
    ensures Wrap(d) == w
  {
    if w < 0x8000_0000 then w else w - 0x1_0000_0000
  }

  function Pow2(k: nat): (p: nat)
    ensures p >= 1
  {
    if k == 0 then 1 else 2 * Pow2(k - 1)
  }

  /** Bitwise `x & y`, bit by bit. */
  function And(x: nat, y: nat): (z: nat)
    ensures z <= y
    decreases x
  {
    if x == 0 || y == 0 then 0
    else (if x % 2 == 1 && y % 2 == 1 then 1 else 0) + 2 * And(x / 2, y / 2)
  }

  /** Whether `mask & (1U << i)` is non-zero. */
  predicate Bit(mask: nat, i: nat) {
    if i == 0 then mask % 2 == 1 else Bit(mask / 2, i - 1)
  }

  /** A number with exactly one bit set. */
  ghost predicate PowerOfTwo(c: nat) {
    exists k: nat :: c == Pow2(k)
  }

  // ---------------------------------------------------------------- sequences

  lemma Assoc<T>(a: seq<T>, b: seq<T>, c: seq<T>)
    ensures (a + b) + c == a + (b + c)
  {
  }

  // ---------------------------------------------------------------- sets

  function Below(n: nat): (r: set<nat>)
    ensures |r| == n
    ensures forall i: nat :: i in r <==> i < n
  {
    if n == 0 then {} else Below(n - 1) + {n - 1}
  }

  lemma {:induction false} SubsetSize(a: set<nat>, b: set<nat>)
    requires a <= b
    ensures |a| <= |b|
  {
    if a != {} {
      var x :| x in a;
      SubsetSize(a - {x}, b - {x});
    }
  }

  // ---------------------------------------------------------------- division

  lemma MultipleBelow(d: int, k: int)
    requires d > 0
    ensures -d < d * k < d ==> k == 0
  {
    if k >= 1 {
      assert d * (k - 1) >= 0;
    } else if k <= -1 {
      assert d * (-1 - k) >= 0;
    }
  }

  lemma DivModUnique(x: int, d: int, q: int, r: int)
    requires d > 0 && 0 <= r < d && x == d * q + r
    ensures x / d == q && x % d == r
  {
    var k := x / d - q;
    assert d * k == r - x % d by {
      assert x == d * (x / d) + x % d;
      assert d * k == d * (x / d) - d * q;
    }
    MultipleBelow(d, k);
  }

  /** Reducing first modulo a multiple of `d` does not change the residue modulo `d`. */
  lemma ModOfMultiple(x: int, d: int, m: int)
    requires d > 0 && m > 0
    ensures d * m > 0 && (x % (d * m)) % d == x % d
  {
    var big := d * m;
    var q, r := x / big, x % big;
    var q', r' := r / d, r % d;
    assert x == big * q + r && r == d * q' + r';
    assert x == d * (m * q + q') + r' by {
      assert big * q == d * (m * q);
    }
    DivModUnique(x, d, m * q + q', r');
  }

  lemma SameResidue(x: int, y: int, d: int)
    requires d > 0 && x % d == y % d && -d < x - y < d
    ensures x == y
  {
    var k := x / d - y / d;
    assert d * k == x - y by {
      assert x == d * (x / d) + x % d;
      assert y == d * (y / d) + y % d;
      assert d * k == d * (x / d) - d * (y / d);
    }
    MultipleBelow(d, k);
  }

  lemma ShiftByModulus(x: int, d: int)
    requires d > 0
    ensures (x + d) % d == x % d
  {
    DivModUnique(x + d, d, x / d + 1, x % d);
  }

  // ---------------------------------------------------------------- powers of two

  lemma {:induction false} Pow2Add(a: nat, b: nat)
    ensures Pow2(a + b) == Pow2(a) * Pow2(b)
    decreases a
  {
    if a != 0 {
      Pow2Add(a - 1, b);
      assert Pow2(a + b) == 2 * (Pow2(a - 1) * Pow2(b));
    }
  }

  lemma {:induction false} Pow2Monotone(a: nat, b: nat)
    requires a <= b
    ensures Pow2(a) <= Pow2(b)
    decreases b
  {
    if a < b { Pow2Monotone(a, b - 1); }
  }

  lemma Pow2Of32()
    ensures Pow2(16) == 0x1_0000
    ensures Pow2(30) == 0x4000_0000
    ensures Pow2(32) == 0x1_0000_0000
  {
    assert Pow2(4) == 16;
    assert Pow2(8) == 256 by { Pow2Add(4, 4); }
    assert Pow2(16) == 0x1_0000 by { Pow2Add(8, 8); }
    assert Pow2(32) == 0x1_0000_0000 by { Pow2Add(16, 16); }
  }

  /** `x & (2^k - 1)` is the remainder of x by 2^k. */
  lemma AndMask(x: nat, k: nat)
    ensures And(x, Pow2(k) - 1) == x % Pow2(k)
  {
    var q := AndMaskQuotient(x, k);
    DivModUnique(x, Pow2(k), q, And(x, Pow2(k) - 1));
  }

  lemma {:induction false} AndMaskQuotient(x: nat, k: nat) returns (q: nat)
    ensures x == Pow2(k) * q + And(x, Pow2(k) - 1)
    decreases k
  {
    if k == 0 {
      q := x;
    } else {
      q := AndMaskQuotient(x / 2, k - 1);
      AndLowBit(x, Pow2(k - 1));
      DoubledProduct(x, Pow2(k - 1), q, And(x / 2, Pow2(k - 1) - 1));
    }
  }

  lemma AndLowBit(x: nat, p: nat)
    requires p >= 1
    ensures And(x, 2 * p - 1) == x % 2 + 2 * And(x / 2, p - 1)
  {
    assert (2 * p - 1) / 2 == p - 1;
  }

  lemma DoubledProduct(x: nat, p: nat, q: nat, m: nat)
    requires x / 2 == p * q + m
    ensures x == (2 * p) * q + (x % 2 + 2 * m)
  {
    assert (2 * p) * q == 2 * (p * q);
  }

  /** Between 2^30 and 2^32 there is one power of two. */
  lemma TopPowerOfTwo(c: nat)
    requires PowerOfTwo(c) && 0x4000_0000 < c < 0x1_0000_0000
    ensures c == 0x8000_0000
  {
    var k: nat :| c == Pow2(k);
    assert Pow2(15) == 0x8000 && Pow2(16) == 0x1_0000;
    Pow2Add(15, 16);
    if k < 31 { Pow2Monotone(k, 30); }
    if k > 31 { Pow2Monotone(32, k); }
  }

  /** The C test `c & (c - 1) == 0` accepts exactly the powers of two. */
  lemma {:induction false} PowerOfTwoTest(c: nat)
    requires c >= 1
    ensures And(c, c - 1) == 0 <==> PowerOfTwo(c)
    decreases c
  {
    if c == 1 {
      assert c == Pow2(0);
    } else if c % 2 == 1 {
      assert And(c / 2, (c - 1) / 2) == And(c / 2, c / 2);
      AndSelf(c / 2);
      forall k: nat ensures c != Pow2(k) {
        assert k == 0 || Pow2(k) == 2 * Pow2(k - 1);
      }
    } else {
      var h := c / 2;
      PowerOfTwoTest(h);
      assert (c - 1) / 2 == h - 1;
      assert And(c, c - 1) == 2 * And(h, h - 1);
      if PowerOfTwo(c) {
        var k: nat :| c == Pow2(k);
        assert h == Pow2(k - 1);
      }
      if PowerOfTwo(h) {
        var k: nat :| h == Pow2(k);
        assert c == Pow2(k + 1);
      }
    }
  }

  lemma {:induction false} AndSelf(x: nat)
    ensures And(x, x) == x
  {
    if x != 0 { AndSelf(x / 2); }
  }

  // ---------------------------------------------------------------- bits of a mask

  /** Setting a bit above every bit already set, as `mask |= 1U << i` does. */
  lemma {:induction false} BitOfSum(mask: nat, i: nat, j: nat)
    requires mask < Pow2(i)
    ensures Bit(mask + Pow2(i), j) <==> j == i || Bit(mask, j)
    ensures j >= i ==> !Bit(mask, j)
    decreases j
  {
    if i == 0 {
      ZeroHasNoBits(j);
      if j > 0 { ZeroHasNoBits(j - 1); }
    } else if j > 0 {
      assert (mask + Pow2(i)) / 2 == mask / 2 + Pow2(i - 1);
      BitOfSum(mask / 2, i - 1, j - 1);
    }
  }

  lemma {:induction false} ZeroHasNoBits(j: nat)
    ensures !Bit(0, j)
  {
    if j > 0 { ZeroHasNoBits(j - 1); }
  }
}
