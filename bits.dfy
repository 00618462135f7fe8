/**
 * Bitwise operations on non-negative integers, used for the bit patterns of
 * Java `Int` and `Long` values (see module Jvm). `Or` and `Xor` are defined bit
 * by bit; the lemmas give the cases the mapping engine relies on: OR-ing values
 * whose set bits do not overlap is addition, and OR-ing with a run of ones
 * keeps the run.
 */
module Bits {
  function Pow2(n: nat): (r: nat)
    ensures r >= 1
  {
    if n == 0 then 1 else 2 * Pow2(n - 1)
  }

  /** v shifted right by s bits: halved s times. */
  function ShiftRight(v: nat, s: nat): nat
    decreases s
  {
    if s == 0 then v else ShiftRight(v / 2, s - 1)
  }

  /** v shifted left by s bits: doubled s times. */
  function ShiftLeft(v: nat, s: nat): nat
    decreases s
  {
    if s == 0 then v else ShiftLeft(2 * v, s - 1)
  }

  function Or(a: nat, b: nat): nat
    decreases a + b
  {
    if a == 0 then b
    else if b == 0 then a
    else 2 * Or(a / 2, b / 2) + (if a % 2 == 1 || b % 2 == 1 then 1 else 0)
  }

  function Xor(a: nat, b: nat): nat
    decreases a + b
  {
    if a == 0 then b
    else if b == 0 then a
    else 2 * Xor(a / 2, b / 2) + (if a % 2 != b % 2 then 1 else 0)
  }

  function And(a: nat, b: nat): nat
    decreases a + b
  {
    if a == 0 || b == 0 then 0
    else 2 * And(a / 2, b / 2) + (if a % 2 == 1 && b % 2 == 1 then 1 else 0)
  }

  /** The number of one bits (`Int.countOneBits` on a non-negative value). */
  function PopCount(a: nat): nat
  {
    if a == 0 then 0 else a % 2 + PopCount(a / 2)
  }

  /** Bit k of a. */
  function Bit(a: nat, k: nat): nat
  {
    if k == 0 then a % 2 else Bit(a / 2, k - 1)
  }

  lemma Pow2Add(m: nat, n: nat)
    ensures Pow2(m + n) == Pow2(m) * Pow2(n)
    decreases m
  {
    if m > 0 {
      Pow2Add(m - 1, n);
    }
  }

  /** One step of OR on an even left operand. */
  lemma OrStep(x: nat, y: nat)
    requires x % 2 == 0
    ensures Or(x, y) == 2 * Or(x / 2, y / 2) + y % 2
  {
    if x == 0 {
      OrZeroLeft(y / 2);
    } else if y == 0 {
      OrZeroRight(x / 2);
    }
  }

  lemma OrZeroLeft(b: nat)
    ensures Or(0, b) == b
  {
  }

  lemma OrZeroRight(a: nat)
    ensures Or(a, 0) == a
  {
  }

  lemma HalfFacts(a: nat, b: nat, lo: nat, p: nat)
    requires lo < 2 * p
    ensures (a * (2 * p)) % 2 == 0 && (a * (2 * p)) / 2 == a * p
    ensures (b * (2 * p) + lo) / 2 == b * p + lo / 2
    ensures (b * (2 * p) + lo) % 2 == lo % 2
    ensures lo / 2 < p
  {
    assert a * (2 * p) == 2 * (a * p);
    assert b * (2 * p) + lo == 2 * (b * p + lo / 2) + lo % 2;
  }

  lemma MulTwice(o: nat, p: nat)
    ensures 2 * (o * p) == o * (2 * p)
  {
  }

  /** OR-ing two numbers splits at any bit position k. */
  lemma {:induction false} OrSplit(a: nat, b: nat, lo: nat, k: nat)
    requires lo < Pow2(k)
    ensures Or(a * Pow2(k), b * Pow2(k) + lo) == Or(a, b) * Pow2(k) + lo
    decreases k
  {
    if k == 0 {
      assert lo == 0;
    } else {
      var p := Pow2(k - 1);
      var P := Pow2(k);
      assert P == 2 * p;
      var x, y := a * P, b * P + lo;
      HalfFacts(a, b, lo, p);
      assert x % 2 == 0 && x / 2 == a * p;
      assert y / 2 == b * p + lo / 2 && y % 2 == lo % 2;
      OrStep(x, y);
      assert Or(x, y) == 2 * Or(a * p, b * p + lo / 2) + lo % 2;
      OrSplit(a, b, lo / 2, k - 1);
      var o := Or(a, b);
      assert Or(x, y) == 2 * (o * p + lo / 2) + lo % 2;
      MulTwice(o, p);
    }
  }

  /** Bits below position k of a multiple of 2^k are free: OR is addition. */
  lemma OrDisjoint(a: nat, lo: nat, k: nat)
    requires lo < Pow2(k)
    ensures Or(a * Pow2(k), lo) == a * Pow2(k) + lo
  {
    var p := Pow2(k);
    OrSplit(a, 0, lo, k);
    assert 0 * p + lo == lo;
    OrZeroRight(a);
  }

  /** OR with a run of m ones absorbs every number below 2^m. */
  lemma {:induction false} OrOnes(a: nat, m: nat)
    requires a < Pow2(m)
    ensures Or(a, Pow2(m) - 1) == Pow2(m) - 1
    decreases m
  {
    var n := Pow2(m);
    if a == 0 {
      OrZeroLeft(n - 1);
    } else if m > 0 {
      var p := Pow2(m - 1);
      assert n == 2 * p;
      LowBitOfOdd(n - 1, p - 1);
      HalfBelow(a, p);
      OrOnes(a / 2, m - 1);
      OrOdd(a, n - 1, p - 1);
    }
  }

  lemma HalfBelow(a: nat, p: nat)
    requires a < 2 * p
    ensures a / 2 < p
  {
  }

  /** OR with an odd number sets the low bit. */
  lemma OrOdd(a: nat, m: nat, h: nat)
    requires a > 0 && m / 2 == h && m % 2 == 1 && Or(a / 2, h) == h
    ensures Or(a, m) == m
  {
    assert Or(a, m) == 2 * Or(a / 2, h) + 1;
  }

  lemma Pow2Four()
    ensures Pow2(4) == 16
  {
  }

  lemma Pow2Eight()
    ensures Pow2(8) == 256
  {
    Pow2Four();
    Pow2Add(4, 4);
  }

  lemma Pow2Sixteen()
    ensures Pow2(16) == 0x1_0000
  {
    Pow2Eight();
    Pow2Add(8, 8);
  }

  lemma Pow2Word()
    ensures Pow2(32) == 0x1_0000_0000
  {
    Pow2Four();
    Pow2Add(4, 4);
    Pow2Add(8, 8);
    Pow2Add(16, 16);
  }

  lemma Pow2Long()
    ensures Pow2(64) == 0x1_0000_0000_0000_0000
  {
    Pow2Word();
    Pow2Add(32, 32);
  }

  lemma {:induction false} Pow2Monotone(m: nat, n: nat)
    requires m <= n
    ensures Pow2(m) <= Pow2(n)
    decreases n
  {
    if m < n {
      Pow2Monotone(m, n - 1);
    }
  }

  /** Dividing twice is dividing by the product. */
  lemma DivDiv(a: nat, b: nat, c: nat)
    requires b > 0 && c > 0
    ensures a / b / c == a / (b * c)
  {
    var q, r := a / b, a % b;
    var q2, r2 := q / c, q % c;
    DivDivSum(a, b, c, q, r, q2, r2);
    DivDivRest(b, c, r, r2);
    DivUnique(a, b * c, q2, b * r2 + r);
  }

  lemma DivDivSum(a: nat, b: nat, c: nat, q: nat, r: nat, q2: nat, r2: nat)
    requires a == b * q + r && q == c * q2 + r2
    ensures a == (b * c) * q2 + (b * r2 + r)
  {
    assert b * q == b * (c * q2) + b * r2;
    assert b * (c * q2) == (b * c) * q2;
  }

  lemma DivDivRest(b: nat, c: nat, r: nat, r2: nat)
    requires r < b && r2 < c
    ensures b * r2 + r < b * c
  {
    assert b * r2 <= b * (c - 1);
    assert b * (c - 1) == b * c - b;
  }

  lemma SmallMod(y: nat, w: nat)
    requires y < w
    ensures y % w == y
  {
  }

  lemma MulSmall(d: nat, k: int, e: int)
    requires d > 0 && d * k == e && -(d as int) < e < d
    ensures k == 0
  {
  }

  lemma DivUnique(a: nat, d: nat, q: nat, r: nat)
    requires d > 0 && a == d * q + r && r < d
    ensures a / d == q && a % d == r
  {
    var q0, r0 := a / d, a % d;
    assert d * q0 + r0 == d * q + r;
    assert d * (q0 - q) == r - r0;
    MulSmall(d, q0 - q, r - r0);
  }

  /** The remainder modulo 16p splits into the low digit and the rest. */
  lemma ModMul16(v: nat, p: nat)
    requires p > 0
    ensures v % (16 * p) == 16 * ((v / 16) % p) + v % 16
  {
    var x, y := (v / 16) / p, (v / 16) % p;
    assert v / 16 == p * x + y;
    assert v == 16 * (v / 16) + v % 16;
    assert v == (16 * p) * x + (16 * y + v % 16) by {
      assert 16 * (p * x) == (16 * p) * x;
    }
    assert 16 * y + v % 16 < 16 * p;
    DivUnique(v, 16 * p, x, 16 * y + v % 16);
  }

  /** v divided by 16, k times over. */
  function DivPow16(v: nat, k: nat): nat
  {
    if k == 0 then v else DivPow16(v / 16, k - 1)
  }

  lemma {:induction false} DivPow16Is(v: nat, k: nat)
    ensures DivPow16(v, k) == v / Pow2(4 * k)
    decreases k
  {
    if k > 0 {
      DivPow16Is(v / 16, k - 1);
      var p := Pow2(4 * (k - 1));
      DivDiv(v, 16, p);
      Pow2Add(4, 4 * (k - 1));
      Pow2Four();
      assert 4 * k == 4 + 4 * (k - 1);
    }
  }

  lemma {:induction false} ShiftRightIs(v: nat, s: nat)
    ensures ShiftRight(v, s) == v / Pow2(s)
    decreases s
  {
    if s > 0 {
      ShiftRightIs(v / 2, s - 1);
      DivDiv(v, 2, Pow2(s - 1));
    }
  }

  lemma {:induction false} ShiftLeftIs(v: nat, s: nat)
    ensures ShiftLeft(v, s) == v * Pow2(s)
    decreases s
  {
    if s > 0 {
      ShiftLeftIs(2 * v, s - 1);
      var p := Pow2(s - 1);
      assert Pow2(s) == 2 * p;
      DoubleFirst(v, p);
    }
  }

  lemma DoubleFirst(v: nat, p: nat)
    ensures (2 * v) * p == v * (2 * p)
  {
  }

  /** Shifting right by 4k bits drops k hex digits. */
  lemma ShiftRightNibbles(v: nat, k: nat)
    ensures ShiftRight(v, 4 * k) == DivPow16(v, k)
  {
    ShiftRightIs(v, 4 * k);
    DivPow16Is(v, k);
  }

  /** AND never exceeds its right operand. */
  lemma {:induction false} AndLe(a: nat, b: nat)
    ensures And(a, b) <= b
    decreases a + b
  {
    if a != 0 && b != 0 {
      AndLe(a / 2, b / 2);
    }
  }

  /** The remainder modulo 2p splits into the low bit and the rest. */
  lemma ModTwice(x: nat, p: nat)
    requires p > 0
    ensures x % (2 * p) == 2 * ((x / 2) % p) + x % 2
  {
    var q, r := (x / 2) / p, (x / 2) % p;
    assert x / 2 == p * q + r;
    assert x == (2 * p) * q + (2 * r + x % 2) by {
      assert 2 * (p * q) == (2 * p) * q;
    }
    DivUnique(x, 2 * p, q, 2 * r + x % 2);
  }

  /** AND with a mask of k ones keeps the low k bits. */
  lemma {:induction false} AndMask(x: nat, k: nat)
    ensures And(x, Pow2(k) - 1) == x % Pow2(k)
    decreases k
  {
    var n := Pow2(k);
    if k == 0 {
      assert n == 1;
      OneMod(x, n);
    } else if x == 0 {
      ZeroMod(x, n);
    } else {
      AndMask(x / 2, k - 1);
      var p := Pow2(k - 1);
      assert n == 2 * p;
      LowBitOfOdd(n - 1, p - 1);
      AndOdd(x, n - 1, p - 1);
      ModStep(x, p, And(x, n - 1), And(x / 2, p - 1));
    }
  }

  lemma OneMod(x: nat, n: nat)
    requires n == 1
    ensures And(x, n - 1) == x % n == 0
  {
  }

  lemma ZeroMod(x: nat, n: nat)
    requires x == 0 && n >= 1
    ensures And(x, n - 1) == x % n == 0
  {
  }

  lemma ModStep(x: nat, p: nat, a: nat, b: nat)
    requires p >= 1 && a == 2 * b + x % 2 && b == (x / 2) % p
    ensures a == x % (2 * p)
  {
    ModTwice(x, p);
  }

  /** AND with an odd number keeps the low bit. */
  lemma AndOdd(x: nat, m: nat, h: nat)
    requires x > 0 && m / 2 == h && m % 2 == 1
    ensures And(x, m) == 2 * And(x / 2, h) + x % 2
  {
  }

  lemma LowBitOfOdd(m: nat, q: nat)
    requires m == 2 * q + 1
    ensures m / 2 == q && m % 2 == 1
  {
  }

  /** A run of m ones has m one bits. */
  lemma {:induction false} PopCountOnes(m: nat)
    ensures PopCount(Pow2(m) - 1) == m
    decreases m
  {
    if m > 0 {
      var p := Pow2(m - 1);
      assert (Pow2(m) - 1) / 2 == p - 1 && (Pow2(m) - 1) % 2 == 1;
      PopCountOnes(m - 1);
    }
  }

  /** Bit k of an OR is set when it is set in either operand. */
  lemma {:induction false} OrBit(a: nat, b: nat, k: nat)
    ensures Bit(Or(a, b), k) == (if Bit(a, k) == 1 || Bit(b, k) == 1 then 1 else 0)
    decreases k
  {
    BitBelowTwo(a, k);
    BitBelowTwo(b, k);
    if a == 0 {
      BitZero(k);
    } else if b == 0 {
      BitZero(k);
    } else if k > 0 {
      OrHalf(a, b, Or(a / 2, b / 2));
      OrBit(a / 2, b / 2, k - 1);
    } else {
      OrLow(a, b, Or(a / 2, b / 2));
    }
  }

  /** Halving an OR halves both operands. */
  lemma OrHalf(a: nat, b: nat, r: nat)
    requires a > 0 && b > 0 && r == Or(a / 2, b / 2)
    ensures Or(a, b) / 2 == r
  {
    var bit := if a % 2 == 1 || b % 2 == 1 then 1 else 0;
    OrUnfold(a, b, r, bit);
    DoubleHalf(r, bit, Or(a, b));
  }

  lemma OrUnfold(a: nat, b: nat, r: nat, bit: nat)
    requires a > 0 && b > 0 && r == Or(a / 2, b / 2) && bit == if a % 2 == 1 || b % 2 == 1 then 1 else 0
    ensures Or(a, b) == 2 * r + bit
  {
  }

  lemma DoubleHalf(r: nat, bit: nat, v: nat)
    requires bit < 2 && v == 2 * r + bit
    ensures v / 2 == r && v % 2 == bit
  {
  }

  /** The low bit of an OR. */
  lemma OrLow(a: nat, b: nat, r: nat)
    requires a > 0 && b > 0 && r == Or(a / 2, b / 2)
    ensures Or(a, b) % 2 == if a % 2 == 1 || b % 2 == 1 then 1 else 0
  {
    var bit := if a % 2 == 1 || b % 2 == 1 then 1 else 0;
    OrUnfold(a, b, r, bit);
    DoubleHalf(r, bit, Or(a, b));
  }

  lemma {:induction false} BitZero(k: nat)
    ensures Bit(0, k) == 0
    decreases k
  {
    if k > 0 {
      BitZero(k - 1);
    }
  }

  lemma {:induction false} BitBelowTwo(a: nat, k: nat)
    ensures Bit(a, k) < 2
    decreases k
  {
    if k > 0 {
      BitBelowTwo(a / 2, k - 1);
    }
  }

  /** Bit k of a right shift by s is bit k + s of the original. */
  lemma {:induction false} ShiftRightBit(a: nat, s: nat, k: nat)
    ensures Bit(ShiftRight(a, s), k) == Bit(a, k + s)
    decreases s
  {
    if s > 0 {
      ShiftRightBit(a / 2, s - 1, k);
      BitHalf(a, k + s - 1);
    }
  }

  lemma BitHalf(a: nat, k: nat)
    ensures Bit(a / 2, k) == Bit(a, k + 1)
  {
  }

  /** Bit k is the k-th binary digit. */
  lemma {:induction false} BitIs(a: nat, k: nat)
    ensures Bit(a, k) == (a / Pow2(k)) % 2
    decreases k
  {
    if k > 0 {
      BitIs(a / 2, k - 1);
      DivDiv(a, 2, Pow2(k - 1));
    }
  }

  /** OR of two numbers below 2^k stays below 2^k. */
  lemma {:induction false} OrBound(a: nat, b: nat, k: nat)
    requires a < Pow2(k) && b < Pow2(k)
    ensures Or(a, b) < Pow2(k)
    decreases k
  {
    if k > 0 && a != 0 && b != 0 {
      OrBound(a / 2, b / 2, k - 1);
    }
  }

  lemma {:induction false} ShiftRightLe(a: nat, s: nat)
    ensures ShiftRight(a, s) <= a
    decreases s
  {
    if s > 0 {
      ShiftRightLe(a / 2, s - 1);
    }
  }

  /** Bits m - len + 1 .. m of x are all set. */
  ghost predicate TopRun(x: nat, m: nat, len: nat)
  {
    forall k: nat :: k <= m && m < k + len ==> Bit(x, k) == 1
  }

  /** `x or (x shr s)` doubles a run of s ones below the top bit. */
  lemma SmearStep(x: nat, m: nat, s: nat)
    requires TopRun(x, m, s)
    ensures TopRun(Or(x, ShiftRight(x, s)), m, 2 * s)
  {
    var y := Or(x, ShiftRight(x, s));
    forall k: nat | k <= m && m < k + 2 * s
      ensures Bit(y, k) == 1
    {
      OrBit(x, ShiftRight(x, s), k);
      ShiftRightBit(x, s, k);
    }
  }

  /** A number below 2^n with its n low bits set is 2^n - 1. */
  lemma {:induction false} FullRun(x: nat, n: nat)
    requires x < Pow2(n)
    requires forall k: nat :: k < n ==> Bit(x, k) == 1
    ensures x == Pow2(n) - 1
    decreases n
  {
    if n > 0 {
      assert Bit(x, 0) == 1;
      forall k: nat | k < n - 1
        ensures Bit(x / 2, k) == 1
      {
        BitHalf(x, k);
      }
      FullRun(x / 2, n - 1);
    }
  }

  /** The top bit position of a positive number. */
  function HighBit(a: nat): (m: nat)
    requires a > 0
    ensures Pow2(m) <= a < Pow2(m + 1)
  {
    if a == 1 then 0 else HighBit(a / 2) + 1
  }

  /** The least m with n <= 2^m. */
  function CeilLog2(n: nat): (m: nat)
    requires n >= 1
    ensures n <= Pow2(m)
    ensures m > 0 ==> Pow2(m - 1) < n
  {
    if n == 1 then 0 else 1 + CeilLog2((n + 1) / 2)
  }
}
