/**
 * Java primitive arithmetic as the Kotlin sources use it. A Java `Int` or `Long`
 * is held as its two's-complement bit pattern (`U32`/`U64`); `Signed32` and
 * `Signed64` read the value back. Shifts take their count modulo the width, as
 * the JVM's `ishl`/`lshl`/`iushr`/`lushr` do.
 */
module Jvm {
  import opened Bits

  const TWO31: nat := 0x8000_0000
  const TWO32: nat := 0x1_0000_0000
  const TWO63: nat := 0x8000_0000_0000_0000
  const TWO64: nat := 0x1_0000_0000_0000_0000

  type U32 = x: nat | x < 0x1_0000_0000
  type U64 = x: nat | x < 0x1_0000_0000_0000_0000
  /** The value of a Java `Int`. */
  type I32 = x: int | -0x8000_0000 <= x < 0x8000_0000

  function Wrap32(x: int): U32 { x % TWO32 }
  function Wrap64(x: int): U64 { x % TWO64 }

  function Signed32(u: U32): I32 { if u < TWO31 then u else u - TWO32 }
  function Signed64(v: U64): int { if v < TWO63 then v else v - TWO64 }

  /** Kotlin `Int.toLong()`: sign extension. */
  function IntToLong(u: U32): (r: U64)
    ensures r % TWO32 == u
    ensures u < TWO31 ==> r == u
    ensures u >= TWO31 ==> r == u + (TWO64 - TWO32)
  {
    Wrap64(Signed32(u))
  }

  /** Kotlin `Long.toInt()`: keeps the low 32 bits. */
  function LongToInt(v: U64): U32 { v % TWO32 }

  /** Kotlin `Int shl s`. */
  function Shl32(u: U32, s: int): U32 { Wrap32(ShiftLeft(u, s % 32)) }
  /** Kotlin `Int ushr s`. */
  function Ushr32(u: U32, s: int): (r: U32)
  {
    ShiftRightIs(u, s % 32);
    ShiftRight(u, s % 32)
  }
  /** Kotlin `Int shr s`: arithmetic shift, i.e. floor division. */
  function Shr32(u: U32, s: int): U32 { Wrap32(Signed32(u) / Pow2(s % 32)) }
  /** Kotlin `Long shl s`, with the count taken to be in 0..63. */
  function Shl64(v: U64, s: nat): U64
    requires s < 64
  {
    Wrap64(ShiftLeft(v, s))
  }
  /** Kotlin `Long ushr s`, with the count taken to be in 0..63. */
  function Ushr64(v: U64, s: nat): U64
    requires s < 64
  {
    ShiftRightIs(v, s);
    ShiftRight(v, s)
  }

  lemma Shl32Exact(u: U32, s: nat)
    requires s < 32 && u * Pow2(s) < TWO32
    ensures Shl32(u, s) == u * Pow2(s)
  {
    ShiftLeftIs(u, s);
  }

  lemma Shl64Exact(v: U64, s: nat)
    requires s < 64 && v * Pow2(s) < TWO64
    ensures Shl64(v, s) == v * Pow2(s)
  {
    ShiftLeftIs(v, s);
  }

  function Or32(a: U32, b: U32): U32 { Or(a, b) % TWO32 }

  /** OR of a multiple of 2^k with a value below 2^k is their sum. */
  lemma Or32Disjoint(q: nat, lo: U32, k: nat)
    requires lo < Pow2(k) && q * Pow2(k) + lo < TWO32
    ensures Or32(q * Pow2(k), lo) == q * Pow2(k) + lo
  {
    OrDisjoint(q, lo, k);
    SmallMod(q * Pow2(k) + lo, TWO64);
  }

  /** The same for `Long`. */
  lemma Or64Disjoint(q: nat, lo: U64, k: nat)
    requires lo < Pow2(k) && q * Pow2(k) + lo < TWO64
    ensures Or64(q * Pow2(k), lo) == q * Pow2(k) + lo
  {
    OrDisjoint(q, lo, k);
    SmallMod(q * Pow2(k) + lo, TWO64);
  }
  function Or64(a: U64, b: U64): U64 { Or(a, b) % TWO64 }
  function Xor64(a: U64, b: U64): U64 { Xor(a, b) % TWO64 }

  /** The UTF-16 code unit `Char.code` of a character of the Basic Multilingual Plane. */
  function Code(c: char): U32 { (c as int) % 0x10000 }

  /** Java `String.hashCode`: h = 31 * h + c over the characters, in `Int` arithmetic. */
  function StringHash(s: string): U32
    decreases |s|
  {
    if |s| == 0 then 0 else Wrap32(31 * StringHash(s[..|s| - 1]) + (s[|s| - 1] as int) % 0x10000)
  }

  lemma StringHashSnoc(s: string, c: char)
    ensures StringHash(s + [c]) == Wrap32(31 * StringHash(s) + Code(c))
  {
    assert (s + [c])[..|s|] == s;
  }

  /**
   * Java `String.compareTo`: the difference of the first differing code units,
   * else the difference of the lengths.
   */
  function Compare(a: string, b: string): int
    decreases |a|
  {
    if |a| == 0 || |b| == 0 then |a| - |b|
    else if Code(a[0]) != Code(b[0]) then Code(a[0]) - Code(b[0])
    else Compare(a[1..], b[1..])
  }

  /** Strings formed from the Basic Multilingual Plane, where `Code` is one-to-one. */
  predicate Bmp(s: string) { forall i :: 0 <= i < |s| ==> (s[i] as int) < 0x10000 }

  lemma {:induction false} CompareAntisymmetric(a: string, b: string)
    ensures Compare(a, b) == -Compare(b, a)
    decreases |a|
  {
    if |a| != 0 && |b| != 0 && Code(a[0]) == Code(b[0]) {
      CompareAntisymmetric(a[1..], b[1..]);
    }
  }

  lemma {:induction false} CompareZero(a: string, b: string)
    requires Bmp(a) && Bmp(b)
    ensures Compare(a, b) == 0 <==> a == b
    decreases |a|
  {
    if |a| != 0 && |b| != 0 {
      if Code(a[0]) == Code(b[0]) {
        assert a[0] == b[0];
        CompareZero(a[1..], b[1..]);
        if a[1..] == b[1..] {
          assert a == [a[0]] + a[1..] && b == [b[0]] + b[1..];
        }
      }
    }
  }

  lemma {:induction false} CompareSelf(a: string)
    ensures Compare(a, a) == 0
    decreases |a|
  {
    if |a| != 0 {
      CompareSelf(a[1..]);
    }
  }

  lemma {:induction false} CompareTransitive(a: string, b: string, c: string)
    requires Compare(a, b) < 0 && Compare(b, c) < 0
    ensures Compare(a, c) < 0
    decreases |a|
  {
    if |a| != 0 && |b| != 0 && |c| != 0 {
      if Code(a[0]) == Code(b[0]) && Code(b[0]) == Code(c[0]) {
        CompareTransitive(a[1..], b[1..], c[1..]);
      }
    }
  }

  /** Kotlin `Int.compareTo` / `Integer.compare`: -1, 0 or 1. */
  function CompareInt(a: int, b: int): (r: int)
    ensures r < 0 <==> a < b
    ensures r == 0 <==> a == b
    ensures r > 0 <==> a > b
  {
    if a < b then -1 else if a == b then 0 else 1
  }

  /** The sign-extended `Int` hash of a string, as Kotlin `s.hashCode().toLong()`. */
  function LongStringHash(s: string): U64 { IntToLong(StringHash(s)) }
}
