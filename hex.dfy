/**
 * The hex codec of `dev.fastmc.jartools.util` (HexUtils.kt), also used, as a
 * private copy, by the 32-bit cache format. Encoders print fixed-width upper
 * case digits, most significant nibble first; decoders read a fixed number of
 * characters through a 128-entry table that accepts both cases and reads any
 * other character as 0.
 */
module Hex {
  import opened Wrappers
  import opened Bits
  import opened Jvm
  import opened Text

  const HEX_CHARS: string := "0123456789ABCDEF"

  /** `hexValues[c.code and 0x7F]`. */
  function HexValue(c: char): (r: nat)
    ensures r < 16
  {
    var k := Code(c) % 128;
    if 48 <= k <= 57 then k - 48
    else if 65 <= k <= 70 then k - 55
    else if 97 <= k <= 102 then k - 87
    else 0
  }

  /** The digit table and the value table agree. */
  lemma HexValueOfChar(d: nat)
    requires d < 16
    ensures HexValue(HEX_CHARS[d]) == d
  {
    var c := HEX_CHARS[d];
    HexCharCode(d);
    AsciiCode(c);
  }

  /** The digit table holds `0`-`9` then `A`-`F`. */
  lemma HexCharCode(d: nat)
    requires d < 16
    ensures HEX_CHARS[d] as int == if d < 10 then 48 + d else 55 + d
  {
  }

  /** An ASCII character keeps its code through `and 0x7F`. */
  lemma AsciiCode(c: char)
    requires c as int < 128
    ensures Code(c) % 128 == c as int
  {
  }

  /** The n lowest hex digits of v, most significant first. */
  function HexDigits(v: nat, n: nat): (r: string)
    ensures |r| == n
  {
    if n == 0 then "" else HexDigits(v / 16, n - 1) + [HEX_CHARS[v % 16]]
  }

  /** The number a run of hex digits denotes, each read through `HexValue`. */
  function HexNumber(s: string): nat
    decreases |s|
  {
    if |s| == 0 then 0 else 16 * HexNumber(s[..|s| - 1]) + HexValue(s[|s| - 1])
  }

  lemma {:induction false} HexNumberBound(s: string)
    ensures HexNumber(s) < Pow2(4 * |s|)
    decreases |s|
  {
    if |s| > 0 {
      var p := s[..|s| - 1];
      HexNumberBound(p);
      Pow2Add(4, 4 * |p|);
      Pow2Four();
      assert 4 * |s| == 4 + 4 * |p|;
    }
  }

  /** Digit i of `HexDigits(v, n)` is nibble n-1-i of v. */
  lemma {:induction false} HexDigitsAt(v: nat, n: nat, i: nat)
    requires i < n
    ensures HexDigits(v, n)[i] == HEX_CHARS[DivPow16(v, n - 1 - i) % 16]
    decreases n
  {
    if i < n - 1 {
      HexDigitsAt(v / 16, n - 1, i);
    }
  }

  /** Reading back n printed digits gives v modulo 16^n. */
  lemma {:induction false} HexRoundTrip(v: nat, n: nat)
    ensures HexNumber(HexDigits(v, n)) == v % Pow2(4 * n)
    decreases n
  {
    if n > 0 {
      var d := HexDigits(v, n);
      assert d[..n - 1] == HexDigits(v / 16, n - 1);
      HexValueOfChar(v % 16);
      HexRoundTrip(v / 16, n - 1);
      Pow2Add(4, 4 * (n - 1));
      Pow2Four();
      assert 4 * n == 4 + 4 * (n - 1);
      ModMul16(v, Pow2(4 * (n - 1)));
    }
  }

  lemma ModOfWord(x: nat)
    ensures x % TWO32 % 16 == x % 16
  {
    var q, r := x / TWO32, x % TWO32;
    assert x == TWO32 * q + r;
    assert TWO32 * q == 16 * (0x1000_0000 * q);
  }

  // ---- encoders -------------------------------------------------------------

  /** Digit i of the eight printed by `appendHexInt` is `(value ushr (28 - 4i)) and 0xF`. */
  lemma IntDigit(value: U32, i: nat)
    requires i < 8
    ensures HexDigits(value, 8)[i] == HEX_CHARS[Ushr32(value, 28 - 4 * i) % 16]
  {
    HexDigitsAt(value, 8, i);
    ShiftRightNibbles(value, 7 - i);
  }

  /** Digit i of the sixteen printed by `appendHexLong` is `(value ushr (60 - 4i)).toInt() and 0xF`. */
  lemma LongDigit(value: U64, i: nat)
    requires i < 16
    ensures HexDigits(value, 16)[i] == HEX_CHARS[LongToInt(Ushr64(value, 60 - 4 * i)) % 16]
  {
    HexDigitsAt(value, 16, i);
    ShiftRightNibbles(value, 15 - i);
    ModOfWord(Ushr64(value, 60 - 4 * i));
  }

  /**
   * `appendHexInt`: eight digits of `(value ushr k) and 0xF` for k = 28, 24,
   * ..., 0. The source writes the eight appends out; here they are the
   * iterations of one loop.
   */
  method AppendHexInt(sb: StringBuilder, value: U32)
    modifies sb
    ensures sb.text == old(sb.text) + HexDigits(value, 8)
  {
    ghost var d := HexDigits(value, 8);
    ghost var t := sb.text;
    for i := 0 to 8
      invariant sb.text == t + d[..i]
    {
      IntDigit(value, i);
      sb.Append(HEX_CHARS[Ushr32(value, 28 - 4 * i) % 16]);
      assert d[..i + 1] == d[..i] + [d[i]];
    }
    assert d[..8] == d;
  }

  /**
   * `appendHexLong`: sixteen digits of `(value ushr k).toInt() and 0xF` for
   * k = 60, 56, ..., 0. The source writes the sixteen appends out; here they are
   * the iterations of one loop.
   */
  method AppendHexLong(sb: StringBuilder, value: U64)
    modifies sb
    ensures sb.text == old(sb.text) + HexDigits(value, 16)
  {
    ghost var d := HexDigits(value, 16);
    ghost var t := sb.text;
    for i := 0 to 16
      invariant sb.text == t + d[..i]
    {
      LongDigit(value, i);
      sb.Append(HEX_CHARS[LongToInt(Ushr64(value, 60 - 4 * i)) % 16]);
      assert d[..i + 1] == d[..i] + [d[i]];
    }
    assert d[..16] == d;
  }

  /** `Int.toHexString()`. */
  method IntToHexString(value: U32) returns (s: string)
    ensures s == HexDigits(value, 8)
  {
    var sb := new StringBuilder();
    AppendHexInt(sb, value);
    s := sb.text;
  }

  /** `Long.toHexString()`. */
  method LongToHexString(value: U64) returns (s: string)
    ensures s == HexDigits(value, 16)
  {
    var sb := new StringBuilder();
    AppendHexLong(sb, value);
    s := sb.text;
  }

  // ---- decoders -------------------------------------------------------------

  /**
   * The value of `String.toHexInt(index)` after its first j statements
   * `value = value or (hexValues[this[k + index].code and 0x7F] shl (28 - 4k))`.
   */
  function IntChain(s: string, index: nat, j: nat): U32
    requires j <= 8 && index + 8 <= |s|
  {
    if j == 0 then 0
    else Or32(IntChain(s, index, j - 1), Shl32(HexValue(s[index + j - 1]), 32 - 4 * j))
  }

  /** The same for `String.toHexLong(index)`: sixteen digits, `toLong() shl (60 - 4k)`. */
  function LongChain(s: string, index: nat, j: nat): U64
    requires j <= 16 && index + 16 <= |s|
  {
    if j == 0 then 0
    else Or64(LongChain(s, index, j - 1), Shl64(HexValue(s[index + j - 1]), 64 - 4 * j))
  }

  /** `String.toHexInt(index)`; an index outside the string throws. */
  function ToHexInt(s: string, index: int): Result<U32>
  {
    if index < 0 || index + 8 > |s| then Err("StringIndexOutOfBoundsException")
    else Ok(IntChain(s, index, 8))
  }

  /** `String.toHexLong(index)`; an index outside the string throws. */
  function ToHexLong(s: string, index: int): Result<U64>
  {
    if index < 0 || index + 16 > |s| then Err("StringIndexOutOfBoundsException")
    else Ok(LongChain(s, index, 16))
  }

  lemma DigitFits32(h: nat, m: nat)
    requires h < 16 && m + 4 <= 32
    ensures h * Pow2(m) < Pow2(m + 4) <= TWO32
  {
    DigitBelow(h, m);
    Pow2Monotone(m + 4, 32);
    Pow2Word();
  }

  lemma DigitFits64(h: nat, m: nat)
    requires h < 16 && m + 4 <= 64
    ensures h * Pow2(m) < Pow2(m + 4) <= TWO64
  {
    DigitBelow(h, m);
    Pow2Monotone(m + 4, 64);
    Pow2Long();
  }

  lemma DigitBelow(h: nat, m: nat)
    requires h < 16
    ensures h * Pow2(m) < Pow2(m + 4)
  {
    Pow2Add(m, 4);
    Pow2Four();
  }

  /** One OR step places a digit below the ones already placed. */
  lemma ChainOr(x: nat, h: nat, m: nat)
    requires h < 16
    ensures Or(x * Pow2(m + 4), h * Pow2(m)) == (16 * x + h) * Pow2(m)
  {
    DigitBelow(h, m);
    OrDisjoint(x, h * Pow2(m), m + 4);
    Pow2Add(m, 4);
    Pow2Four();
    MulShift16(x, Pow2(m));
  }

  lemma MulShift16(x: nat, p: nat)
    ensures x * (p * 16) == (16 * x) * p
  {
  }

  lemma ChainBound(x: nat, h: nat, m: nat, k: nat)
    requires h < 16 && x < Pow2(4 * k)
    ensures (16 * x + h) * Pow2(m) < Pow2(4 * k + 4 + m)
  {
    assert 16 * x + h < 16 * Pow2(4 * k);
    Pow2Add(4 * k, 4);
    Pow2Four();
    Pow2Add(4 * k + 4, m);
    MulLess(16 * x + h, Pow2(4 * k + 4), Pow2(m));
  }

  lemma MulLess(a: nat, b: nat, c: nat)
    requires a < b && c > 0
    ensures a * c < b * c
  {
  }

  /** One `value = value or (digit shl m)` step of the 32-bit decoder. */
  lemma IntChainStep(acc: nat, x: nat, h: nat, y: nat, m: nat, k: nat)
    requires h < 16 && x < Pow2(4 * k) && 4 * k + 4 + m == 32 && y == 16 * x + h
    requires acc == x * Pow2(m + 4) && acc < TWO32
    ensures Or32(acc, Shl32(h, m)) == y * Pow2(m)
  {
    DigitFits32(h, m);
    Shl32Exact(h, m);
    ChainOr(x, h, m);
    ChainBound(x, h, m, k);
    var y := (16 * x + h) * Pow2(m);
    Pow2Word();
    SmallMod(y, TWO32);
  }

  /** The first j digits read as 16 times the first j - 1, plus the last. */
  lemma ChainDigits(s: string, index: nat, j: nat, x: nat, h: nat)
    requires 0 < j && index + j <= |s|
    requires x == HexNumber(s[index..index + j - 1]) && h == HexValue(s[index + j - 1])
    ensures HexNumber(s[index..index + j]) == 16 * x + h
  {
    var t := s[index..index + j];
    assert t[..j - 1] == s[index..index + j - 1];
  }

  lemma {:induction false} IntChainValue(s: string, index: nat, j: nat)
    requires j <= 8 && index + 8 <= |s|
    ensures IntChain(s, index, j) == HexNumber(s[index..index + j]) * Pow2(32 - 4 * j)
    decreases j
  {
    if j > 0 {
      IntChainValue(s, index, j - 1);
      var m := 32 - 4 * j;
      assert 32 - 4 * (j - 1) == m + 4;
      var x := HexNumber(s[index..index + j - 1]);
      var h := HexValue(s[index + j - 1]);
      HexNumberBound(s[index..index + j - 1]);
      ChainDigits(s, index, j, x, h);
      IntChainStep(IntChain(s, index, j - 1), x, h, HexNumber(s[index..index + j]), m, j - 1);
    }
  }

  /** One `value = value or (digit shl m)` step of the 64-bit decoder. */
  lemma LongChainStep(acc: nat, x: nat, h: nat, y: nat, m: nat, k: nat)
    requires h < 16 && x < Pow2(4 * k) && 4 * k + 4 + m == 64 && y == 16 * x + h
    requires acc == x * Pow2(m + 4) && acc < TWO64
    ensures Or64(acc, Shl64(h, m)) == y * Pow2(m)
  {
    DigitFits64(h, m);
    Shl64Exact(h, m);
    ChainOr(x, h, m);
    ChainBound(x, h, m, k);
    var y := (16 * x + h) * Pow2(m);
    Pow2Long();
    SmallMod(y, TWO64);
  }

  lemma {:induction false} LongChainValue(s: string, index: nat, j: nat)
    requires j <= 16 && index + 16 <= |s|
    ensures LongChain(s, index, j) == HexNumber(s[index..index + j]) * Pow2(64 - 4 * j)
    decreases j
  {
    if j > 0 {
      LongChainValue(s, index, j - 1);
      var m := 64 - 4 * j;
      assert 64 - 4 * (j - 1) == m + 4;
      var x := HexNumber(s[index..index + j - 1]);
      var h := HexValue(s[index + j - 1]);
      HexNumberBound(s[index..index + j - 1]);
      ChainDigits(s, index, j, x, h);
      LongChainStep(LongChain(s, index, j - 1), x, h, HexNumber(s[index..index + j]), m, j - 1);
    }
  }

  /** `toHexInt` reads the eight characters at `index` as a hexadecimal number. */
  lemma ToHexIntValue(s: string, index: nat)
    requires index + 8 <= |s|
    ensures ToHexInt(s, index) == Ok(HexNumber(s[index..index + 8]))
  {
    IntChainValue(s, index, 8);
    var w := s[index..index + 8];
    var c := IntChain(s, index, 8);
    assert c == HexNumber(w) * Pow2(0);
    assert c == HexNumber(w);
  }

  /** `toHexLong` reads the sixteen characters at `index` as a hexadecimal number. */
  lemma ToHexLongValue(s: string, index: nat)
    requires index + 16 <= |s|
    ensures ToHexLong(s, index) == Ok(HexNumber(s[index..index + 16]))
  {
    LongChainValue(s, index, 16);
    var w := s[index..index + 16];
    var c := LongChain(s, index, 16);
    assert c == HexNumber(w) * Pow2(0);
    assert c == HexNumber(w);
  }

  /** Round trip: `toHexInt(toHexString(v)) == v`. */
  lemma IntHexRoundTrip(v: U32)
    ensures ToHexInt(HexDigits(v, 8), 0) == Ok(v)
  {
    var d := HexDigits(v, 8);
    ToHexIntValue(d, 0);
    assert d[0..8] == d;
    HexRoundTrip(v, 8);
    Pow2Word();
    SmallMod(v, Pow2(32));
  }

  /** Round trip: `toHexLong(toHexString(v)) == v`. */
  lemma LongHexRoundTrip(v: U64)
    ensures ToHexLong(HexDigits(v, 16), 0) == Ok(v)
  {
    var d := HexDigits(v, 16);
    ToHexLongValue(d, 0);
    assert d[0..16] == d;
    HexRoundTrip(v, 16);
    Pow2Long();
    SmallMod(v, Pow2(64));
  }

  /** Lower-case digits read like upper-case ones. */
  lemma LowerCaseDigits(d: nat)
    requires 10 <= d < 16
    ensures HexValue((87 + d) as char) == d
  {
  }
}
