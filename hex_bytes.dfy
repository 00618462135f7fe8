/**
 * The `ByteArray` helpers of HexUtils.kt: `toHexInt`/`toHexLong`, which pack
 * four or eight bytes into a number, and `toHexString`, which prints two hex
 * digits per byte. Kotlin bytes are signed; `toInt()`/`toLong()` sign-extend.
 */
module HexBytes {
  import opened Wrappers
  import opened Bits
  import opened Jvm
  import opened Text
  import opened Hex

  /** A Kotlin `Byte`. */
  type Byte = x: int | -128 <= x < 128

  /** The two's complement bit pattern of `b`, as `b.toInt()` sign-extends it. */
  function ByteToInt(b: Byte): U32 { Wrap32(b) }

  /** The bit pattern of `b.toLong()`. */
  function ByteToLong(b: Byte): U64 { Wrap64(b) }

  /** `b.toInt() and 0xFF`: the byte read as unsigned. */
  function Unsigned(b: Byte): (r: nat)
    ensures r < 256
    ensures b >= 0 ==> r == b
  {
    b % 256
  }

  /** The big-endian number a run of bytes denotes, each byte read as unsigned. */
  function BigEndian(s: seq<Byte>): nat
    decreases |s|
  {
    if |s| == 0 then 0 else 256 * BigEndian(s[..|s| - 1]) + Unsigned(s[|s| - 1])
  }

  // ---- toHexInt / toHexLong as written ---------------------------------------

  /**
   * The value of `ByteArray.toHexInt(index)` after its first j statements
   * `value = value or (this[k + index].toInt() shl (24 - 8k))`.
   */
  function IntPack(s: seq<Byte>, index: nat, j: nat): U32
    requires j <= 4 && index + 4 <= |s|
  {
    if j == 0 then 0
    else Or32(IntPack(s, index, j - 1), Shl32(ByteToInt(s[index + j - 1]), 32 - 8 * j))
  }

  /** The same for `ByteArray.toHexLong(index)`: eight bytes, `toLong() shl (56 - 8k)`. */
  function LongPack(s: seq<Byte>, index: nat, j: nat): U64
    requires j <= 8 && index + 8 <= |s|
  {
    if j == 0 then 0
    else Or64(LongPack(s, index, j - 1), Shl64(ByteToLong(s[index + j - 1]), 64 - 8 * j))
  }

  /** `ByteArray.toHexInt(index)`; a byte outside the array throws. */
  function BytesToHexInt(s: seq<Byte>, index: int): Result<U32> {
    if index < 0 || index + 4 > |s| then Err("ArrayIndexOutOfBoundsException")
    else Ok(IntPack(s, index, 4))
  }

  /** `ByteArray.toHexLong(index)`; a byte outside the array throws. */
  function BytesToHexLong(s: seq<Byte>, index: int): Result<U64> {
    if index < 0 || index + 8 > |s| then Err("ArrayIndexOutOfBoundsException")
    else Ok(LongPack(s, index, 8))
  }

  /** Zero bytes contribute nothing to the packing. */
  lemma {:induction false} IntPackZeros(s: seq<Byte>, index: nat, j: nat)
    requires j <= 4 && index + 4 <= |s|
    requires forall i :: index <= i < index + j ==> s[i] == 0
    ensures IntPack(s, index, j) == 0
    decreases j
  {
    if j > 0 {
      IntPackZeros(s, index, j - 1);
      ShiftLeftIs(0, (32 - 8 * j) % 32);
      OrZeroLeft(0);
    }
  }

  lemma {:induction false} LongPackZeros(s: seq<Byte>, index: nat, j: nat)
    requires j <= 8 && index + 8 <= |s|
    requires forall i :: index <= i < index + j ==> s[i] == 0
    ensures LongPack(s, index, j) == 0
    decreases j
  {
    if j > 0 {
      LongPackZeros(s, index, j - 1);
      ShiftLeftIs(0, 64 - 8 * j);
      OrZeroLeft(0);
    }
  }

  lemma {:induction false} BigEndianZeros(s: seq<Byte>)
    requires forall i :: 0 <= i < |s| ==> s[i] == 0
    ensures BigEndian(s) == 0
    decreases |s|
  {
    if |s| > 0 {
      BigEndianZeros(s[..|s| - 1]);
    }
  }

  /** Zero bytes followed by a byte -1: the packing is all ones, the number is 255. */
  lemma IntSmearsAt(s: seq<Byte>, index: nat)
    requires index + 4 <= |s|
    requires forall i :: index <= i < index + 3 ==> s[i] == 0
    requires s[index + 3] == -1
    ensures BytesToHexInt(s, index) == Ok(TWO32 - 1)
    ensures BigEndian(s[index..index + 4]) == 255
  {
    IntPackZeros(s, index, 3);
    var u := ByteToInt(s[index + 3]);
    assert u == TWO32 - 1;
    assert IntPack(s, index, 4) == Or32(0, Shl32(u, 0));
    ShiftLeftIs(u, 0);
    OrZeroLeft(u);
    var t := s[index..index + 4];
    assert t[..3] == s[index..index + 3];
    BigEndianZeros(t[..3]);
    assert BigEndian(t) == 256 * BigEndian(t[..3]) + Unsigned(t[3]);
  }

  lemma LongSmearsAt(s: seq<Byte>, index: nat)
    requires index + 8 <= |s|
    requires forall i :: index <= i < index + 7 ==> s[i] == 0
    requires s[index + 7] == -1
    ensures BytesToHexLong(s, index) == Ok(TWO64 - 1)
    ensures BigEndian(s[index..index + 8]) == 255
  {
    LongPackZeros(s, index, 7);
    var u := ByteToLong(s[index + 7]);
    assert u == TWO64 - 1;
    assert LongPack(s, index, 8) == Or64(0, Shl64(u, 0));
    ShiftLeftIs(u, 0);
    OrZeroLeft(u);
    var t := s[index..index + 8];
    assert t[..7] == s[index..index + 7];
    BigEndianZeros(t[..7]);
    assert BigEndian(t) == 256 * BigEndian(t[..7]) + Unsigned(t[7]);
  }

  /** The bytes 00 00 00 FF read back as 0xFFFFFFFF rather than 0xFF. */
  lemma BytesToHexIntSmears(s: seq<Byte>)
    requires s == [0, 0, 0, -1]
    ensures BytesToHexInt(s, 0) == Ok(TWO32 - 1)
    ensures BigEndian(s) == 255
  {
    IntSmearsAt(s, 0);
    assert s[0..4] == s;
  }

  /** The bytes 00 .. 00 FF read back as 0xFFFFFFFFFFFFFFFF rather than 0xFF. */
  lemma BytesToHexLongSmears(s: seq<Byte>)
    requires s == [0, 0, 0, 0, 0, 0, 0, -1]
    ensures BytesToHexLong(s, 0) == Ok(TWO64 - 1)
    ensures BigEndian(s) == 255
  {
    LongSmearsAt(s, 0);
    assert s[0..8] == s;
  }

  /** A byte without its sign bit reads the same sign-extended or masked. */
  lemma NonNegativeByte(b: Byte)
    requires b >= 0
    ensures ByteToInt(b) == Unsigned(b) && ByteToLong(b) == Unsigned(b)
  {
  }

  /** Without negative bytes there is nothing to smear: both packings agree. */
  lemma {:induction false} IntPackNonNegative(s: seq<Byte>, index: nat, j: nat)
    requires j <= 4 && index + 4 <= |s|
    requires forall i :: index <= i < index + 4 ==> s[i] >= 0
    ensures IntPack(s, index, j) == IntPackFixed(s, index, j)
    decreases j
  {
    if j > 0 {
      IntPackNonNegative(s, index, j - 1);
      NonNegativeByte(s[index + j - 1]);
    }
  }

  /** The same for eight bytes. */
  lemma {:induction false} LongPackNonNegative(s: seq<Byte>, index: nat, j: nat)
    requires j <= 8 && index + 8 <= |s|
    requires forall i :: index <= i < index + 8 ==> s[i] >= 0
    ensures LongPack(s, index, j) == LongPackFixed(s, index, j)
    decreases j
  {
    if j > 0 {
      LongPackNonNegative(s, index, j - 1);
      NonNegativeByte(s[index + j - 1]);
    }
  }

  /** As written, `toHexInt` is the big-endian value when no byte is negative. */
  lemma BytesToHexIntNonNegative(s: seq<Byte>, index: nat)
    requires index + 4 <= |s|
    requires forall i :: index <= i < index + 4 ==> s[i] >= 0
    ensures BytesToHexInt(s, index) == Ok(BigEndian(s[index..index + 4]))
  {
    IntPackNonNegative(s, index, 4);
    BytesToIntValue(s, index);
  }

  /** As written, `toHexLong` is the big-endian value when no byte is negative. */
  lemma BytesToHexLongNonNegative(s: seq<Byte>, index: nat)
    requires index + 8 <= |s|
    requires forall i :: index <= i < index + 8 ==> s[i] >= 0
    ensures BytesToHexLong(s, index) == Ok(BigEndian(s[index..index + 8]))
  {
    LongPackNonNegative(s, index, 8);
    BytesToLongValue(s, index);
  }

  // ---- corrected: each byte masked with 0xFF -----------------------------------

  /** `value or ((this[k + index].toInt() and 0xFF) shl (24 - 8k))`. */
  function IntPackFixed(s: seq<Byte>, index: nat, j: nat): U32
    requires j <= 4 && index + 4 <= |s|
  {
    if j == 0 then 0
    else Or32(IntPackFixed(s, index, j - 1), Shl32(Unsigned(s[index + j - 1]), 32 - 8 * j))
  }

  /** `value or ((this[k + index].toLong() and 0xFF) shl (56 - 8k))`. */
  function LongPackFixed(s: seq<Byte>, index: nat, j: nat): U64
    requires j <= 8 && index + 8 <= |s|
  {
    if j == 0 then 0
    else Or64(LongPackFixed(s, index, j - 1), Shl64(Unsigned(s[index + j - 1]), 64 - 8 * j))
  }

  /** `toHexInt` with every byte masked to its unsigned value. */
  function BytesToInt(s: seq<Byte>, index: int): Result<U32> {
    if index < 0 || index + 4 > |s| then Err("ArrayIndexOutOfBoundsException")
    else Ok(IntPackFixed(s, index, 4))
  }

  /** `toHexLong` with every byte masked to its unsigned value. */
  function BytesToLong(s: seq<Byte>, index: int): Result<U64> {
    if index < 0 || index + 8 > |s| then Err("ArrayIndexOutOfBoundsException")
    else Ok(LongPackFixed(s, index, 8))
  }

  /** One OR step places a byte below the ones already placed. */
  lemma PackOr(x: nat, h: nat, m: nat)
    requires h < 256
    ensures Or(x * Pow2(m + 8), h * Pow2(m)) == (256 * x + h) * Pow2(m)
  {
    Pow2Add(m, 8);
    Pow2Eight();
    MulLess(h, 256, Pow2(m));
    OrDisjoint(x, h * Pow2(m), m + 8);
    assert x * (Pow2(m) * 256) == (256 * x) * Pow2(m);
  }

  lemma PackBound(x: nat, h: nat, m: nat, k: nat)
    requires h < 256 && x < Pow2(8 * k)
    ensures (256 * x + h) * Pow2(m) < Pow2(8 * k + 8 + m)
  {
    Pow2Eight();
    assert 256 * x + h < 256 * Pow2(8 * k);
    Pow2Add(8 * k, 8);
    Pow2Add(8 * k + 8, m);
    MulLess(256 * x + h, Pow2(8 * k + 8), Pow2(m));
  }

  lemma {:induction false} BigEndianBound(s: seq<Byte>)
    ensures BigEndian(s) < Pow2(8 * |s|)
    decreases |s|
  {
    if |s| > 0 {
      var p := s[..|s| - 1];
      BigEndianBound(p);
      Pow2Add(8, 8 * |p|);
      Pow2Eight();
      assert 8 * |s| == 8 + 8 * |p|;
    }
  }

  /** One `value = value or (byte shl m)` step of the corrected 32-bit packing. */
  lemma IntPackStep(acc: nat, x: nat, h: nat, y: nat, m: nat, k: nat)
    requires h < 256 && x < Pow2(8 * k) && 8 * k + 8 + m == 32 && y == 256 * x + h
    requires acc == x * Pow2(m + 8) && acc < TWO32
    ensures Or32(acc, Shl32(h, m)) == y * Pow2(m)
  {
    PackBound(x, h, m, k);
    Pow2Word();
    Pow2Eight();
    MulLess(h, 256, Pow2(m));
    Pow2Add(m, 8);
    Pow2Monotone(m + 8, 32);
    Shl32Exact(h, m);
    PackOr(x, h, m);
    SmallMod((256 * x + h) * Pow2(m), TWO32);
  }

  /** One `value = value or (byte shl m)` step of the corrected 64-bit packing. */
  lemma LongPackStep(acc: nat, x: nat, h: nat, y: nat, m: nat, k: nat)
    requires h < 256 && x < Pow2(8 * k) && 8 * k + 8 + m == 64 && y == 256 * x + h
    requires acc == x * Pow2(m + 8) && acc < TWO64
    ensures Or64(acc, Shl64(h, m)) == y * Pow2(m)
  {
    PackBound(x, h, m, k);
    Pow2Long();
    Pow2Eight();
    MulLess(h, 256, Pow2(m));
    Pow2Add(m, 8);
    Pow2Monotone(m + 8, 64);
    Shl64Exact(h, m);
    PackOr(x, h, m);
    SmallMod((256 * x + h) * Pow2(m), TWO64);
  }

  /** The first j bytes read as 256 times the first j - 1, plus the last. */
  lemma BigEndianDigits(s: seq<Byte>, index: nat, j: nat, x: nat, h: nat)
    requires 0 < j && index + j <= |s|
    requires x == BigEndian(s[index..index + j - 1]) && h == Unsigned(s[index + j - 1])
    ensures BigEndian(s[index..index + j]) == 256 * x + h
  {
    var t := s[index..index + j];
    assert t[..j - 1] == s[index..index + j - 1];
  }

  lemma {:induction false} IntPackValue(s: seq<Byte>, index: nat, j: nat)
    requires j <= 4 && index + 4 <= |s|
    ensures IntPackFixed(s, index, j) == BigEndian(s[index..index + j]) * Pow2(32 - 8 * j)
    decreases j
  {
    if j > 0 {
      IntPackValue(s, index, j - 1);
      var m := 32 - 8 * j;
      assert 32 - 8 * (j - 1) == m + 8;
      var x := BigEndian(s[index..index + j - 1]);
      var h := Unsigned(s[index + j - 1]);
      BigEndianBound(s[index..index + j - 1]);
      BigEndianDigits(s, index, j, x, h);
      IntPackStep(IntPackFixed(s, index, j - 1), x, h, BigEndian(s[index..index + j]), m, j - 1);
    }
  }

  lemma {:induction false} LongPackValue(s: seq<Byte>, index: nat, j: nat)
    requires j <= 8 && index + 8 <= |s|
    ensures LongPackFixed(s, index, j) == BigEndian(s[index..index + j]) * Pow2(64 - 8 * j)
    decreases j
  {
    if j > 0 {
      LongPackValue(s, index, j - 1);
      var m := 64 - 8 * j;
      assert 64 - 8 * (j - 1) == m + 8;
      var x := BigEndian(s[index..index + j - 1]);
      var h := Unsigned(s[index + j - 1]);
      BigEndianBound(s[index..index + j - 1]);
      BigEndianDigits(s, index, j, x, h);
      LongPackStep(LongPackFixed(s, index, j - 1), x, h, BigEndian(s[index..index + j]), m, j - 1);
    }
  }

  /** Corrected `toHexInt`: the four bytes at `index`, big-endian. */
  lemma BytesToIntValue(s: seq<Byte>, index: nat)
    requires index + 4 <= |s|
    ensures BytesToInt(s, index) == Ok(BigEndian(s[index..index + 4]))
  {
    IntPackValue(s, index, 4);
    var c := IntPackFixed(s, index, 4);
    assert c == BigEndian(s[index..index + 4]) * Pow2(0);
  }

  /** Corrected `toHexLong`: the eight bytes at `index`, big-endian. */
  lemma BytesToLongValue(s: seq<Byte>, index: nat)
    requires index + 8 <= |s|
    ensures BytesToLong(s, index) == Ok(BigEndian(s[index..index + 8]))
  {
    LongPackValue(s, index, 8);
    var c := LongPackFixed(s, index, 8);
    assert c == BigEndian(s[index..index + 8]) * Pow2(0);
  }

  // ---- toHexString -------------------------------------------------------------

  /** Two upper-case digits per byte of its unsigned value, high nibble first. */
  function ByteHex(s: seq<Byte>): (r: string)
    ensures |r| == 2 * |s|
    decreases |s|
  {
    if |s| == 0 then "" else ByteHex(s[..|s| - 1]) + HexDigits(Unsigned(s[|s| - 1]), 2)
  }

  /** `(b.toInt() ushr 4) and 0xF` and `b.toInt() and 0xF` are the two digits of `b and 0xFF`. */
  lemma ByteNibbles(b: Byte)
    ensures Ushr32(ByteToInt(b), 4) % 16 == Unsigned(b) / 16
    ensures ByteToInt(b) % 16 == Unsigned(b) % 16
  {
    var u := ByteToInt(b);
    UshrFour(u);
    LowByte(b);
    NibblesOfLowByte(u);
  }

  lemma UshrFour(u: U32)
    ensures Ushr32(u, 4) == u / 16
  {
    ShiftRightIs(u, 4);
    Pow2Four();
  }

  /** The low eight bits of `b.toInt()` are `b and 0xFF`. */
  lemma LowByte(b: Byte)
    ensures ByteToInt(b) % 256 == Unsigned(b)
  {
    if b < 0 {
      var u := ByteToInt(b);
      assert u == TWO32 + b;
      DivUnique(u, 256, 0xFF_FFFF, 256 + b);
    }
  }

  lemma NibblesOfLowByte(u: nat)
    ensures (u / 16) % 16 == (u % 256) / 16 && u % 16 == (u % 256) % 16
  {
    ModMul16(u, 16);
    DivUnique(u % 256, 16, (u / 16) % 16, u % 16);
  }

  lemma TwoDigits(c: nat)
    requires c < 256
    ensures HexDigits(c, 2) == [HEX_CHARS[c / 16], HEX_CHARS[c % 16]]
  {
    assert HexDigits(c / 16, 1) == HexDigits(c / 256, 0) + [HEX_CHARS[(c / 16) % 16]];
  }

  /** The loop body of `toHexString`: the two digits of one byte. */
  method AppendByteHex(sb: StringBuilder, b: Byte)
    modifies sb
    ensures sb.text == old(sb.text) + HexDigits(Unsigned(b), 2)
  {
    ByteNibbles(b);
    TwoDigits(Unsigned(b));
    sb.Append(HEX_CHARS[Ushr32(ByteToInt(b), 4) % 16]);
    sb.Append(HEX_CHARS[ByteToInt(b) % 16]);
  }

  lemma ByteHexSnoc(s: seq<Byte>)
    requires |s| > 0
    ensures ByteHex(s) == ByteHex(s[..|s| - 1]) + HexDigits(Unsigned(s[|s| - 1]), 2)
  {
  }

  /** One more byte of the run read so far: its two digits after the digits of the run. */
  lemma HexRunStep(bytes: seq<Byte>, index: int, i: nat, done: seq<Byte>)
    requires 0 <= index && index + i < |bytes|
    requires |done| == i && (i > 0 ==> done == bytes[index..index + i])
    ensures done + [bytes[index + i]] == bytes[index..index + i + 1]
    ensures ByteHex(done + [bytes[index + i]]) == ByteHex(done) + HexDigits(Unsigned(bytes[index + i]), 2)
  {
    RunSnoc(bytes, index, i, done);
    ByteHexAppend(done, bytes[index + i]);
  }

  /** The run read so far, one byte longer. */
  lemma RunSnoc(bytes: seq<Byte>, index: int, i: nat, done: seq<Byte>)
    requires 0 <= index && index + i < |bytes|
    requires |done| == i && (i > 0 ==> done == bytes[index..index + i])
    ensures done + [bytes[index + i]] == bytes[index..index + i + 1]
  {
    if i == 0 {
      assert done == [];
    } else {
      assert bytes[index..index + i + 1] == bytes[index..index + i] + [bytes[index + i]];
    }
  }

  /** Two more digits for one more byte. */
  lemma ByteHexAppend(done: seq<Byte>, b: Byte)
    ensures ByteHex(done + [b]) == ByteHex(done) + HexDigits(Unsigned(b), 2)
  {
    var next := done + [b];
    ByteHexSnoc(next);
    assert next[..|done|] == done;
  }

  /** `length * 2` as an Int: the capacity `buildString` is given. */
  function Capacity(length: I32): I32 { Signed32(Wrap32(2 * length)) }

  /**
   * `ByteArray.toHexString(index, length)`: `buildString(length * 2)` throws
   * when that capacity is negative as an Int; reading a byte outside the
   * array throws; otherwise two digits per byte.
   */
  method BytesToHexString(bytes: seq<Byte>, index: I32, length: I32) returns (r: Result<string>)
    requires |bytes| < TWO31
    ensures Capacity(length) < 0 ==> r == Err("NegativeArraySizeException")
    ensures Capacity(length) >= 0 && length > 0 && (index < 0 || index + length > |bytes|)
      ==> r == Err("ArrayIndexOutOfBoundsException")
    ensures Capacity(length) >= 0 && length <= 0 ==> r == Ok("")
    ensures Capacity(length) >= 0 && length > 0 && 0 <= index && index + length <= |bytes|
      ==> r == Ok(ByteHex(bytes[index..index + length]))
  {
    var capacity := Capacity(length);
    if capacity < 0 {
      return Err("NegativeArraySizeException");
    }
    var sb := new StringBuilder();
    var i: int := 0;
    ghost var done: seq<Byte> := [];
    while i < length
      invariant 0 <= i <= (if length > 0 then length else 0)
      invariant |done| == i && sb.text == ByteHex(done)
      invariant i > 0 ==> 0 <= index && index + i <= |bytes| && done == bytes[index..index + i]
    {
      // index + i wraps to a negative Int exactly when it exceeds Int.MAX_VALUE,
      // and the array is shorter than that, so the bounds test is the same.
      if index + i < 0 || index + i >= |bytes| {
        return Err("ArrayIndexOutOfBoundsException");
      }
      var b := bytes[index + i];
      AppendByteHex(sb, b);
      HexRunStep(bytes, index, i, done);
      done := done + [b];
      i := i + 1;
    }
    r := Ok(sb.text);
  }

  /**
   * `ByteArray.toHexString()`: the whole array. An array of 2^30 bytes or more
   * makes the capacity `size * 2` negative.
   */
  method AllBytesToHexString(bytes: seq<Byte>) returns (r: Result<string>)
    requires |bytes| < TWO31
    ensures |bytes| < 0x4000_0000 ==> r == Ok(ByteHex(bytes))
    ensures |bytes| >= 0x4000_0000 ==> r == Err("NegativeArraySizeException")
  {
    r := BytesToHexString(bytes, 0, |bytes|);
    assert bytes[0..|bytes|] == bytes;
  }
}
