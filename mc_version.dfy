/**
 * `McVersion`: a Minecraft version packed into one `Int` as
 * major << 16 | minor << 8 | patch, with accessors, ordering, printing and
 * parsing.
 */
module McVersions {
  import opened Wrappers
  import opened Bits
  import opened Jvm
  import opened Text

  /** The value class over its packed `Int` bit pattern. */
  datatype McVersion = McVersion(packed: U32)

  /** `McVersion.UNKNOWN`. */
  const UNKNOWN: McVersion := McVersion(0)

  /** The three-part constructor: `(major shl 16) or (minor shl 8) or patch`. */
  function Make(major: I32, minor: I32, patch: I32): McVersion {
    McVersion(Or32(Or32(Shl32(Wrap32(major), 16), Shl32(Wrap32(minor), 8)), Wrap32(patch)))
  }

  /** `one`: `packed ushr 16`. */
  function One(v: McVersion): nat { Ushr32(v.packed, 16) }

  /** `two`: `packed ushr 8 and 0xFF`. */
  function Two(v: McVersion): nat { Ushr32(v.packed, 8) % 256 }

  /** `three`: `packed and 0xFF`. */
  function Three(v: McVersion): nat { v.packed % 256 }

  /** The accessors split the packed word into its 16 + 8 + 8 bits. */
  lemma PackedParts(v: McVersion)
    ensures One(v) < 0x1_0000 && Two(v) < 256 && Three(v) < 256
    ensures v.packed == 0x1_0000 * One(v) + 256 * Two(v) + Three(v)
  {
    var p := v.packed;
    ShiftRightIs(p, 16);
    ShiftRightIs(p, 8);
    Pow2Eight();
    Pow2Sixteen();
    DivDiv(p, 256, 256);
    assert p / 256 == 256 * (p / 256 / 256) + (p / 256) % 256;
  }

  /** Shifting a small part into place and ORing the lower parts beside it. */
  lemma PackValue(major: nat, minor: nat, patch: nat)
    requires major < 0x1_0000 && minor < 256 && patch < 256
    ensures Make(major, minor, patch).packed == 0x1_0000 * major + 256 * minor + patch
  {
    ShiftSixteen(major);
    ShiftEight(minor);
    SmallMod(patch, TWO32);
    OrParts(major, minor, patch);
  }

  lemma OrParts(major: nat, minor: nat, patch: nat)
    requires major < 0x1_0000 && minor < 256 && patch < 256
    ensures Or32(Or32(major * 0x1_0000, minor * 256), patch) == 0x1_0000 * major + 256 * minor + patch
  {
    Pow2Sixteen();
    Pow2Eight();
    var mid := minor * 256;
    Or32Disjoint(major, mid, 16);
    var C := major * 0x1_0000 + mid;
    assert C == (256 * major + minor) * Pow2(8);
    Or32Disjoint(256 * major + minor, patch, 8);
  }

  lemma ShiftSixteen(x: nat)
    requires x < 0x1_0000
    ensures Shl32(Wrap32(x), 16) == x * 0x1_0000
  {
    var w := Wrap32(x);
    assert w == x;
    ShiftLeftIs(w, 16);
    Pow2Sixteen();
    assert ShiftLeft(w, 16) == x * 0x1_0000;
    SmallMod(x * 0x1_0000, TWO32);
  }

  lemma ShiftEight(x: nat)
    requires x < 256
    ensures Shl32(Wrap32(x), 8) == x * 256
  {
    var w := Wrap32(x);
    assert w == x;
    ShiftLeftIs(w, 8);
    Pow2Eight();
    assert ShiftLeft(w, 8) == x * 256;
    SmallMod(x * 256, TWO32);
  }

  /** The accessors give back the parts `Make` was given, when they fit their fields. */
  lemma MakeParts(major: nat, minor: nat, patch: nat)
    requires major < 0x1_0000 && minor < 256 && patch < 256
    ensures One(Make(major, minor, patch)) == major
    ensures Two(Make(major, minor, patch)) == minor
    ensures Three(Make(major, minor, patch)) == patch
  {
    var v := Make(major, minor, patch);
    PackValue(major, minor, patch);
    PackedParts(v);
    Digits256(v.packed, One(v), Two(v), Three(v), major, minor, patch);
  }

  /** A base-(65536, 256, 256) representation is unique. */
  lemma Digits256(p: nat, a: nat, b: nat, c: nat, x: nat, y: nat, z: nat)
    requires b < 256 && c < 256 && y < 256 && z < 256
    requires p == 0x1_0000 * a + 256 * b + c && p == 0x1_0000 * x + 256 * y + z
    ensures a == x && b == y && c == z
  {
    DivUnique(p, 256, 256 * a + b, c);
    DivUnique(p, 256, 256 * x + y, z);
    DivUnique(p / 256, 256, a, b);
    DivUnique(p / 256, 256, x, y);
  }

  /** `compareTo`: lexicographic on (one, two, three). */
  function CompareTo(a: McVersion, b: McVersion): int {
    Lex(One(a), Two(a), Three(a), One(b), Two(b), Three(b))
  }

  /** Lexicographic comparison of two triples, as `Integer.compare` on each part in turn. */
  function Lex(x1: nat, x2: nat, x3: nat, y1: nat, y2: nat, y3: nat): int {
    var r1 := CompareInt(x1, y1);
    if r1 != 0 then r1
    else
      var r2 := CompareInt(x2, y2);
      if r2 != 0 then r2 else CompareInt(x3, y3)
  }

  /** The lexicographic order on the parts is the numeric order of the packed words. */
  lemma CompareIsPackedOrder(a: McVersion, b: McVersion)
    ensures CompareTo(a, b) == CompareInt(a.packed, b.packed)
  {
    PackedParts(a);
    PackedParts(b);
    LexIsNumeric(a.packed, One(a), Two(a), Three(a), b.packed, One(b), Two(b), Three(b));
  }

  lemma LexIsNumeric(p: nat, x1: nat, x2: nat, x3: nat, q: nat, y1: nat, y2: nat, y3: nat)
    requires x2 < 256 && x3 < 256 && y2 < 256 && y3 < 256
    requires p == 0x1_0000 * x1 + 256 * x2 + x3 && q == 0x1_0000 * y1 + 256 * y2 + y3
    ensures Lex(x1, x2, x3, y1, y2, y3) == CompareInt(p, q)
  {
    var lp, lq := 256 * x2 + x3, 256 * y2 + y3;
    LowWord(x2, x3);
    LowWord(y2, y3);
    if x1 != y1 {
      OrderByHigh(p, x1, lp, q, y1, lq, 0x1_0000);
    } else if x2 != y2 {
      OrderByHigh(lp, x2, x3, lq, y2, y3, 256);
    }
  }

  lemma LowWord(x2: nat, x3: nat)
    requires x2 < 256 && x3 < 256
    ensures 256 * x2 + x3 < 0x1_0000
  {
  }

  /** Numbers whose high digits differ are ordered by those digits. */
  lemma OrderByHigh(p: nat, hp: nat, lp: nat, q: nat, hq: nat, lq: nat, base: nat)
    requires lp < base && lq < base && hp != hq
    requires p == base * hp + lp && q == base * hq + lq
    ensures hp < hq <==> p < q
  {
    if hp < hq {
      MulLe(base, hp + 1, hq);
    } else {
      MulLe(base, hq + 1, hp);
    }
  }

  lemma MulLe(a: nat, x: nat, y: nat)
    requires x <= y
    ensures a * x <= a * y
  {
    assert a * y == a * x + a * (y - x);
  }

  /** `compareTo` is a total order: antisymmetric, zero exactly on equal versions, transitive. */
  lemma CompareToOrder(a: McVersion, b: McVersion, c: McVersion)
    ensures CompareTo(a, b) == -CompareTo(b, a)
    ensures CompareTo(a, b) == 0 <==> a == b
    ensures CompareTo(a, b) < 0 && CompareTo(b, c) < 0 ==> CompareTo(a, c) < 0
  {
    CompareIsPackedOrder(a, b);
    CompareIsPackedOrder(b, a);
    CompareIsPackedOrder(b, c);
    CompareIsPackedOrder(a, c);
  }

  /** `toString`: "one.two", or "one.two.three" when three is not zero. */
  function ToString(v: McVersion): string {
    var head := NatToString(One(v)) + "." + NatToString(Two(v));
    if Three(v) == 0 then head else head + "." + NatToString(Three(v))
  }

  /** `McVersion(String)`: split on '.', at least two parts, patch 0 unless there are exactly three. */
  function Parse(version: string): Result<McVersion> {
    var split := Split(version, '.');
    match ParseInt(split[0])
    case None => Err("NumberFormatException")
    case Some(major) =>
      if |split| < 2 then Err("IndexOutOfBoundsException")
      else
        match ParseInt(split[1])
        case None => Err("NumberFormatException")
        case Some(minor) =>
          if |split| == 3 then
            match ParseInt(split[2])
            case None => Err("NumberFormatException")
            case Some(patch) => Ok(Make(major, minor, patch))
          else Ok(Make(major, minor, 0))
  }

  /** `UNKNOWN` is 0.0, and no version is below it. */
  lemma UnknownIsLeast(v: McVersion)
    ensures One(UNKNOWN) == 0 && Two(UNKNOWN) == 0 && Three(UNKNOWN) == 0
    ensures ToString(UNKNOWN) == "0.0"
    ensures CompareTo(UNKNOWN, v) <= 0
  {
    PackedParts(UNKNOWN);
    CompareIsPackedOrder(UNKNOWN, v);
  }

  /** A string without '.' has one component and is rejected. */
  lemma ParseNeedsTwoParts(version: string)
    requires '.' !in version
    ensures !Parse(version).IsOk()
  {
    IndexOfNone(version, '.');
  }

  /** Components after the third are never read, and then the patch is 0. */
  lemma ParseIgnoresFourthPart(version: string)
    requires |Split(version, '.')| > 3
    ensures Parse(version) == Parse(Join(Split(version, '.')[..2], '.'))
  {
    var split := Split(version, '.');
    SplitJoin(split[..2], '.');
  }

  /** A release string built from its numbers. */
  function ReleaseString(major: nat, minor: nat, patch: nat): string {
    var head := NatToString(major) + "." + NatToString(minor);
    if patch == 0 then head else head + "." + NatToString(patch)
  }

  lemma ParseNat(n: nat)
    requires n < TWO31
    ensures ParseInt(NatToString(n)) == Some(n)
  {
    ParseIntToString(n);
  }

  lemma NoDot(n: nat)
    ensures '.' !in NatToString(n)
  {
    var s := NatToString(n);
    assert forall k :: 0 <= k < |s| ==> s[k] != '.';
  }

  /** Parsing two or three components that read as Ints. */
  lemma ParseParts(version: string, a: string, b: string, c: string, x: I32, y: I32, z: I32)
    requires ParseInt(a) == Some(x) && ParseInt(b) == Some(y) && ParseInt(c) == Some(z)
    requires Split(version, '.') == [a, b] || Split(version, '.') == [a, b, c]
    ensures Split(version, '.') == [a, b] ==> Parse(version) == Ok(Make(x, y, 0))
    ensures Split(version, '.') == [a, b, c] ==> Parse(version) == Ok(Make(x, y, z))
  {
  }

  /** Parsing a release string gives the version of its numbers. */
  lemma ReleaseParse(major: nat, minor: nat, patch: nat)
    requires major < 0x1_0000 && minor < 256 && patch < 256
    ensures Parse(ReleaseString(major, minor, patch)) == Ok(Make(major, minor, patch))
  {
    var a, b, c := NatToString(major), NatToString(minor), NatToString(patch);
    NoDot(major);
    NoDot(minor);
    NoDot(patch);
    ParseNat(major);
    ParseNat(minor);
    ParseNat(patch);
    var s := ReleaseString(major, minor, patch);
    if patch == 0 {
      JoinTwo(a, b, '.');
      SplitJoin([a, b], '.');
    } else {
      JoinThree(a, b, c, '.');
      SplitJoin([a, b, c], '.');
    }
    ParseParts(s, a, b, c, major, minor, patch);
  }

  /** ... and that version prints as the same string. */
  lemma ReleaseRoundTrip(major: nat, minor: nat, patch: nat)
    requires major < 0x1_0000 && minor < 256 && patch < 256
    ensures Parse(ReleaseString(major, minor, patch)) == Ok(Make(major, minor, patch))
    ensures ToString(Make(major, minor, patch)) == ReleaseString(major, minor, patch)
  {
    ReleaseParse(major, minor, patch);
    MakeParts(major, minor, patch);
  }

  /**
   * `McVersion(s).toString() == s` for a release string "a.b" or "a.b.c": canonical
   * decimals, each in its field's range, the third (when present) not zero.
   */
  lemma ParsePrintTwo(a: string, b: string)
    requires Canonical(a) && Canonical(b)
    requires DigitsValue(a) < 0x1_0000 && DigitsValue(b) < 256
    ensures Parse(a + "." + b).IsOk()
    ensures ToString(Parse(a + "." + b).value) == a + "." + b
  {
    NatToStringOfDigits(a);
    NatToStringOfDigits(b);
    PrintRelease(a + "." + b, DigitsValue(a), DigitsValue(b), 0);
  }

  lemma ParsePrintThree(a: string, b: string, c: string)
    requires Canonical(a) && Canonical(b) && Canonical(c)
    requires DigitsValue(a) < 0x1_0000 && DigitsValue(b) < 256 && 0 < DigitsValue(c) < 256
    ensures Parse(a + "." + b + "." + c).IsOk()
    ensures ToString(Parse(a + "." + b + "." + c).value) == a + "." + b + "." + c
  {
    NatToStringOfDigits(a);
    NatToStringOfDigits(b);
    NatToStringOfDigits(c);
    PrintRelease(a + "." + b + "." + c, DigitsValue(a), DigitsValue(b), DigitsValue(c));
  }

  lemma PrintRelease(s: string, major: nat, minor: nat, patch: nat)
    requires major < 0x1_0000 && minor < 256 && patch < 256
    requires s == ReleaseString(major, minor, patch)
    ensures Parse(s).IsOk() && ToString(Parse(s).value) == s
  {
    ReleaseRoundTrip(major, minor, patch);
  }
}
