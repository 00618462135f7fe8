/**
 * `Class.hash` as written: `(prefix.toLong() shl 32) or hashCode().toLong()`.
 * `toLong()` sign-extends, so for a name whose Java string hash is negative
 * the OR sets every bit of the high word and the prefix is lost; such names
 * collide whenever their string hashes do. `Field.hash` adds instead of ORing,
 * which keeps the prefix recoverable. Module Mappings keys classes by the
 * intended fingerprint.
 */
module MappingFindings {
  import opened Wrappers
  import opened Bits
  import opened Jvm
  import opened Mappings

  /** `Class.hash(nameFrom)` as written. */
  function ClassHashAsWritten(s: string): (r: U64)
    ensures |s| == 0 ==> r == 0
    ensures |s| > 0 && StringHash(s) < TWO31 ==> r == ClassHash(s)
    ensures |s| > 0 && StringHash(s) >= TWO31 ==> r == (TWO32 - 1) * TWO32 + StringHash(s)
  {
    if |s| == 0 then 0
    else
      var p, h := NamePrefix(s), StringHash(s);
      ShlHigh(p);
      OrSignExtended(p, h);
      Or64(Shl64(IntToLong(p), 32), IntToLong(h))
  }

  lemma OrSignExtended(p: U32, h: U32)
    ensures h < TWO31 ==> Or64(p * TWO32, IntToLong(h)) == p * TWO32 + h
    ensures h >= TWO31 ==> Or64(p * TWO32, IntToLong(h)) == (TWO32 - 1) * TWO32 + h
  {
    Pow2Word();
    if h < TWO31 {
      Or64Disjoint(p, h, 32);
    } else {
      assert IntToLong(h) == (TWO32 - 1) * TWO32 + h;
      OrSplit(p, TWO32 - 1, h, 32);
      OrOnes(p, 32);
    }
  }

  /** `ClassMapping.get(nameFrom)` over classes keyed by the fingerprint as written. */
  function GetClassAsWritten(m: ClassMapping, nameFrom: string): (r: Option<Class>)
    ensures r.Some? <==> ClassHashAsWritten(nameFrom) in m
  {
    var h := ClassHashAsWritten(nameFrom);
    if h in m then Some(m[h]) else None
  }

  /** One step of the string hash on a name whose hash is known. */
  lemma HashSnoc(p: string, c: char, hp: U32, r: U32)
    requires StringHash(p) == hp && r == Wrap32(31 * hp + Code(c))
    ensures StringHash(p + [c]) == r
  {
    StringHashSnoc(p, c);
  }

  lemma HashOfCommonPart(p: string)
    requires p == "abcde"
    ensures StringHash(p) == 92599395
  {
    assert "" + ['a'] == "a";
    HashSnoc("", 'a', 0, 97);
    assert "a" + ['b'] == "ab";
    HashSnoc("a", 'b', 97, 3105);
    assert "ab" + ['c'] == "abc";
    HashSnoc("ab", 'c', 3105, 96354);
    assert "abc" + ['d'] == "abcd";
    HashSnoc("abc", 'd', 96354, 2987074);
    assert "abcd" + ['e'] == p;
    HashSnoc("abcd", 'e', 2987074, 92599395);
  }

  lemma HashesOfExample(s: string, t: string)
    requires s == "abcdefg" && t == "abcdegH"
    ensures StringHash(s) == StringHash(t) == 3088675940
  {
    var p := "abcde";
    HashOfCommonPart(p);
    assert p + ['f'] == "abcdef";
    HashSnoc(p, 'f', 92599395, 2870581347);
    assert "abcdef" + ['g'] == s;
    HashSnoc("abcdef", 'g', 2870581347, 3088675940);
    assert p + ['g'] == "abcdeg";
    HashSnoc(p, 'g', 92599395, 2870581348);
    assert "abcdeg" + ['H'] == t;
    HashSnoc("abcdeg", 'H', 2870581348, 3088675940);
  }

  lemma PrefixesOfExample(s: string, t: string)
    requires s == "abcdefg" && t == "abcdegH"
    ensures NamePrefix(s) == 23866752 && NamePrefix(t) == 23865791
  {
  }

  /**
   * "abcdefg" and "abcdegH" have the same (negative) string hash and
   * different prefix words: as written their class fingerprints are equal, so
   * a mapping holding the first answers a lookup of the second with the first's
   * entry. The intended fingerprints differ.
   */
  lemma ClassHashCollision(s: string, t: string)
    requires s == "abcdefg" && t == "abcdegH"
    ensures s != t && StringHash(s) == StringHash(t) >= TWO31
    ensures NamePrefix(s) != NamePrefix(t)
    ensures ClassHashAsWritten(s) == ClassHashAsWritten(t)
    ensures ClassHash(s) != ClassHash(t)
  {
    assert s[6] != t[6];
    HashesOfExample(s, t);
    PrefixesOfExample(s, t);
    ClassHashInjective(s, t);
  }

  /** The consequence for `ClassMapping.get`: looking up "abcdegH" finds the class "abcdefg". */
  lemma LookupFindsOtherClass(s: string, t: string, c: Class)
    requires s == "abcdefg" && t == "abcdegH" && c == NewClass(s, "a/A")
    ensures GetClassAsWritten(map[ClassHashAsWritten(s) := c], t) == Some(c)
    ensures GetClass(map[ClassHash(s) := c], t) == None
  {
    ClassHashCollision(s, t);
  }
}
