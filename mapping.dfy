/**
 * The entry model of `dev.fastmc.remapper.mapping` (Mapping.kt): field, method
 * and class entries carrying a 64-bit fingerprint, and the fingerprint-keyed
 * tables that hold them. A table is the abstract view of a `BackingMap`: a map
 * from fingerprint to the first entry added with it (module BackingMapTables
 * proves that the two-bucket table behaves so).
 *
 * An entry's fingerprint is computed once, by `hash()`, or given outright (the
 * constructors taking `hash: Long`, used when a cached mapping is read back);
 * `hashCodeLong` reports it and never recomputes. The model stores it in the
 * entry when the entry is built.
 */
module Mappings {
  import opened Wrappers
  import opened Bits
  import opened Jvm

  // ---- fingerprints ----------------------------------------------------------

  /** `31 * result + x` in `Int` arithmetic. */
  function Step31(result: U32, x: int): U32 { Wrap32(31 * result + x) }

  /**
   * The high word of a field or class fingerprint: `code(first) shl 8`, then
   * the last code unit, then the length. A code unit is below 2^16, so the
   * shift is exact.
   */
  function NamePrefix(s: string): U32
    requires |s| > 0
  {
    Step31(Step31(Code(s[0]) * 256, Code(s[|s| - 1])), |s|)
  }

  /** The 32-bit word of a method fingerprint: first code unit, then length, then last. */
  function MethodWord(s: string): U32
    requires |s| > 0
  {
    Step31(Step31(Code(s[0]) * 256, |s|), Code(s[|s| - 1]))
  }

  /** `(x.toLong() shl 32)`: the sign bits are shifted out. */
  lemma ShlHigh(u: U32)
    ensures Shl64(IntToLong(u), 32) == u * TWO32
  {
    var v := IntToLong(u);
    ShiftLeftIs(v, 32);
    Pow2Word();
    if u >= TWO31 {
      assert v * TWO32 == u * TWO32 + (TWO32 - 1) * TWO64;
      ModAddMultiple(u * TWO32, TWO32 - 1, TWO64);
    }
  }

  lemma ModAddMultiple(x: nat, m: nat, d: nat)
    requires x < d
    ensures (x + m * d) % d == x
  {
    DivUnique(x + m * d, d, m, x);
  }

  /**
   * `Field.hash(nameFrom)`: 0 for the empty name, else the prefix word shifted
   * up plus the sign-extended `String.hashCode`. The low word is the Java
   * string hash; the high word is the prefix, less one when the string hash is
   * negative (the borrow of the sign extension).
   */
  function FieldHash(s: string): (r: U64)
    ensures |s| == 0 ==> r == 0
    ensures |s| > 0 ==> r % TWO32 == StringHash(s)
    ensures |s| > 0 && StringHash(s) < TWO31 ==> r / TWO32 == NamePrefix(s)
    ensures |s| > 0 && StringHash(s) >= TWO31 ==> r / TWO32 == (NamePrefix(s) + TWO32 - 1) % TWO32
  {
    if |s| == 0 then 0
    else
      FieldHashWords(NamePrefix(s), StringHash(s));
      Wrap64(Shl64(IntToLong(NamePrefix(s)), 32) + IntToLong(StringHash(s)))
  }

  lemma FieldHashWords(p: U32, h: U32)
    ensures var r := Wrap64(Shl64(IntToLong(p), 32) + IntToLong(h));
      && r % TWO32 == h
      && r / TWO32 == if h < TWO31 then p else (p + TWO32 - 1) % TWO32
  {
    ShlHigh(p);
    if h < TWO31 {
      SplitWords(p * TWO32 + h, p, h);
    } else {
      var q := (p + TWO32 - 1) % TWO32;
      assert p * TWO32 + IntToLong(h) == q * TWO32 + h + (if p == 0 then 0 else TWO64);
      ModAddMultiple(q * TWO32 + h, if p == 0 then 0 else 1, TWO64);
      SplitWords(q * TWO32 + h, q, h);
    }
  }

  /** A value below 2^64 made of a high and a low word. */
  lemma SplitWords(r: nat, q: U32, h: U32)
    requires r == q * TWO32 + h
    ensures r < TWO64 && Wrap64(r) == r && r % TWO32 == h && r / TWO32 == q
  {
    DivUnique(r, TWO32, q, h);
  }

  /**
   * `Class.hash(nameFrom)` with the string hash taken as an unsigned word,
   * `(prefix.toLong() shl 32) or (hashCode().toLong() and 0xFFFFFFFFL)`: the
   * prefix in the high word, the Java string hash in the low one. The source
   * ORs the sign-extended hash instead; module MappingFindings shows what that
   * loses.
   */
  function ClassHash(s: string): U64 {
    if |s| == 0 then 0 else NamePrefix(s) * TWO32 + StringHash(s)
  }

  /** The fingerprint is the bitwise form: the prefix shifted into the high word, ORed with the hash. */
  lemma ClassHashBits(s: string)
    requires |s| > 0
    ensures ClassHash(s) == Or64(Shl64(IntToLong(NamePrefix(s)), 32), StringHash(s))
  {
    ShlHigh(NamePrefix(s));
    Pow2Word();
    Or64Disjoint(NamePrefix(s), StringHash(s), 32);
  }

  /** Two class names share a fingerprint exactly when they share prefix word and string hash. */
  lemma ClassHashInjective(s: string, t: string)
    requires |s| > 0 && |t| > 0
    ensures ClassHash(s) == ClassHash(t) <==> NamePrefix(s) == NamePrefix(t) && StringHash(s) == StringHash(t)
  {
    if ClassHash(s) == ClassHash(t) {
      DivUnique(ClassHash(s), TWO32, NamePrefix(s), StringHash(s));
      DivUnique(ClassHash(t), TWO32, NamePrefix(t), StringHash(t));
    }
  }

  /**
   * `Method.hash(nameFrom, desc)`: both words, folded with `* 0x10101`, plus
   * `0x111 * hash(nameFrom) + hash(desc)` in `Long` arithmetic. It reads the
   * first and last character of both strings, so either string empty throws
   * (`None`).
   */
  function MethodHash(name: string, desc: string): (r: Option<U64>)
    ensures r.Some? <==> |name| > 0 && |desc| > 0
  {
    if |name| == 0 || |desc| == 0 then None
    else
      var a, b := MethodWord(name), MethodWord(desc);
      var c := Wrap64(0x111 * IntToLong(StringHash(name)) + IntToLong(StringHash(desc)));
      Some(Wrap64((IntToLong(a) * 0x10101 + IntToLong(b)) * 0x10101 + c))
  }

  /**
   * `hashCode()`: `((h ushr 32) xor h).toInt()`, the XOR of the two words of
   * the fingerprint.
   */
  function HashCode(h: U64): (r: U32)
    ensures r == Xor(h / TWO32, h % TWO32)
  {
    HashCodeFold(h);
    LongToInt(Xor64(Ushr64(h, 32), h))
  }

  lemma HashCodeFold(h: U64)
    ensures LongToInt(Xor64(Ushr64(h, 32), h)) == Xor(h / TWO32, h % TWO32)
  {
    var a := Ushr64(h, 32);
    assert a == h / TWO32 by {
      ShiftRightIs(h, 32);
      Pow2Word();
    }
    var x := Xor(a, h);
    assert LongToInt(Xor64(a, h)) == x % TWO32 by {
      LowWordOfMod(x);
    }
    assert x % TWO32 == Xor(a % TWO32, h % TWO32) by {
      XorLow(a, h, 32);
      Pow2Word();
    }
    HighWordSmall(h);
    SmallMod(a, TWO32);
  }

  /** The high word of a 64-bit pattern is below 2^32. */
  lemma HighWordSmall(h: U64)
    ensures h / TWO32 < TWO32
  {
    assert TWO32 * (h / TWO32) <= h < TWO32 * TWO32;
  }

  /** Reducing modulo 2^64 keeps the low word. */
  lemma LowWordOfMod(x: nat)
    ensures x % TWO64 % TWO32 == x % TWO32
  {
    var q, r := x / TWO32 / TWO32, x / TWO32 % TWO32;
    assert x / TWO32 == TWO32 * q + r;
    assert x == TWO64 * q + (TWO32 * r + x % TWO32);
    DivUnique(x, TWO64, q, TWO32 * r + x % TWO32);
    DivUnique(x % TWO64, TWO32, r, x % TWO32);
  }

  lemma XorStep(a: nat, b: nat)
    ensures Xor(a, b) == 2 * Xor(a / 2, b / 2) + (if a % 2 != b % 2 then 1 else 0)
  {
    if a == 0 {
      assert Xor(0, b / 2) == b / 2;
    } else if b == 0 {
      assert Xor(a / 2, 0) == a / 2;
    }
  }

  /** The low k bits of an XOR are the XOR of the low k bits. */
  lemma {:induction false} XorLow(a: nat, b: nat, k: nat)
    ensures Xor(a, b) % Pow2(k) == Xor(a % Pow2(k), b % Pow2(k))
    decreases k
  {
    if k > 0 {
      var p := Pow2(k - 1);
      XorStep(a, b);
      XorLow(a / 2, b / 2, k - 1);
      ModTwice(Xor(a, b), p);
      ModTwice(a, p);
      ModTwice(b, p);
      var a1, b1 := a % (2 * p), b % (2 * p);
      XorStep(a1, b1);
      assert a1 / 2 == (a / 2) % p && a1 % 2 == a % 2;
      assert b1 / 2 == (b / 2) % p && b1 % 2 == b % 2;
      assert Xor(a, b) / 2 == Xor(a / 2, b / 2);
    }
  }

  /** The XOR of two k-bit numbers is a k-bit number. */
  lemma {:induction false} XorBelow(a: nat, b: nat, k: nat)
    requires a < Pow2(k) && b < Pow2(k)
    ensures Xor(a, b) < Pow2(k)
    decreases k
  {
    if k > 0 && a > 0 && b > 0 {
      XorBelow(a / 2, b / 2, k - 1);
    }
  }

  // ---- entries ---------------------------------------------------------------

  /** `MappingEntry.Field`. */
  datatype Field = Field(nameFrom: string, nameTo: string, hash: U64)

  /** `MappingEntry.Method`. */
  datatype Method = Method(nameFrom: string, desc: string, nameTo: string, hash: U64)

  /** A fingerprint-keyed table: the contents of a `BackingMap`. */
  type Table<E> = map<U64, E>

  /** `MappingEntry.MutableClass`, with its field and method tables. */
  datatype Class = Class(nameFrom: string, nameTo: string, hash: U64,
                         fields: Table<Field>, methods: Table<Method>)

  /** The class tables: `ClassMapping` / `MutableClassMapping`. */
  type ClassMapping = Table<Class>

  /** `Field(nameFrom, nameTo)`: the fingerprint is computed from nameFrom. */
  function NewField(nameFrom: string, nameTo: string): (r: Field)
    ensures r.nameFrom == nameFrom && r.nameTo == nameTo && r.hash == FieldHash(nameFrom)
  {
    Field(nameFrom, nameTo, FieldHash(nameFrom))
  }

  /** `Method(nameFrom, desc, nameTo)`: computing the fingerprint throws on an empty name or desc. */
  function NewMethod(nameFrom: string, desc: string, nameTo: string): (r: Option<Method>)
    ensures r.Some? <==> |nameFrom| > 0 && |desc| > 0
    ensures r.Some? ==> r.value == Method(nameFrom, desc, nameTo, MethodHash(nameFrom, desc).value)
  {
    match MethodHash(nameFrom, desc)
    case None => None
    case Some(h) => Some(Method(nameFrom, desc, nameTo, h))
  }

  /** `MutableClass(nameFrom, nameTo)`: empty tables, fingerprint from nameFrom. */
  function NewClass(nameFrom: string, nameTo: string): (r: Class)
    ensures r.nameFrom == nameFrom && r.nameTo == nameTo && r.hash == ClassHash(nameFrom)
    ensures r.fields == map[] && r.methods == map[]
  {
    Class(nameFrom, nameTo, ClassHash(nameFrom), map[], map[])
  }

  /** `Field.equals`: by nameFrom alone. */
  predicate FieldEquals(a: Field, b: Field) { a.nameFrom == b.nameFrom }

  /** `Method.equals`: by nameFrom and desc. */
  predicate MethodEquals(a: Method, b: Method) { a.nameFrom == b.nameFrom && a.desc == b.desc }

  /** Entries equal by `equals` and built without an explicit fingerprint have the same fingerprint and `hashCode`. */
  lemma EqualsAgreesWithHash(f: Field, g: Field, m: Method, n: Method)
    requires f.hash == FieldHash(f.nameFrom) && g.hash == FieldHash(g.nameFrom)
    requires |m.nameFrom| > 0 && |m.desc| > 0 && |n.nameFrom| > 0 && |n.desc| > 0
    requires m.hash == MethodHash(m.nameFrom, m.desc).value && n.hash == MethodHash(n.nameFrom, n.desc).value
    ensures FieldEquals(f, g) ==> f.hash == g.hash && HashCode(f.hash) == HashCode(g.hash)
    ensures MethodEquals(m, n) ==> m.hash == n.hash && HashCode(m.hash) == HashCode(n.hash)
  {
  }

  /** nameTo plays no part in equality: renaming the target keeps an entry equal to itself. */
  lemma EqualsIgnoresNameTo(f: Field, m: Method, to: string)
    ensures FieldEquals(f, f.(nameTo := to)) && MethodEquals(m, m.(nameTo := to))
  {
  }

  /** `MappingEntry.compareTo`: nameFrom, then nameTo. */
  function CompareBase(aFrom: string, aTo: string, bFrom: string, bTo: string): int {
    var r := Compare(aFrom, bFrom);
    if r == 0 then Compare(aTo, bTo) else r
  }

  function FieldCompare(a: Field, b: Field): int {
    CompareBase(a.nameFrom, a.nameTo, b.nameFrom, b.nameTo)
  }

  /** `Method.compareTo` against a method: nameFrom, nameTo, then desc. */
  function MethodCompare(a: Method, b: Method): int {
    var r := CompareBase(a.nameFrom, a.nameTo, b.nameFrom, b.nameTo);
    if r == 0 then Compare(a.desc, b.desc) else r
  }

  function ClassCompare(a: Class, b: Class): int {
    CompareBase(a.nameFrom, a.nameTo, b.nameFrom, b.nameTo)
  }

  /** The order on names is antisymmetric, and is zero exactly on equal names. */
  lemma CompareBaseOrder(aFrom: string, aTo: string, bFrom: string, bTo: string)
    requires Bmp(aFrom) && Bmp(aTo) && Bmp(bFrom) && Bmp(bTo)
    ensures CompareBase(aFrom, aTo, bFrom, bTo) == -CompareBase(bFrom, bTo, aFrom, aTo)
    ensures CompareBase(aFrom, aTo, bFrom, bTo) == 0 <==> aFrom == bFrom && aTo == bTo
  {
    CompareAntisymmetric(aFrom, bFrom);
    CompareAntisymmetric(aTo, bTo);
    CompareZero(aFrom, bFrom);
    CompareZero(aTo, bTo);
  }

  /** `compareTo` orders methods by (nameFrom, nameTo, desc): antisymmetric, zero only on equal triples. */
  lemma MethodCompareOrder(a: Method, b: Method)
    requires Bmp(a.nameFrom) && Bmp(a.nameTo) && Bmp(a.desc) && Bmp(b.nameFrom) && Bmp(b.nameTo) && Bmp(b.desc)
    ensures MethodCompare(a, b) == -MethodCompare(b, a)
    ensures MethodCompare(a, b) == 0 <==> a.nameFrom == b.nameFrom && a.nameTo == b.nameTo && a.desc == b.desc
  {
    CompareBaseOrder(a.nameFrom, a.nameTo, b.nameFrom, b.nameTo);
    CompareAntisymmetric(a.desc, b.desc);
    CompareZero(a.desc, b.desc);
  }

  /** The order on names is transitive. */
  lemma CompareBaseTransitive(a: (string, string), b: (string, string), c: (string, string))
    requires Bmp(a.0) && Bmp(b.0) && Bmp(c.0)
    requires CompareBase(a.0, a.1, b.0, b.1) < 0 && CompareBase(b.0, b.1, c.0, c.1) < 0
    ensures CompareBase(a.0, a.1, c.0, c.1) < 0
  {
    var ab, bc := Compare(a.0, b.0), Compare(b.0, c.0);
    CompareZero(a.0, b.0);
    CompareZero(b.0, c.0);
    if ab < 0 && bc < 0 {
      CompareTransitive(a.0, b.0, c.0);
    } else if ab == 0 && bc == 0 {
      CompareTransitive(a.1, b.1, c.1);
    }
  }

  // ---- tables ----------------------------------------------------------------

  /**
   * `MutableMappingEntryMapImpl.add`, i.e. `BackingMap.add`: an entry whose
   * fingerprint is already present is not stored; the first one stays.
   */
  function Add<E>(t: Table<E>, key: U64, e: E): Table<E> {
    if key in t then t else t[key := e]
  }

  /** An add keeps what is present and otherwise inserts, growing the table by one. */
  lemma AddGrows<E>(t: Table<E>, key: U64, e: E)
    ensures Add(t, key, e).Keys == t.Keys + {key}
    ensures key in t ==> Add(t, key, e) == t
    ensures key !in t ==> |Add(t, key, e)| == |t| + 1
  {
  }

  /** Every entry sits under its own fingerprint. */
  ghost predicate FieldsKeyed(t: Table<Field>) { forall h :: h in t ==> t[h].hash == h }
  ghost predicate MethodsKeyed(t: Table<Method>) { forall h :: h in t ==> t[h].hash == h }
  ghost predicate ClassKeyed(c: Class) { FieldsKeyed(c.fields) && MethodsKeyed(c.methods) }
  ghost predicate Keyed(m: ClassMapping) { forall h :: h in m ==> m[h].hash == h && ClassKeyed(m[h]) }

  /** `FieldMappingEntryMap.get(nameFrom)`: by fingerprint only. */
  function GetField(t: Table<Field>, nameFrom: string): (r: Option<Field>)
    ensures r.Some? <==> FieldHash(nameFrom) in t
    ensures r.Some? ==> r.value == t[FieldHash(nameFrom)]
  {
    var h := FieldHash(nameFrom);
    if h in t then Some(t[h]) else None
  }

  /** `MethodMappingEntryMap.get(nameFrom, desc)`; computing the fingerprint throws on an empty name or desc. */
  function GetMethod(t: Table<Method>, nameFrom: string, desc: string): (r: Result<Option<Method>>)
    ensures r.Ok? <==> |nameFrom| > 0 && |desc| > 0
    ensures r.Ok? ==> (r.value.Some? <==> MethodHash(nameFrom, desc).value in t)
    ensures r.Ok? && r.value.Some? ==> r.value.value == t[MethodHash(nameFrom, desc).value]
  {
    match MethodHash(nameFrom, desc)
    case None => Err("StringIndexOutOfBoundsException")
    case Some(h) => Ok(if h in t then Some(t[h]) else None)
  }

  /** `ClassMapping.get(nameFrom)`. */
  function GetClass(m: ClassMapping, nameFrom: string): (r: Option<Class>)
    ensures r.Some? <==> ClassHash(nameFrom) in m
    ensures r.Some? ==> r.value == m[ClassHash(nameFrom)]
  {
    var h := ClassHash(nameFrom);
    if h in m then Some(m[h]) else None
  }

  /** `getNameTo` on fields. */
  function FieldNameTo(t: Table<Field>, nameFrom: string): Option<string> {
    match GetField(t, nameFrom)
    case None => None
    case Some(f) => Some(f.nameTo)
  }

  /** `getNameTo` on methods. */
  function MethodNameTo(t: Table<Method>, nameFrom: string, desc: string): Result<Option<string>> {
    match GetMethod(t, nameFrom, desc)
    case Err(e) => Err(e)
    case Ok(None) => Ok(None)
    case Ok(Some(m)) => Ok(Some(m.nameTo))
  }

  /** `ClassMapping.getNameTo(nameFrom)`. */
  function ClassNameTo(m: ClassMapping, nameFrom: string): Option<string> {
    match GetClass(m, nameFrom)
    case None => None
    case Some(c) => Some(c.nameTo)
  }

  /** A lookup answers only with the entry stored under the queried fingerprint, which is that entry's own. */
  lemma LookupsMatchFingerprint(m: ClassMapping, name: string, desc: string)
    requires Keyed(m)
    ensures GetClass(m, name).Some? ==> GetClass(m, name).value.hash == ClassHash(name)
    ensures forall h :: h in m && GetField(m[h].fields, name).Some? ==>
      GetField(m[h].fields, name).value.hash == FieldHash(name)
    ensures forall h :: h in m && GetMethod(m[h].methods, name, desc).Ok? && GetMethod(m[h].methods, name, desc).value.Some? ==>
      GetMethod(m[h].methods, name, desc).value.value.hash == MethodHash(name, desc).value
  {
  }

  /**
   * `getOrCreate(nameFrom, nameTo)`: the class stored under nameFrom's
   * fingerprint, else a new empty class (nameFrom, nameTo) added to the
   * mapping. Returns the new mapping and the fingerprint under which the
   * returned entry sits; the caller's later member adds go to that entry.
   */
  function GetOrCreate(m: ClassMapping, nameFrom: string, nameTo: string): (r: (ClassMapping, U64))
    ensures r.1 == ClassHash(nameFrom) && r.1 in r.0
    ensures ClassHash(nameFrom) in m ==> r.0 == m
    ensures ClassHash(nameFrom) !in m ==> r.0 == m[r.1 := NewClass(nameFrom, nameTo)]
  {
    var key := ClassHash(nameFrom);
    (Add(m, key, NewClass(nameFrom, nameTo)), key)
  }

  /**
   * Repeating `getOrCreate` returns the same entry and leaves the mapping as the
   * first call left it, so the size grows at most once; a new entry keeps the
   * mapping keyed.
   */
  lemma GetOrCreateTwice(m: ClassMapping, nameFrom: string, nameTo: string, nameTo2: string)
    requires Keyed(m)
    ensures var (m1, k1) := GetOrCreate(m, nameFrom, nameTo);
      var (m2, k2) := GetOrCreate(m1, nameFrom, nameTo2);
      && k2 == k1 && m2 == m1 && m2[k2] == m1[k1]
      && |m1| <= |m| + 1 && Keyed(m1)
      && (k1 !in m ==> m1[k1].nameTo == nameTo)
  {
  }

  /** `lastClassEntry.fieldMapping.add(f)` on the entry stored under `key`. */
  function AddField(m: ClassMapping, key: U64, f: Field): (r: ClassMapping)
    requires key in m
    ensures r.Keys == m.Keys
    ensures r[key] == m[key].(fields := Add(m[key].fields, f.hash, f))
    ensures forall h :: h in m && h != key ==> r[h] == m[h]
  {
    m[key := m[key].(fields := Add(m[key].fields, f.hash, f))]
  }

  /** `lastClassEntry.methodMapping.add(e)` on the entry stored under `key`. */
  function AddMethod(m: ClassMapping, key: U64, e: Method): (r: ClassMapping)
    requires key in m
    ensures r.Keys == m.Keys
    ensures r[key] == m[key].(methods := Add(m[key].methods, e.hash, e))
    ensures forall h :: h in m && h != key ==> r[h] == m[h]
  {
    m[key := m[key].(methods := Add(m[key].methods, e.hash, e))]
  }

  /** Member adds keep a keyed mapping keyed. */
  lemma AddFieldKeyed(m: ClassMapping, key: U64, f: Field)
    requires Keyed(m) && key in m
    ensures Keyed(AddField(m, key, f))
  {
    var c := m[key];
    assert FieldsKeyed(Add(c.fields, f.hash, f));
  }

  lemma AddMethodKeyed(m: ClassMapping, key: U64, e: Method)
    requires Keyed(m) && key in m
    ensures Keyed(AddMethod(m, key, e))
  {
    var c := m[key];
    assert MethodsKeyed(Add(c.methods, e.hash, e));
  }
}
