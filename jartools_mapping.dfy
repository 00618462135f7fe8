/**
 * The entry model of `dev.fastmc.jartools.remap`: Java `Int` (32-bit) hashes,
 * entries that cache their hash, and entry tables that are `SelfHashMap`s,
 * where adding an entry equal to a stored one replaces it.
 *
 * This module holds the abstract view: a table is a map from what `equals`
 * compares (a field's nameFrom, a method's (nameFrom, desc)) to the stored
 * entry. Class entries have no `equals` of their own; a class table is keyed
 * here by class name, which is what every lookup compares (see the README).
 * The operations on the `SelfHashMap` objects themselves are in module
 * `OldMappingTables`.
 */
module OldMappings {
  import opened Wrappers
  import opened Jvm
  import Mappings

  // ---- hashes --------------------------------------------------------------------

  /** `Field.hash(nameFrom)`: the Java string hash of nameFrom. */
  function FieldHash(nameFrom: string): U32 { StringHash(nameFrom) }

  /** `Class.hash(nameFrom)`: the Java string hash of nameFrom. */
  function ClassHash(nameFrom: string): U32 { StringHash(nameFrom) }

  /** `Method.hash(nameFrom, desc)`: `31 * hash(nameFrom) + hash(desc)` in `Int` arithmetic. */
  function MethodHash(nameFrom: string, desc: string): (r: U32)
    ensures r == (31 * StringHash(nameFrom) + StringHash(desc)) % TWO32
  {
    Wrap32(31 * StringHash(nameFrom) + StringHash(desc))
  }

  // ---- entries -------------------------------------------------------------------

  /** `MappingEntry.Field`, with the hash its `HashCache` holds. */
  datatype Field = Field(nameFrom: string, nameTo: string, hash: U32)

  /** `MappingEntry.Method`. */
  datatype Method = Method(nameFrom: string, desc: string, nameTo: string, hash: U32)

  /** What `Method.equals` compares. */
  type MethodKey = (string, string)

  function KeyOfMethod(e: Method): MethodKey { (e.nameFrom, e.desc) }

  /** `MappingEntry.MutableClass`, with the contents of its field and method tables. */
  datatype Class = Class(nameFrom: string, nameTo: string, hash: U32,
                         fields: map<string, Field>, methods: map<MethodKey, Method>)

  /** The class table: `ClassMapping` / `MutableClassMapping`. */
  type ClassMapping = map<string, Class>

  /** `Field(nameFrom, nameTo)`: the hash is computed from nameFrom when first asked for. */
  function NewField(nameFrom: string, nameTo: string): (r: Field)
    ensures r.nameFrom == nameFrom && r.nameTo == nameTo && r.hash == StringHash(nameFrom)
  {
    Field(nameFrom, nameTo, FieldHash(nameFrom))
  }

  /** `Method(nameFrom, desc, nameTo)`: the hash is computed from (nameFrom, desc). */
  function NewMethod(nameFrom: string, desc: string, nameTo: string): (r: Method)
    ensures KeyOfMethod(r) == (nameFrom, desc) && r.nameTo == nameTo
    ensures r.hash == (31 * StringHash(nameFrom) + StringHash(desc)) % TWO32
  {
    Method(nameFrom, desc, nameTo, MethodHash(nameFrom, desc))
  }

  /** `MutableClass(nameFrom, nameTo, hash)`: empty tables and the given hash. */
  function NewClass(nameFrom: string, nameTo: string, hash: U32): (r: Class)
    ensures r.nameFrom == nameFrom && r.nameTo == nameTo && r.hash == hash
    ensures r.fields == map[] && r.methods == map[]
  {
    Class(nameFrom, nameTo, hash, map[], map[])
  }

  /**
   * `MutableClass(nameFrom, nameTo)` as written: the implementation passes
   * the hash of its own not-yet-computed cache, 0, to the constructor that
   * takes a hash, so the entry is created with hash 0 marked as computed.
   */
  function NewClassTwoArgAsWritten(nameFrom: string, nameTo: string): (r: Class)
    ensures r.nameFrom == nameFrom && r.nameTo == nameTo && r.hash == 0
    ensures r.fields == map[] && r.methods == map[]
  {
    NewClass(nameFrom, nameTo, 0)
  }

  /**
   * `MutableClass(nameFrom, nameTo)` as intended: like the other entries
   * built without a hash, it reports `Class.hash(nameFrom)`.
   */
  function NewClassTwoArg(nameFrom: string, nameTo: string): (r: Class)
    ensures r.nameFrom == nameFrom && r.nameTo == nameTo && r.hash == StringHash(nameFrom)
    ensures r.fields == map[] && r.methods == map[]
  {
    NewClass(nameFrom, nameTo, ClassHash(nameFrom))
  }

  lemma HashOfA()
    ensures StringHash("a") == 97
  {
    assert "a" == "" + ['a'];
    StringHashSnoc("", 'a');
  }

  /**
   * The class "a" built with two arguments reports hash 0, while every lookup
   * for "a" probes from `Class.hash("a")` = 97: adding it leaves a mapping
   * whose stored hash disagrees with its name, which the intended
   * constructor never does.
   */
  lemma TwoArgClassHashZero(m: ClassMapping)
    requires Keyed(m) && Hashed(m)
    ensures NewClassTwoArgAsWritten("a", "a").hash == 0 != ClassHash("a") == 97
    ensures !Hashed(m["a" := NewClassTwoArgAsWritten("a", "a")])
    ensures Hashed(m["a" := NewClassTwoArg("a", "a")]) && Keyed(m["a" := NewClassTwoArg("a", "a")])
  {
    HashOfA();
    var m1 := m["a" := NewClassTwoArgAsWritten("a", "a")];
    assert m1["a"].hash != ClassHash("a");
    AddClassKeeps(m, NewClassTwoArg("a", "a"));
  }

  /** Adding an empty class hashed by its own name keeps a mapping keyed and hashed. */
  lemma AddClassKeeps(m: ClassMapping, c: Class)
    requires Keyed(m) && Hashed(m)
    requires c.fields == map[] && c.methods == map[] && c.hash == ClassHash(c.nameFrom)
    ensures Keyed(m[c.nameFrom := c]) && Hashed(m[c.nameFrom := c])
  {
    var m1 := m[c.nameFrom := c];
    forall k | k in m1 ensures m1[k].nameFrom == k && ClassKeyed(m1[k]) {
      if k != c.nameFrom { assert m1[k] == m[k]; }
    }
    forall k | k in m1
      ensures m1[k].hash == ClassHash(k)
      ensures forall f | f in m1[k].fields :: m1[k].fields[f].hash == FieldHash(f)
      ensures forall e | e in m1[k].methods :: m1[k].methods[e].hash == MethodHash(e.0, e.1)
    {
      if k != c.nameFrom { assert m1[k] == m[k]; }
    }
  }

  /** `Field.equals`: by nameFrom alone. */
  predicate FieldEquals(a: Field, b: Field) { a.nameFrom == b.nameFrom }

  /** `Method.equals`: by nameFrom and desc. */
  predicate MethodEquals(a: Method, b: Method) { KeyOfMethod(a) == KeyOfMethod(b) }

  /** Entries equal by `equals` whose hash was computed, not given, have equal hashes; nameTo plays no part. */
  lemma EqualsAgreesWithHash(f: Field, g: Field, m: Method, n: Method)
    requires f.hash == FieldHash(f.nameFrom) && g.hash == FieldHash(g.nameFrom)
    requires m.hash == MethodHash(m.nameFrom, m.desc) && n.hash == MethodHash(n.nameFrom, n.desc)
    ensures FieldEquals(f, g) ==> f.hash == g.hash
    ensures MethodEquals(m, n) ==> m.hash == n.hash
    ensures FieldEquals(f, f.(nameTo := g.nameTo)) && MethodEquals(m, m.(nameTo := n.nameTo))
  {
  }

  /** `MappingEntry.compareTo`: nameFrom, then nameTo (the same order as the current entries). */
  function FieldCompare(a: Field, b: Field): int {
    Mappings.CompareBase(a.nameFrom, a.nameTo, b.nameFrom, b.nameTo)
  }

  function ClassCompare(a: Class, b: Class): int {
    Mappings.CompareBase(a.nameFrom, a.nameTo, b.nameFrom, b.nameTo)
  }

  /** `Method.compareTo` against a method: nameFrom, nameTo, then desc. */
  function MethodCompare(a: Method, b: Method): int {
    var r := Mappings.CompareBase(a.nameFrom, a.nameTo, b.nameFrom, b.nameTo);
    if r == 0 then Compare(a.desc, b.desc) else r
  }

  /** `compareTo` orders methods by (nameFrom, nameTo, desc): antisymmetric, zero only on equal triples. */
  lemma MethodCompareOrder(a: Method, b: Method)
    requires Bmp(a.nameFrom) && Bmp(a.nameTo) && Bmp(a.desc) && Bmp(b.nameFrom) && Bmp(b.nameTo) && Bmp(b.desc)
    ensures MethodCompare(a, b) == -MethodCompare(b, a)
    ensures MethodCompare(a, b) == 0 <==> a.nameFrom == b.nameFrom && a.nameTo == b.nameTo && a.desc == b.desc
  {
    Mappings.CompareBaseOrder(a.nameFrom, a.nameTo, b.nameFrom, b.nameTo);
    CompareAntisymmetric(a.desc, b.desc);
    CompareZero(a.desc, b.desc);
  }

  /** Two fields (classes) compare equal exactly when both names agree. */
  lemma FieldCompareOrder(a: Field, b: Field)
    requires Bmp(a.nameFrom) && Bmp(a.nameTo) && Bmp(b.nameFrom) && Bmp(b.nameTo)
    ensures FieldCompare(a, b) == -FieldCompare(b, a)
    ensures FieldCompare(a, b) == 0 <==> a.nameFrom == b.nameFrom && a.nameTo == b.nameTo
  {
    Mappings.CompareBaseOrder(a.nameFrom, a.nameTo, b.nameFrom, b.nameTo);
  }

  // ---- tables --------------------------------------------------------------------

  /** Every entry sits under its own key. */
  ghost predicate FieldsKeyed(t: map<string, Field>) { forall k | k in t :: t[k].nameFrom == k }
  ghost predicate MethodsKeyed(t: map<MethodKey, Method>) { forall k | k in t :: KeyOfMethod(t[k]) == k }
  ghost predicate ClassKeyed(c: Class) { FieldsKeyed(c.fields) && MethodsKeyed(c.methods) }
  ghost predicate Keyed(m: ClassMapping) { forall k | k in m :: m[k].nameFrom == k && ClassKeyed(m[k]) }

  /** Every entry's cached hash is the one its key gives: the tables find entries by that hash. */
  ghost predicate Hashed(m: ClassMapping) {
    forall k | k in m ::
      && m[k].hash == ClassHash(k)
      && (forall f | f in m[k].fields :: m[k].fields[f].hash == FieldHash(f))
      && (forall e | e in m[k].methods :: m[k].methods[e].hash == MethodHash(e.0, e.1))
  }

  /** `FieldMappingEntryMap.get(nameFrom)`. */
  function GetField(t: map<string, Field>, nameFrom: string): (r: Option<Field>)
    ensures r.Some? <==> nameFrom in t
    ensures r.Some? ==> r.value == t[nameFrom]
  {
    if nameFrom in t then Some(t[nameFrom]) else None
  }

  /** `MethodMappingEntryMap.get(nameFrom, desc)`. */
  function GetMethod(t: map<MethodKey, Method>, nameFrom: string, desc: string): (r: Option<Method>)
    ensures r.Some? <==> (nameFrom, desc) in t
    ensures r.Some? ==> r.value == t[(nameFrom, desc)]
  {
    if (nameFrom, desc) in t then Some(t[(nameFrom, desc)]) else None
  }

  /** `ClassMapping.get(nameFrom)`. */
  function GetClass(m: ClassMapping, nameFrom: string): (r: Option<Class>)
    ensures r.Some? <==> nameFrom in m
    ensures r.Some? ==> r.value == m[nameFrom]
  {
    if nameFrom in m then Some(m[nameFrom]) else None
  }

  /** The `getNameTo` lookups. */
  function FieldNameTo(t: map<string, Field>, nameFrom: string): Option<string> {
    if nameFrom in t then Some(t[nameFrom].nameTo) else None
  }

  function MethodNameTo(t: map<MethodKey, Method>, nameFrom: string, desc: string): Option<string> {
    if (nameFrom, desc) in t then Some(t[(nameFrom, desc)].nameTo) else None
  }

  function ClassNameTo(m: ClassMapping, nameFrom: string): Option<string> {
    if nameFrom in m then Some(m[nameFrom].nameTo) else None
  }

  /** In a keyed mapping a lookup answers with an entry of the queried name (and desc). */
  lemma LookupsMatchName(m: ClassMapping, name: string, desc: string)
    requires Keyed(m)
    ensures GetClass(m, name).Some? ==> GetClass(m, name).value.nameFrom == name
    ensures forall k | k in m :: GetField(m[k].fields, name).Some? ==> GetField(m[k].fields, name).value.nameFrom == name
    ensures forall k | k in m :: GetMethod(m[k].methods, name, desc).Some? ==>
      KeyOfMethod(GetMethod(m[k].methods, name, desc).value) == (name, desc)
  {
  }

  /** `add` on a field table: the new entry replaces an equal one. */
  function PutField(c: Class, f: Field): (r: Class)
    ensures r.fields == c.fields[f.nameFrom := f] && r.methods == c.methods
    ensures r.nameFrom == c.nameFrom && r.nameTo == c.nameTo && r.hash == c.hash
  {
    c.(fields := c.fields[f.nameFrom := f])
  }

  /** `add` on a method table: the new entry replaces an equal one. */
  function PutMethod(c: Class, e: Method): (r: Class)
    ensures r.methods == c.methods[KeyOfMethod(e) := e] && r.fields == c.fields
    ensures r.nameFrom == c.nameFrom && r.nameTo == c.nameTo && r.hash == c.hash
  {
    c.(methods := c.methods[KeyOfMethod(e) := e])
  }

  /** Member adds keep a class keyed and leave every other member where it was. */
  lemma PutKeepsKeyed(c: Class, f: Field, e: Method)
    requires ClassKeyed(c)
    ensures ClassKeyed(PutField(c, f)) && ClassKeyed(PutMethod(c, e))
    ensures forall k | k in c.fields && k != f.nameFrom :: PutField(c, f).fields[k] == c.fields[k]
    ensures GetField(PutField(c, f).fields, f.nameFrom) == Some(f)
    ensures GetMethod(PutMethod(c, e).methods, e.nameFrom, e.desc) == Some(e)
  {
  }

  /**
   * `getOrCreate(nameFrom, nameTo)`: the class stored under nameFrom, else a
   * new empty class (nameFrom, nameTo, `Class.hash(nameFrom)`) added to the
   * mapping. `getOrCreate(name)` is the case nameTo = name.
   */
  function GetOrCreate(m: ClassMapping, nameFrom: string, nameTo: string): (r: ClassMapping)
    ensures nameFrom in r && r.Keys == m.Keys + {nameFrom}
    ensures nameFrom in m ==> r == m
    ensures nameFrom !in m ==> r == m[nameFrom := NewClass(nameFrom, nameTo, ClassHash(nameFrom))]
  {
    if nameFrom in m then m else m[nameFrom := NewClass(nameFrom, nameTo, ClassHash(nameFrom))]
  }

  /**
   * Repeating `getOrCreate` returns the same entry and leaves the mapping as
   * the first call left it, so the size grows at most once; a new entry
   * carries the requested nameTo.
   */
  lemma GetOrCreateTwice(m: ClassMapping, nameFrom: string, nameTo: string, nameTo2: string)
    ensures var m1 := GetOrCreate(m, nameFrom, nameTo);
      && GetOrCreate(m1, nameFrom, nameTo2) == m1 && |m1| <= |m| + 1
      && (nameFrom !in m ==> m1[nameFrom].nameTo == nameTo && |m1| == |m| + 1)
  {
  }

  /** `getOrCreate` keeps a mapping keyed and hashed: the new class is empty and hashed by its name. */
  lemma GetOrCreateKeeps(m: ClassMapping, nameFrom: string, nameTo: string)
    requires Keyed(m) && Hashed(m)
    ensures Keyed(GetOrCreate(m, nameFrom, nameTo)) && Hashed(GetOrCreate(m, nameFrom, nameTo))
  {
    if nameFrom !in m {
      AddClassKeeps(m, NewClass(nameFrom, nameTo, ClassHash(nameFrom)));
    }
  }

  /** A member add on the class stored under name. */
  function AddField(m: ClassMapping, name: string, f: Field): (r: ClassMapping)
    requires name in m
    ensures r.Keys == m.Keys && r[name] == PutField(m[name], f)
    ensures forall k | k in m && k != name :: r[k] == m[k]
  {
    m[name := PutField(m[name], f)]
  }

  function AddMethod(m: ClassMapping, name: string, e: Method): (r: ClassMapping)
    requires name in m
    ensures r.Keys == m.Keys && r[name] == PutMethod(m[name], e)
    ensures forall k | k in m && k != name :: r[k] == m[k]
  {
    m[name := PutMethod(m[name], e)]
  }

  /**
   * `addAll(other)` of one class table into another (`SelfHashMap.putAll`):
   * every class of other replaces the one stored under its name.
   */
  function AddAll(m: ClassMapping, other: ClassMapping): (r: ClassMapping)
    ensures r.Keys == m.Keys + other.Keys
    ensures forall k | k in other :: r[k] == other[k]
    ensures forall k | k in m && k !in other :: r[k] == m[k]
  {
    m + other
  }

  /** Merging keyed (hashed) mappings gives a keyed (hashed) mapping; merging with itself changes nothing. */
  lemma AddAllKeeps(m: ClassMapping, other: ClassMapping)
    requires Keyed(m) && Keyed(other)
    ensures Keyed(AddAll(m, other))
    ensures Hashed(m) && Hashed(other) ==> Hashed(AddAll(m, other))
    ensures AddAll(AddAll(m, other), other) == AddAll(m, other)
  {
  }
}
