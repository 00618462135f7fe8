/**
 * The `dev.fastmc.jartools.remap` tables as `SelfHashMap` objects: the
 * lookups hash the query and confirm with a comparator (`get(hash,
 * compareFunc)`), `add` replaces an equal entry, and `getOrCreate` adds a
 * class only when the lookup finds none. Each operation is proved to agree
 * with its counterpart on the abstract view in module `OldMappings`.
 *
 * A table's hashing takes an entry's hash from its key, so these tables hold
 * entries whose cached hash is the one their name gives (`Hashed`).
 */
module OldMappingTables {
  import opened Wrappers
  import opened Jvm
  import S = SelfHashMaps
  import opened SelfHashMapTables
  import opened OldMappings

  function FieldName(f: Field): string { f.nameFrom }
  function MethodKeyHash(k: MethodKey): U32 { MethodHash(k.0, k.1) }
  function ClassName(c: Class): string { c.nameFrom }

  /** A field table: keyed by nameFrom (`Field.equals`) and hashed by `Field.hash`. */
  ghost predicate FieldTable(t: SelfHashMap<Field, string>)
    reads t, t.key
  {
    t.Valid() && t.hs.keyOf == FieldName && t.hs.hashOf == FieldHash
  }

  /** A method table: keyed by (nameFrom, desc) (`Method.equals`) and hashed by `Method.hash`. */
  ghost predicate MethodTable(t: SelfHashMap<Method, MethodKey>)
    reads t, t.key
  {
    t.Valid() && t.hs.keyOf == KeyOfMethod && t.hs.hashOf == MethodKeyHash
  }

  /** A class table: keyed by nameFrom and hashed by `Class.hash`. */
  ghost predicate ClassTable(t: SelfHashMap<Class, string>)
    reads t, t.key
  {
    t.Valid() && t.hs.keyOf == ClassName && t.hs.hashOf == ClassHash
  }

  /** `FieldMappingEntryMap.get(nameFrom)`: the field named nameFrom, if stored. */
  method FieldGet(t: SelfHashMap<Field, string>, nameFrom: string) returns (r: Option<Field>)
    requires FieldTable(t)
    ensures r == GetField(t.contents, nameFrom)
  {
    t.ContentsKeyed();
    r := t.GetWith(FieldHash(nameFrom), (f: Field) => f.nameFrom == nameFrom);
    if r.None? && nameFrom in t.contents {
      assert t.hs.hashOf(nameFrom) == FieldHash(nameFrom);
    }
  }

  /** `FieldMappingEntryMap.getNameTo(nameFrom)`. */
  method FieldGetNameTo(t: SelfHashMap<Field, string>, nameFrom: string) returns (r: Option<string>)
    requires FieldTable(t)
    ensures r == FieldNameTo(t.contents, nameFrom)
    ensures r.Some? <==> nameFrom in t.contents
  {
    var e := FieldGet(t, nameFrom);
    r := if e.Some? then Some(e.value.nameTo) else None;
  }

  /** `MethodMappingEntryMap.get(nameFrom, desc)`: the method with that name and desc, if stored. */
  method MethodGet(t: SelfHashMap<Method, MethodKey>, nameFrom: string, desc: string) returns (r: Option<Method>)
    requires MethodTable(t)
    ensures r == GetMethod(t.contents, nameFrom, desc)
  {
    t.ContentsKeyed();
    r := t.GetWith(MethodHash(nameFrom, desc), (e: Method) => e.nameFrom == nameFrom && e.desc == desc);
    if r.None? && (nameFrom, desc) in t.contents {
      assert t.hs.hashOf((nameFrom, desc)) == MethodHash(nameFrom, desc);
      assert t.hs.keyOf(t.contents[(nameFrom, desc)]) == (nameFrom, desc);
    }
  }

  /** `MethodMappingEntryMap.getNameTo(nameFrom, desc)`. */
  method MethodGetNameTo(t: SelfHashMap<Method, MethodKey>, nameFrom: string, desc: string) returns (r: Option<string>)
    requires MethodTable(t)
    ensures r == MethodNameTo(t.contents, nameFrom, desc)
    ensures r.Some? <==> (nameFrom, desc) in t.contents
  {
    var e := MethodGet(t, nameFrom, desc);
    r := if e.Some? then Some(e.value.nameTo) else None;
  }

  /** `ClassMapping.get(nameFrom)`: the class named nameFrom, if stored. */
  method ClassGet(t: SelfHashMap<Class, string>, nameFrom: string) returns (r: Option<Class>)
    requires ClassTable(t)
    ensures r == GetClass(t.contents, nameFrom)
  {
    t.ContentsKeyed();
    r := t.GetWith(ClassHash(nameFrom), (c: Class) => c.nameFrom == nameFrom);
    if r.None? && nameFrom in t.contents {
      assert t.hs.hashOf(nameFrom) == ClassHash(nameFrom);
    }
  }

  /** `ClassMapping.getNameTo(nameFrom)`. */
  method ClassGetNameTo(t: SelfHashMap<Class, string>, nameFrom: string) returns (r: Option<string>)
    requires ClassTable(t)
    ensures r == ClassNameTo(t.contents, nameFrom)
    ensures r.Some? <==> nameFrom in t.contents
  {
    var e := ClassGet(t, nameFrom);
    r := if e.Some? then Some(e.value.nameTo) else None;
  }

  /**
   * `MutableClassMapping.getOrCreate(nameFrom, nameTo)`: the stored class
   * named nameFrom, else a new empty one hashed by `Class.hash(nameFrom)`,
   * added to the table.
   */
  method GetOrCreateIn(t: SelfHashMap<Class, string>, nameFrom: string, nameTo: string) returns (c: Class)
    modifies t, t.key
    requires ClassTable(t)
    ensures ClassTable(t) && t.contents == GetOrCreate(old(t.contents), nameFrom, nameTo)
    ensures nameFrom in t.contents && c == t.contents[nameFrom]
  {
    var found := ClassGet(t, nameFrom);
    if found.Some? {
      return found.value;
    }
    c := NewClass(nameFrom, nameTo, ClassHash(nameFrom));
    var _ := t.Add(c);
  }

  /**
   * `add` of a member to the class stored under name (the `set!!.fieldMapping.add`
   * of the providers): the class is stored back with the field added.
   */
  method AddFieldIn(t: SelfHashMap<Class, string>, name: string, f: Field)
    modifies t, t.key
    requires ClassTable(t) && name in t.contents
    ensures ClassTable(t) && t.contents == AddField(old(t.contents), name, f)
  {
    t.ContentsKeyed();
    var c := ClassGet(t, name);
    var _ := t.Add(PutField(c.value, f));
  }

  method AddMethodIn(t: SelfHashMap<Class, string>, name: string, e: Method)
    modifies t, t.key
    requires ClassTable(t) && name in t.contents
    ensures ClassTable(t) && t.contents == AddMethod(old(t.contents), name, e)
  {
    t.ContentsKeyed();
    var c := ClassGet(t, name);
    var _ := t.Add(PutMethod(c.value, e));
  }

  /** `addAll(entries)` of another class table: `SelfHashMap.putAll`. */
  method AddAllIn(t: SelfHashMap<Class, string>, other: SelfHashMap<Class, string>)
    modifies t, t.key
    requires ClassTable(t) && ClassTable(other) && other != t && other.key != t.key && other.hs == t.hs
    ensures ClassTable(t) && t.contents == AddAll(old(t.contents), other.contents)
  {
    t.PutAllFrom(other);
  }
}
