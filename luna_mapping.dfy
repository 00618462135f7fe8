/**
 * The mapping tables of `dev.luna5ama.jartools.remap`. Entries are compared
 * by value; a class holds its fields by name and its methods by name and then
 * by descriptor, and an `add` replaces the entry under its key. A mutable
 * class mapping also keeps the list of every entry added to it, in order,
 * which the providers walk; the list and the tables stay in step because
 * replaying the list into empty tables gives the tables back.
 */
module LunaMappings {
  import opened Wrappers
  import opened Folds

  /** `MappingEntry.Field`: equal when both names are. */
  datatype Field = Field(nameFrom: string, nameTo: string)

  /** `MappingEntry.Method`: equal when the names and the descriptor are. */
  datatype Method = Method(nameFrom: string, desc: string, nameTo: string)

  /** `methodMappingInternal`: by name, then by descriptor. */
  type MethodTable = map<string, map<string, Method>>

  /** The tables of a class mapping. */
  datatype ClassMapping = ClassMapping(nameFrom: string, nameTo: string, fields: map<string, Field>, methods: MethodTable)

  /** `Mapping`: class mappings by class name. */
  type Mapping = map<string, ClassMapping>

  /** `MutableClassMapping(name)`: empty tables, the class mapped to its own name. */
  function Empty(name: string): ClassMapping {
    ClassMapping(name, name, map[], map[])
  }

  // ---- lookups -------------------------------------------------------------------

  /** `getMethod(name, desc)`: `methodMappingInternal[name]?.get(desc)`. */
  function GetMethod(c: ClassMapping, name: string, desc: string): (r: Option<Method>)
    ensures r.Some? <==> name in c.methods && desc in c.methods[name]
    ensures r.Some? ==> r.value == c.methods[name][desc]
  {
    if name in c.methods && desc in c.methods[name] then Some(c.methods[name][desc]) else None
  }

  function GetMethodNameTo(c: ClassMapping, name: string, desc: string): Option<string> {
    match GetMethod(c, name, desc)
    case None => None
    case Some(e) => Some(e.nameTo)
  }

  /** `getField(name)`. */
  function GetField(c: ClassMapping, name: string): (r: Option<Field>)
    ensures r.Some? <==> name in c.fields
    ensures r.Some? ==> r.value == c.fields[name]
  {
    if name in c.fields then Some(c.fields[name]) else None
  }

  function GetFieldNameTo(c: ClassMapping, name: string): Option<string> {
    match GetField(c, name)
    case None => None
    case Some(f) => Some(f.nameTo)
  }

  // ---- adds ----------------------------------------------------------------------

  /** The descriptor table of a name, empty when the name has none. */
  function Descs(t: MethodTable, name: string): map<string, Method> {
    if name in t then t[name] else map[]
  }

  /** `addField`: the field replaces the one of its name. */
  function PutField(t: map<string, Field>, f: Field): map<string, Field> {
    t[f.nameFrom := f]
  }

  /** `addMethod`: a new descriptor table for a new name, else the method replaces the one of its descriptor. */
  function PutMethod(t: MethodTable, e: Method): MethodTable {
    t[e.nameFrom := Descs(t, e.nameFrom)[e.desc := e]]
  }

  /** The method half of `addAll`: a name new here takes a copy of the other's table, else `putAll` of it. */
  function MergeMethods(a: MethodTable, b: MethodTable): MethodTable {
    map n | n in a.Keys + b.Keys :: if n in b then Descs(a, n) + b[n] else a[n]
  }

  /** `addAll(other)`: `putAll` of the fields, `MergeMethods` of the methods; the names stay. */
  function Merged(c: ClassMapping, other: ClassMapping): ClassMapping {
    c.(fields := c.fields + other.fields, methods := MergeMethods(c.methods, other.methods))
  }

  /** A method lookup after `addMethod` finds the new method, and any other name and descriptor what it found before. */
  lemma GetAfterPutMethod(c: ClassMapping, e: Method, name: string, desc: string)
    ensures var c2 := c.(methods := PutMethod(c.methods, e));
      && GetMethod(c2, e.nameFrom, e.desc) == Some(e)
      && ((name, desc) != (e.nameFrom, e.desc) ==> GetMethod(c2, name, desc) == GetMethod(c, name, desc))
  {
  }

  /** After `addAll` a method is found in the other class if it has it, and otherwise where it was. */
  lemma GetAfterAddAll(c: ClassMapping, other: ClassMapping, name: string, desc: string)
    ensures GetMethod(Merged(c, other), name, desc) ==
      if GetMethod(other, name, desc).Some? then GetMethod(other, name, desc) else GetMethod(c, name, desc)
    ensures GetField(Merged(c, other), name) ==
      if name in other.fields then GetField(other, name) else GetField(c, name)
  {
  }

  // ---- the entry lists -----------------------------------------------------------

  /** Every field under its own name. */
  ghost predicate FieldsKeyed(t: map<string, Field>) {
    forall k | k in t :: t[k].nameFrom == k
  }

  /** Every method under its own name and descriptor, and no name with an empty table. */
  ghost predicate MethodsKeyed(t: MethodTable) {
    forall n | n in t :: t[n] != map[] && forall d | d in t[n] :: t[n][d].nameFrom == n && t[n][d].desc == d
  }

  /** The fields of `l` added one after another to `t`. */
  function FieldsOnto(t: map<string, Field>, l: seq<Field>): map<string, Field>
    decreases |l|
  {
    if |l| == 0 then t else PutField(FieldsOnto(t, l[..|l| - 1]), l[|l| - 1])
  }

  /** The methods of `l` added one after another to `t`. */
  function MethodsOnto(t: MethodTable, l: seq<Method>): MethodTable
    decreases |l|
  {
    if |l| == 0 then t else PutMethod(MethodsOnto(t, l[..|l| - 1]), l[|l| - 1])
  }

  /** The tables a list of fields stands for. */
  function ReplayFields(l: seq<Field>): map<string, Field> {
    FieldsOnto(map[], l)
  }

  /** The tables a list of methods stands for. */
  function ReplayMethods(l: seq<Method>): MethodTable {
    MethodsOnto(map[], l)
  }

  /** Adding the fields of a list one by one is `putAll` of the table the list stands for. */
  lemma {:induction false} FieldsOntoMerge(t: map<string, Field>, l: seq<Field>)
    ensures FieldsOnto(t, l) == t + ReplayFields(l)
    decreases |l|
  {
    if |l| > 0 {
      var init, f := l[..|l| - 1], l[|l| - 1];
      FieldsOntoMerge(t, init);
      FieldsOntoMerge(map[], init);
      assert map[] + ReplayFields(init) == ReplayFields(init);
      assert (t + ReplayFields(init))[f.nameFrom := f] == t + ReplayFields(init)[f.nameFrom := f];
    }
  }

  /** Adding the methods of a list one by one is `MergeMethods` with the table the list stands for. */
  lemma {:induction false} MethodsOntoMerge(t: MethodTable, l: seq<Method>)
    ensures MethodsOnto(t, l) == MergeMethods(t, ReplayMethods(l))
    decreases |l|
  {
    if |l| == 0 {
      assert MergeMethods(t, map[]) == t;
    } else {
      var init, e := l[..|l| - 1], l[|l| - 1];
      MethodsOntoMerge(t, init);
      MethodsOntoMerge(map[], init);
      MergeEmpty(ReplayMethods(init));
      PutMethodMerge(t, ReplayMethods(init), e);
    }
  }

  lemma MergeEmpty(b: MethodTable)
    ensures MergeMethods(map[], b) == b
  {
    forall n | n in b ensures MergeMethods(map[], b)[n] == b[n] {
      assert Descs(map[], n) == map[];
      assert map[] + b[n] == b[n];
    }
  }

  /** `addMethod` keeps a method table keyed. */
  lemma PutMethodKeyed(t: MethodTable, e: Method)
    requires MethodsKeyed(t)
    ensures MethodsKeyed(PutMethod(t, e))
  {
    assert e.desc in Descs(t, e.nameFrom)[e.desc := e];
  }

  /** Adding a method after a merge is merging with the table it was added to. */
  lemma PutMethodMerge(a: MethodTable, b: MethodTable, e: Method)
    ensures PutMethod(MergeMethods(a, b), e) == MergeMethods(a, PutMethod(b, e))
  {
    var lhs, rhs := PutMethod(MergeMethods(a, b), e), MergeMethods(a, PutMethod(b, e));
    assert lhs.Keys == rhs.Keys;
    forall k | k in lhs ensures lhs[k] == rhs[k] {
      if k == e.nameFrom {
        PutMethodMergeAt(a, b, e);
      }
    }
  }

  lemma PutMethodMergeAt(a: MethodTable, b: MethodTable, e: Method)
    ensures PutMethod(MergeMethods(a, b), e)[e.nameFrom] == MergeMethods(a, PutMethod(b, e))[e.nameFrom]
  {
    var n := e.nameFrom;
    DescsMerge(a, b, n);
    UpdateUnion(Descs(a, n), Descs(b, n), e.desc, e);
  }

  lemma DescsMerge(a: MethodTable, b: MethodTable, n: string)
    ensures Descs(MergeMethods(a, b), n) == Descs(a, n) + Descs(b, n)
  {
    if n !in b {
      assert Descs(a, n) + map[] == Descs(a, n);
    }
  }

  lemma UpdateUnion<K, V>(x: map<K, V>, y: map<K, V>, k: K, v: V)
    ensures (x + y)[k := v] == x + y[k := v]
  {
  }

  /** A list of one entry more stands for its tables with that entry added. */
  lemma ReplayFieldsSnoc(l: seq<Field>, f: Field)
    ensures ReplayFields(l + [f]) == PutField(ReplayFields(l), f)
  {
    assert (l + [f])[..|l|] == l;
  }

  lemma ReplayMethodsSnoc(l: seq<Method>, e: Method)
    ensures ReplayMethods(l + [e]) == PutMethod(ReplayMethods(l), e)
  {
    assert (l + [e])[..|l|] == l;
  }

  /** Appending the other class's lists keeps the lists in step with `addAll`'s tables. */
  lemma ReplayConcat(a: seq<Field>, b: seq<Field>, c: seq<Method>, d: seq<Method>)
    ensures ReplayFields(a + b) == ReplayFields(a) + ReplayFields(b)
    ensures ReplayMethods(c + d) == MergeMethods(ReplayMethods(c), ReplayMethods(d))
  {
    FieldsOntoConcat(map[], a, b);
    FieldsOntoMerge(ReplayFields(a), b);
    MethodsOntoConcat(map[], c, d);
    MethodsOntoMerge(ReplayMethods(c), d);
  }

  lemma {:induction false} FieldsOntoConcat(t: map<string, Field>, a: seq<Field>, b: seq<Field>)
    ensures FieldsOnto(t, a + b) == FieldsOnto(FieldsOnto(t, a), b)
    decreases |b|
  {
    if |b| == 0 {
      assert a + b == a;
    } else {
      assert (a + b)[..|a + b| - 1] == a + b[..|b| - 1];
      FieldsOntoConcat(t, a, b[..|b| - 1]);
    }
  }

  lemma {:induction false} MethodsOntoConcat(t: MethodTable, a: seq<Method>, b: seq<Method>)
    ensures MethodsOnto(t, a + b) == MethodsOnto(MethodsOnto(t, a), b)
    decreases |b|
  {
    if |b| == 0 {
      assert a + b == a;
    } else {
      assert (a + b)[..|a + b| - 1] == a + b[..|b| - 1];
      MethodsOntoConcat(t, a, b[..|b| - 1]);
    }
  }

  /** The tables a list stands for hold every entry under its own key. */
  lemma {:induction false} ReplayKeyed(fl: seq<Field>, ml: seq<Method>)
    ensures FieldsKeyed(ReplayFields(fl)) && MethodsKeyed(ReplayMethods(ml))
    decreases |fl| + |ml|
  {
    if |fl| > 0 {
      ReplayKeyed(fl[..|fl| - 1], ml);
    }
    if |ml| > 0 {
      ReplayKeyed(fl, ml[..|ml| - 1]);
      var t := ReplayMethods(ml[..|ml| - 1]);
      var e := ml[|ml| - 1];
      assert e.desc in Descs(t, e.nameFrom)[e.desc := e];
    }
  }

  // ---- the mutable class mapping -------------------------------------------------

  /**
   * `MutableClassMappingImpl`: the two tables, updated in place, and the
   * lists `fieldsInternal` and `methodsInternal` of the entries added.
   */
  class MutableClassMapping {
    const nameFrom: string
    const nameTo: string
    var fields: map<string, Field>
    var methods: MethodTable
    var fieldList: seq<Field>
    var methodList: seq<Method>

    /** The lists stand for the tables. */
    ghost predicate Valid()
      reads this
    {
      ReplayFields(fieldList) == fields && ReplayMethods(methodList) == methods
    }

    /** The tables as a value. */
    function Value(): ClassMapping
      reads this
    {
      ClassMapping(nameFrom, nameTo, fields, methods)
    }

    /** `MutableClassMapping(name)`. */
    constructor(name: string)
      ensures Valid() && Value() == Empty(name) && fieldList == [] && methodList == []
    {
      nameFrom, nameTo := name, name;
      fields, methods := map[], map[];
      fieldList, methodList := [], [];
    }

    /** A copy of given tables, listing their entries in the order the tables are walked. */
    constructor Copy(c: ClassMapping, fl: seq<Field>, ml: seq<Method>)
      requires ReplayFields(fl) == c.fields && ReplayMethods(ml) == c.methods
      ensures Valid() && Value() == c && fieldList == fl && methodList == ml
    {
      nameFrom, nameTo := c.nameFrom, c.nameTo;
      fields, methods := c.fields, c.methods;
      fieldList, methodList := fl, ml;
    }

    method AddField(f: Field)
      requires Valid()
      modifies this
      ensures Valid() && Value() == old(Value()).(fields := PutField(old(fields), f))
      ensures fieldList == old(fieldList) + [f] && methodList == old(methodList)
    {
      ReplayFieldsSnoc(fieldList, f);
      fields := PutField(fields, f);
      fieldList := fieldList + [f];
    }

    method AddMethod(e: Method)
      requires Valid()
      modifies this
      ensures Valid() && Value() == old(Value()).(methods := PutMethod(old(methods), e))
      ensures methodList == old(methodList) + [e] && fieldList == old(fieldList)
    {
      ReplayMethodsSnoc(methodList, e);
      if e.nameFrom !in methods {
        methods := methods[e.nameFrom := map[e.desc := e]];
      } else {
        methods := methods[e.nameFrom := methods[e.nameFrom][e.desc := e]];
      }
      methodList := methodList + [e];
    }

    /** `addAll(other)`: the other's tables are read before anything is written, so `other` may be this mapping. */
    method AddAll(other: MutableClassMapping)
      requires Valid() && other.Valid()
      modifies this
      ensures Valid() && Value() == Merged(old(Value()), old(other.Value()))
      ensures fieldList == old(fieldList) + old(other.fieldList) && methodList == old(methodList) + old(other.methodList)
    {
      var ofs, oms, ofl, oml := other.fields, other.methods, other.fieldList, other.methodList;
      ReplayConcat(fieldList, ofl, methodList, oml);
      fields := fields + ofs;
      methods := MergeMethods(methods, oms);
      fieldList := fieldList + ofl;
      methodList := methodList + oml;
    }

    /** `toMutable()`: fresh tables with the same entries, listed in table order. */
    method ToMutable() returns (c: MutableClassMapping)
      requires Valid()
      ensures fresh(c) && c.Valid() && c.Value() == Value()
    {
      ReplayKeyed(fieldList, methodList);
      var fl := ListFields(fields);
      var ml := ListMethods(methods);
      c := new MutableClassMapping.Copy(Value(), fl, ml);
    }
  }

  /** `fieldMappingInternal.values.toMutableList()`. */
  method ListFields(t: map<string, Field>) returns (l: seq<Field>)
    requires FieldsKeyed(t)
    ensures ReplayFields(l) == t
  {
    var ks := WalkOrder(t);
    l := [];
    for j := 0 to |ks|
      invariant ReplayFields(l) == Restrict(t, ks[..j])
    {
      ReplayFieldsSnoc(l, t[ks[j]]);
      RestrictSnoc(t, ks[..j], ks[j]);
      assert ks[..j + 1] == ks[..j] + [ks[j]];
      l := l + [t[ks[j]]];
    }
    assert ks[..|ks|] == ks;
    RestrictAll(t, ks);
  }

  /** `methodMappingInternal.values.flatMapTo(list) { it.values }`. */
  method ListMethods(t: MethodTable) returns (l: seq<Method>)
    requires MethodsKeyed(t)
    ensures ReplayMethods(l) == t
  {
    var ks := WalkOrder(t);
    l := [];
    for j := 0 to |ks|
      invariant ReplayMethods(l) == Restrict(t, ks[..j])
    {
      var part := ListDescs(ks[j], t[ks[j]]);
      ReplayConcat([], [], l, part);
      RestrictSnoc(t, ks[..j], ks[j]);
      assert ks[..j + 1] == ks[..j] + [ks[j]];
      MergeFresh(Restrict(t, ks[..j]), ks[j], t[ks[j]]);
      l := l + part;
    }
    assert ks[..|ks|] == ks;
    RestrictAll(t, ks);
  }

  /** One name's descriptor table, listed. */
  method ListDescs(n: string, descs: map<string, Method>) returns (l: seq<Method>)
    requires descs != map[]
    requires forall d | d in descs :: descs[d].nameFrom == n && descs[d].desc == d
    ensures ReplayMethods(l) == map[n := descs]
  {
    var ds := WalkOrder(descs);
    l := [];
    for i := 0 to |ds|
      invariant ReplayMethods(l) == Single(n, Restrict(descs, ds[..i]))
    {
      DescStep(n, descs, ds, i, l);
      l := l + [descs[ds[i]]];
    }
    assert ds[..|ds|] == ds;
    RestrictAll(descs, ds);
  }

  lemma DescStep(n: string, descs: map<string, Method>, ds: seq<string>, i: nat, l: seq<Method>)
    requires i < |ds| && ds[i] in descs && descs[ds[i]].nameFrom == n && descs[ds[i]].desc == ds[i]
    requires ReplayMethods(l) == Single(n, Restrict(descs, ds[..i]))
    ensures ReplayMethods(l + [descs[ds[i]]]) == Single(n, Restrict(descs, ds[..i + 1]))
  {
    var e := descs[ds[i]];
    ReplayMethodsSnoc(l, e);
    RestrictSnoc(descs, ds[..i], ds[i]);
    assert ds[..i + 1] == ds[..i] + [ds[i]];
    PutSingle(n, Restrict(descs, ds[..i]), e);
  }

  /** The method table holding one name's descriptors, empty when there are none. */
  function Single(n: string, descs: map<string, Method>): MethodTable {
    if descs == map[] then map[] else map[n := descs]
  }

  lemma PutSingle(n: string, descs: map<string, Method>, e: Method)
    requires e.nameFrom == n
    ensures PutMethod(Single(n, descs), e) == Single(n, descs[e.desc := e])
  {
    assert e.desc in descs[e.desc := e];
  }

  /** Merging in the table of a name not yet present adds that name. */
  lemma MergeFresh(a: MethodTable, n: string, descs: map<string, Method>)
    requires n !in a
    ensures MergeMethods(a, map[n := descs]) == a[n := descs]
  {
    assert Descs(a, n) + descs == descs;
  }

  /** The entries of `t` whose keys `ks` lists. */
  function Restrict<K(!new), E>(t: map<K, E>, ks: seq<K>): map<K, E> {
    map k | k in t && k in ks :: t[k]
  }

  lemma RestrictSnoc<K(!new), E>(t: map<K, E>, ks: seq<K>, k: K)
    requires k in t
    ensures Restrict(t, ks + [k]) == Restrict(t, ks)[k := t[k]]
  {
  }

  lemma RestrictAll<K(!new), E>(t: map<K, E>, ks: seq<K>)
    requires forall k :: k in t ==> k in ks
    ensures Restrict(t, ks) == t
  {
  }

  // ---- mappings ------------------------------------------------------------------

  /** `getOrPutEmpty(name)`: the class mapping of that name, created empty (and unrenamed) when missing. */
  function GetOrPutEmpty(m: Mapping, name: string): (r: Mapping)
    ensures name in r && r.Keys == m.Keys + {name}
    ensures name in m ==> r == m
    ensures name !in m ==> r[name] == Empty(name) && forall k | k in m :: r[k] == m[k]
  {
    if name in m then m else m[name := Empty(name)]
  }

  /**
   * `mergeMapping(a, b)`: every class of `b` is added with `addAll` to the
   * class of that name in `a`, created by `getOrPutEmpty` when missing.
   */
  function MergeMapping(a: Mapping, b: Mapping): Mapping {
    map k | k in a.Keys + b.Keys :: if k in b then Merged(GetOrPutEmpty(a, k)[k], b[k]) else a[k]
  }

  /**
   * `mergeMapping` as intended: a class missing from `a` is created under
   * the name `b` maps it to, so a merge into an empty mapping copies `b`.
   */
  function MergeMappingKeepingNames(a: Mapping, b: Mapping): Mapping {
    map k | k in a.Keys + b.Keys ::
      if k in b then Merged(if k in a then a[k] else b[k].(fields := map[], methods := map[]), b[k]) else a[k]
  }

  /** Every class keeps its members under their keys. */
  ghost predicate ClassKeyed(c: ClassMapping) {
    FieldsKeyed(c.fields) && MethodsKeyed(c.methods)
  }

  ghost predicate Keyed(m: Mapping) {
    forall k | k in m :: ClassKeyed(m[k])
  }

  /** `addAll` keeps a class keyed. */
  lemma MergedKeyed(c: ClassMapping, other: ClassMapping)
    requires ClassKeyed(c) && ClassKeyed(other)
    ensures ClassKeyed(Merged(c, other))
  {
    var t: MethodTable := MergeMethods(c.methods, other.methods);
    forall n: string | n in t ensures t[n] != map[] && forall d: string | d in t[n] :: t[n][d].nameFrom == n && t[n][d].desc == d {
      if n in other.methods {
        assert Descs(c.methods, n) + other.methods[n] != map[] by {
          var d :| d in other.methods[n];
          assert d in Descs(c.methods, n) + other.methods[n];
        }
      }
    }
  }

  /**
   * What a merge holds, in either version: the classes of both mappings, and
   * in each a member of `b`'s class when it has one, else the member of `a`'s.
   */
  lemma MergeMappingLookup(a: Mapping, b: Mapping, k: string, n: string, d: string)
    ensures var r, q := MergeMapping(a, b), MergeMappingKeepingNames(a, b);
      && (k in r <==> k in a || k in b) && r.Keys == q.Keys
      && (k in r ==> GetMethod(r[k], n, d) == GetMethod(q[k], n, d) && GetField(r[k], n) == GetField(q[k], n))
      && (k in r ==>
            GetMethod(r[k], n, d) ==
              if k in b && GetMethod(b[k], n, d).Some? then GetMethod(b[k], n, d)
              else if k in a then GetMethod(a[k], n, d) else None)
      && (k in r ==>
            GetField(r[k], n) ==
              if k in b && n in b[k].fields then GetField(b[k], n)
              else if k in a then GetField(a[k], n) else None)
  {
    if k in b {
      GetAfterAddAll(GetOrPutEmpty(a, k)[k], b[k], n, d);
      GetAfterAddAll(if k in a then a[k] else b[k].(fields := map[], methods := map[]), b[k], n, d);
    }
  }

  /** As written: a class only `b` holds comes out mapped to its own name, whatever `b` maps it to. */
  lemma MergeMappingDropsName(a: Mapping, b: Mapping, k: string)
    requires k in b && k !in a
    ensures MergeMapping(a, b)[k].nameFrom == k && MergeMapping(a, b)[k].nameTo == k
  {
  }

  /** The input that shows it: merging `{a: a -> b}` into an empty mapping gives `a -> a`. */
  lemma MergeMappingLosesRename()
    ensures var b := map["a" := ClassMapping("a", "b", map[], map[])];
      MergeMapping(map[], b)["a"].nameTo == "a" && MergeMapping(map[], b) != b
  {
    var b := map["a" := ClassMapping("a", "b", map[], map[])];
    assert MergeMapping(map[], b)["a"].nameTo == "a";
  }

  /** As intended: a merged class keeps the target name of the class it was merged into, or of `b`'s class when it is new. */
  lemma MergeKeepsNames(a: Mapping, b: Mapping, k: string)
    requires k in a || k in b
    ensures var r := MergeMappingKeepingNames(a, b);
      k in r && r[k].nameTo == (if k in a then a[k].nameTo else b[k].nameTo)
      && r[k].nameFrom == (if k in a then a[k].nameFrom else b[k].nameFrom)
  {
  }

  /** As intended: merging into an empty mapping copies it. */
  lemma MergeIntoEmpty(b: Mapping)
    ensures MergeMappingKeepingNames(map[], b) == b
  {
    var r := MergeMappingKeepingNames(map[], b);
    forall k | k in b ensures r[k] == b[k] {
      MergeEmpty(b[k].methods);
      assert map[] + b[k].fields == b[k].fields;
    }
  }

  /** Both versions keep a mapping keyed. */
  lemma MergeMappingKeyed(a: Mapping, b: Mapping)
    requires Keyed(a) && Keyed(b)
    ensures Keyed(MergeMapping(a, b)) && Keyed(MergeMappingKeepingNames(a, b))
  {
    var r, q := MergeMapping(a, b), MergeMappingKeepingNames(a, b);
    forall k | k in r ensures ClassKeyed(r[k]) && ClassKeyed(q[k]) {
      if k in b {
        MergedKeyed(GetOrPutEmpty(a, k)[k], b[k]);
        MergedKeyed(if k in a then a[k] else b[k].(fields := map[], methods := map[]), b[k]);
      }
    }
  }

  /** The `b.forEach { … }` loop of `mergeMapping`, as intended. */
  method MergeInto(a: Mapping, b: Mapping) returns (r: Mapping)
    ensures r == MergeMappingKeepingNames(a, b)
  {
    var ks := WalkOrder(b);
    r := a;
    for j := 0 to |ks|
      invariant r == MergeMappingKeepingNames(a, Restrict(b, ks[..j]))
    {
      assert ks[j] !in ks[..j];
      r := MergeOne(a, b, ks[..j], ks[j], r);
      assert ks[..j + 1] == ks[..j] + [ks[j]];
    }
    assert ks[..|ks|] == ks;
    RestrictAll(b, ks);
  }

  /** One turn: `a.getOrPutEmpty(key).addAll(value)`, the class created under `b`'s names. */
  method MergeOne(a: Mapping, b: Mapping, ghost done: seq<string>, k: string, r: Mapping) returns (r': Mapping)
    requires k in b && k !in done && r == MergeMappingKeepingNames(a, Restrict(b, done))
    ensures r' == MergeMappingKeepingNames(a, Restrict(b, done + [k]))
  {
    MergeStep(a, b, done, k);
    var c := if k in r then r[k] else b[k].(fields := map[], methods := map[]);
    r' := r[k := Merged(c, b[k])];
  }

  lemma MergeStep(a: Mapping, b: Mapping, done: seq<string>, k: string)
    requires k in b && k !in done
    ensures var r := MergeMappingKeepingNames(a, Restrict(b, done));
      MergeMappingKeepingNames(a, Restrict(b, done + [k])) ==
        r[k := Merged(if k in r then r[k] else b[k].(fields := map[], methods := map[]), b[k])]
  {
    RestrictSnoc(b, done, k);
  }

  // ---- mappings that only grow ----------------------------------------------------

  /** `d` is `c` with members added or replaced: the same names, and every key of `c` still there. */
  ghost predicate ClassCovers(c: ClassMapping, d: ClassMapping) {
    && c.nameFrom == d.nameFrom && c.nameTo == d.nameTo
    && c.fields.Keys <= d.fields.Keys
    && (forall n | n in c.methods :: n in d.methods && c.methods[n].Keys <= d.methods[n].Keys)
  }

  /** `b` holds every class of `a`, each covering it. */
  ghost predicate Covers(a: Mapping, b: Mapping) {
    forall k | k in a :: k in b && ClassCovers(a[k], b[k])
  }

  lemma CoversRefl(a: Mapping)
    ensures Covers(a, a)
  {
  }

  lemma CoversTrans(a: Mapping, b: Mapping, c: Mapping)
    requires Covers(a, b) && Covers(b, c)
    ensures Covers(a, c)
  {
  }

  /** `addAll` only adds: the class covers what it was. */
  lemma MergedCovers(c: ClassMapping, other: ClassMapping)
    ensures ClassCovers(c, Merged(c, other))
  {
    var t := MergeMethods(c.methods, other.methods);
    forall n | n in c.methods ensures n in t && c.methods[n].Keys <= t[n].Keys {
      if n in other.methods {
        assert Descs(c.methods, n) == c.methods[n];
      }
    }
  }

  /** As intended, merging a mapping into one it covers gives the covering one back. */
  lemma MergeCovered(a: Mapping, b: Mapping)
    requires Covers(a, b)
    ensures MergeMappingKeepingNames(a, b) == b
  {
    var r := MergeMappingKeepingNames(a, b);
    assert r.Keys == b.Keys;
    forall k | k in b ensures r[k] == b[k] {
      if k in a {
        assert a[k].fields + b[k].fields == b[k].fields;
        MergeMethodsCovered(a[k].methods, b[k].methods);
      } else {
        MergeEmpty(b[k].methods);
        assert map[] + b[k].fields == b[k].fields;
      }
    }
  }

  lemma MergeMethodsCovered(x: MethodTable, y: MethodTable)
    requires forall n | n in x :: n in y && x[n].Keys <= y[n].Keys
    ensures MergeMethods(x, y) == y
  {
    forall n | n in y ensures MergeMethods(x, y)[n] == y[n] {
      assert Descs(x, n) + y[n] == y[n];
    }
  }

  /** Merging nothing into a method table leaves it as it is. */
  lemma MergeNothing(a: MethodTable)
    ensures MergeMethods(a, map[]) == a
  {
  }
}
