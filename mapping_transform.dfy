/**
 * `ClassMapping.reversed` and `ClassMapping.mapWith`. Both walk the table
 * with `forEachFast`, build converted entries and `add` them to a fresh table,
 * so on a shared fingerprint the entry visited first stays. The walk order is
 * the table's slot order, which depends on `HashCommon.mix`; here it is any
 * order, and the contracts say what holds for every order.
 */
module MappingTransforms {
  import opened Wrappers
  import opened Jvm
  import opened Mappings
  import opened Descriptors
  import opened Folds

  // ---- rebuilding one table --------------------------------------------------

  /** Every entry converts without an exception. */
  ghost predicate AllConvert<E, F>(t: Table<E>, conv: E -> Result<(U64, F)>) {
    forall h :: h in t ==> conv(t[h]).Ok?
  }

  /**
   * `out` is what adding the converted entries of `t` in some order gives:
   * its keys are the converted fingerprints, and each key holds the
   * conversion of some entry with that fingerprint (the first one visited).
   */
  ghost predicate Rebuilt<E, F>(t: Table<E>, conv: E -> Result<(U64, F)>, out: Table<F>) {
    && (forall h :: h in t && conv(t[h]).Ok? ==> conv(t[h]).value.0 in out)
    && forall k :: k in out ==> exists h :: h in t && conv(t[h]) == Ok((k, out[k]))
  }

  /** No two entries convert to the same fingerprint. */
  ghost predicate KeysInjective<E, F>(t: Table<E>, conv: E -> Result<(U64, F)>) {
    forall h1, h2 ::
      (h1 in t && h2 in t && conv(t[h1]).Ok? && conv(t[h2]).Ok? && conv(t[h1]).value.0 == conv(t[h2]).value.0)
      ==> h1 == h2
  }

  /**
   * `out` after the loop below has visited the first `i` keys of `ks`, all of
   * which converted; `src` names, for each key of `out`, the visit that put it there.
   */
  ghost predicate Partial<E, F>(t: Table<E>, conv: E -> Result<(U64, F)>, ks: seq<U64>, i: nat,
                                out: Table<F>, src: map<U64, int>) {
    && i <= |ks|
    && (forall j :: 0 <= j < |ks| ==> ks[j] in t)
    && (forall j :: 0 <= j < i ==> conv(t[ks[j]]).Ok? && conv(t[ks[j]]).value.0 in out)
    && src.Keys == out.Keys
    && forall k :: k in out ==> 0 <= src[k] < i && conv(t[ks[src[k]]]) == Ok((k, out[k]))
  }

  lemma PartialStep<E, F>(t: Table<E>, conv: E -> Result<(U64, F)>, ks: seq<U64>, i: nat,
                          out: Table<F>, src: map<U64, int>)
    requires Partial(t, conv, ks, i, out, src) && i < |ks| && conv(t[ks[i]]).Ok?
    ensures Partial(t, conv, ks, i + 1, Add(out, conv(t[ks[i]]).value.0, conv(t[ks[i]]).value.1),
                    Add(src, conv(t[ks[i]]).value.0, i))
  {
  }

  lemma PartialDone<E, F>(t: Table<E>, conv: E -> Result<(U64, F)>, ks: seq<U64>, out: Table<F>, src: map<U64, int>)
    requires Partial(t, conv, ks, |ks|, out, src)
    requires forall h :: h in t ==> h in ks
    ensures AllConvert(t, conv) && Rebuilt(t, conv, out)
  {
    forall k | k in out
      ensures exists h :: h in t && conv(t[h]) == Ok((k, out[k]))
    {
      assert ks[src[k]] in t;
    }
  }

  /**
   * The `forEachFast { add(conv(it)) }` loop over one table, in an order the
   * table chooses; the first conversion that throws ends it.
   */
  method Collect<E, F>(t: Table<E>, conv: E -> Result<(U64, F)>) returns (r: Result<Table<F>>)
    ensures r.Ok? <==> AllConvert(t, conv)
    ensures r.Ok? ==> Rebuilt(t, conv, r.value)
  {
    var ks := WalkOrder(t);
    var out: Table<F> := map[];
    ghost var src: map<U64, int> := map[];
    for i := 0 to |ks|
      invariant Partial(t, conv, ks, i, out, src)
    {
      var c := conv(t[ks[i]]);
      if c.Err? {
        return Err(c.msg);
      }
      PartialStep(t, conv, ks, i, out, src);
      out := Add(out, c.value.0, c.value.1);
      src := Add(src, c.value.0, i);
    }
    PartialDone(t, conv, ks, out, src);
    return Ok(out);
  }

  /** With distinct converted fingerprints, every entry's conversion is in the rebuilt table. */
  lemma RebuiltInjective<E, F>(t: Table<E>, conv: E -> Result<(U64, F)>, out: Table<F>, h: U64)
    requires Rebuilt(t, conv, out) && KeysInjective(t, conv)
    requires h in t && conv(t[h]).Ok?
    ensures conv(t[h]).value.0 in out && out[conv(t[h]).value.0] == conv(t[h]).value.1
  {
    var k := conv(t[h]).value.0;
    assert k in out;
    var h' :| h' in t && conv(t[h']) == Ok((k, out[k]));
  }

  /** The entry of `t` whose conversion a key of the rebuilt table holds. */
  lemma RebuiltSource<E, F>(t: Table<E>, conv: E -> Result<(U64, F)>, out: Table<F>, k: U64) returns (h: U64)
    requires Rebuilt(t, conv, out) && k in out
    ensures h in t && conv(t[h]) == Ok((k, out[k]))
  {
    h :| h in t && conv(t[h]) == Ok((k, out[k]));
  }

  /** A conversion that keeps each entry's fingerprint rebuilds the table entry for entry. */
  lemma RebuiltSameKeys<E, F>(t: Table<E>, conv: E -> Result<(U64, F)>, out: Table<F>)
    requires Rebuilt(t, conv, out) && AllConvert(t, conv)
    requires forall h :: h in t ==> conv(t[h]).value.0 == h
    ensures out.Keys == t.Keys
    ensures forall h :: h in t ==> out[h] == conv(t[h]).value.1
  {
    forall h | h in t
      ensures h in out && out[h] == conv(t[h]).value.1
    {
      RebuiltInjective(t, conv, out, h);
    }
  }

  // ---- rebuilding the class table -------------------------------------------

  /**
   * `out` after a class loop has visited the first `i` keys of `ks`: each
   * visited entry was accepted by `ok` and its new key is in `out`, and each
   * key of `out` holds a value related by `rel` to the entry visited at
   * `src[key]`, which has that key.
   */
  ghost predicate Visited<E, F>(t: Table<E>, ok: E -> bool, key: E -> U64, rel: (E, F) -> bool,
                                ks: seq<U64>, i: nat, out: Table<F>, src: map<U64, int>) {
    && i <= |ks|
    && (forall j :: 0 <= j < |ks| ==> ks[j] in t)
    && (forall j :: 0 <= j < i ==> ok(t[ks[j]]) && key(t[ks[j]]) in out)
    && src.Keys == out.Keys
    && forall k :: k in out ==> 0 <= src[k] < i && key(t[ks[src[k]]]) == k && rel(t[ks[src[k]]], out[k])
  }

  /** `out` is what the class loop gives for some order: every entry's key is present, and holds a value related to an entry with that key. */
  ghost predicate Gathered<E, F>(t: Table<E>, key: E -> U64, rel: (E, F) -> bool, out: Table<F>) {
    && (forall h :: h in t ==> key(t[h]) in out)
    && forall k :: k in out ==> exists h :: h in t && key(t[h]) == k && rel(t[h], out[k])
  }

  lemma VisitStep<E, F>(t: Table<E>, ok: E -> bool, key: E -> U64, rel: (E, F) -> bool,
                        ks: seq<U64>, i: nat, out: Table<F>, src: map<U64, int>, v: F)
    requires Visited(t, ok, key, rel, ks, i, out, src) && i < |ks|
    requires ok(t[ks[i]]) && rel(t[ks[i]], v)
    ensures Visited(t, ok, key, rel, ks, i + 1, Add(out, key(t[ks[i]]), v), Add(src, key(t[ks[i]]), i))
  {
  }

  lemma VisitDone<E, F>(t: Table<E>, ok: E -> bool, key: E -> U64, rel: (E, F) -> bool,
                        ks: seq<U64>, out: Table<F>, src: map<U64, int>)
    requires Visited(t, ok, key, rel, ks, |ks|, out, src)
    requires forall h :: h in t ==> h in ks
    ensures forall h :: h in t ==> ok(t[h])
    ensures Gathered(t, key, rel, out)
  {
    forall k | k in out
      ensures exists h :: h in t && key(t[h]) == k && rel(t[h], out[k])
    {
      assert ks[src[k]] in t;
    }
  }

  /** The entry of `t` that a key of a gathered table came from. */
  lemma GatheredSource<E, F>(t: Table<E>, key: E -> U64, rel: (E, F) -> bool, out: Table<F>, k: U64) returns (h: U64)
    requires Gathered(t, key, rel, out) && k in out
    ensures h in t && key(t[h]) == k && rel(t[h], out[k])
  {
    h :| h in t && key(t[h]) == k && rel(t[h], out[k]);
  }

  // ---- reversed --------------------------------------------------------------

  /** `Field(fieldEntry.nameTo, fieldEntry.nameFrom)`. */
  function ReverseField(f: Field): Result<(U64, Field)> {
    var g := NewField(f.nameTo, f.nameFrom);
    Ok((g.hash, g))
  }

  /** `Method(methodEntry.nameTo, remapDesc(methodEntry.desc), methodEntry.nameFrom)`; its fingerprint throws on an empty name or desc. */
  function ReverseMethod(m: ClassMapping): Method -> Result<(U64, Method)> {
    (e: Method) =>
      match NewMethod(e.nameTo, RemapDesc(m, e.desc), e.nameFrom)
      case None => Err("StringIndexOutOfBoundsException")
      case Some(x) => Ok((x.hash, x))
  }

  /** `rc` is the reversal of class `c`: names swapped, members reversed, descriptors remapped through `m`. */
  ghost predicate ReversedClass(m: ClassMapping, c: Class, rc: Class) {
    && rc.nameFrom == c.nameTo && rc.nameTo == c.nameFrom && rc.hash == ClassHash(c.nameTo)
    && Rebuilt(c.fields, ReverseField, rc.fields)
    && Rebuilt(c.methods, ReverseMethod(m), rc.methods)
  }

  /** A class's key in the reversal: the fingerprint of its target name. */
  function TargetKey(c: Class): U64 { ClassHash(c.nameTo) }

  ghost function ReversedRel(m: ClassMapping): (Class, Class) -> bool {
    (c: Class, rc: Class) => ReversedClass(m, c, rc)
  }

  /** Every method of the class converts. */
  ghost function MethodsReverse(m: ClassMapping): Class -> bool {
    (c: Class) => AllConvert(c.methods, ReverseMethod(m))
  }

  /** `r` is what `m.reversed()` returns for some walk order. */
  ghost predicate IsReversal(m: ClassMapping, r: ClassMapping) {
    Gathered(m, TargetKey, ReversedRel(m), r)
  }

  /** Every method can be reversed: its target name and descriptor are non-empty. */
  ghost predicate Reversible(m: ClassMapping) {
    forall h, k :: h in m && k in m[h].methods ==> |m[h].methods[k].nameTo| > 0 && |m[h].methods[k].desc| > 0
  }

  /** A descriptor remaps to an empty one only when it is empty: its first character is always copied. */
  lemma RemapDescNonEmpty(m: ClassMapping, desc: string)
    ensures |RemapDesc(m, desc)| > 0 <==> |desc| > 0
  {
    if |desc| > 0 {
      assert !MatchAt(desc, 0);
    }
  }

  lemma ReversibleConverts(m: ClassMapping, h: U64)
    requires h in m
    ensures AllConvert(m[h].methods, ReverseMethod(m)) <==>
      forall k :: k in m[h].methods ==> |m[h].methods[k].nameTo| > 0 && |m[h].methods[k].desc| > 0
  {
    forall k | k in m[h].methods {
      RemapDescNonEmpty(m, m[h].methods[k].desc);
    }
  }

  lemma ReversibleAll(m: ClassMapping)
    requires forall h :: h in m ==> MethodsReverse(m)(m[h])
    ensures Reversible(m)
  {
    forall h | h in m {
      ReversibleConverts(m, h);
    }
  }

  /** The body of the class loop of `reversed`: the reversed class, built with its members. */
  method ReverseClass(m: ClassMapping, c: Class) returns (r: Result<Class>)
    ensures r.Ok? <==> MethodsReverse(m)(c)
    ensures r.Ok? ==> ReversedRel(m)(c, r.value)
  {
    var fields := Collect(c.fields, ReverseField);
    var methods := Collect(c.methods, ReverseMethod(m));
    if methods.Err? {
      return Err(methods.msg);
    }
    return Ok(Class(c.nameTo, c.nameFrom, ClassHash(c.nameTo), fields.value, methods.value));
  }

  /**
   * `reversed`: each class (nameFrom, nameTo) becomes (nameTo, nameFrom), each
   * field (from, to) becomes (to, from), and each method (from, desc, to)
   * becomes (to, remapDesc(desc), from). The source adds the new class before
   * filling it; since a class dropped on a shared fingerprint is still filled
   * (and then lost), building it first and adding it after is the same.
   */
  method Reversed(m: ClassMapping) returns (r: Result<ClassMapping>)
    ensures r.Ok? <==> Reversible(m)
    ensures r.Ok? ==> IsReversal(m, r.value)
  {
    var ks := WalkOrder(m);
    var out: ClassMapping := map[];
    ghost var src: map<U64, int> := map[];
    for i := 0 to |ks|
      invariant Visited(m, MethodsReverse(m), TargetKey, ReversedRel(m), ks, i, out, src)
    {
      var rc := ReverseClass(m, m[ks[i]]);
      if rc.Err? {
        ReversibleConverts(m, ks[i]);
        return Err(rc.msg);
      }
      VisitStep(m, MethodsReverse(m), TargetKey, ReversedRel(m), ks, i, out, src, rc.value);
      out := Add(out, ClassHash(m[ks[i]].nameTo), rc.value);
      src := Add(src, ClassHash(m[ks[i]].nameTo), i);
    }
    VisitDone(m, MethodsReverse(m), TargetKey, ReversedRel(m), ks, out, src);
    ReversibleAll(m);
    return Ok(out);
  }

  /** No two classes share a target fingerprint. */
  ghost predicate TargetsInjective(m: ClassMapping) {
    forall h1, h2 :: h1 in m && h2 in m && ClassHash(m[h1].nameTo) == ClassHash(m[h2].nameTo) ==> h1 == h2
  }

  /** Each class sits under the fingerprint of its own nameFrom. */
  ghost predicate Fingerprinted(m: ClassMapping) {
    forall h :: h in m ==> ClassHash(m[h].nameFrom) == h
  }

  /**
   * In the reversal, every target name finds a class, whose target is the
   * source name of a class with that target fingerprint; with no shared target
   * fingerprints it is the class's own source name.
   */
  lemma ReversedLookup(m: ClassMapping, r: ClassMapping, h: U64)
    requires IsReversal(m, r) && h in m
    ensures GetClass(r, m[h].nameTo).Some?
    ensures exists h' :: (h' in m && ClassHash(m[h'].nameTo) == ClassHash(m[h].nameTo) &&
      ClassNameTo(r, m[h].nameTo) == Some(m[h'].nameFrom))
    ensures TargetsInjective(m) ==> ClassNameTo(r, m[h].nameTo) == Some(m[h].nameFrom)
  {
    var k := TargetKey(m[h]);
    var h' := GatheredSource(m, TargetKey, ReversedRel(m), r, k);
    assert ReversedClass(m, m[h'], r[k]);
  }

  /** Without shared target fingerprints, a field's target name finds the field's source name in the reversed class. */
  lemma ReversedFieldLookup(m: ClassMapping, r: ClassMapping, h: U64, fk: U64)
    requires IsReversal(m, r) && TargetsInjective(m) && h in m && fk in m[h].fields
    requires KeysInjective(m[h].fields, ReverseField)
    ensures GetClass(r, m[h].nameTo).Some?
    ensures FieldNameTo(GetClass(r, m[h].nameTo).value.fields, m[h].fields[fk].nameTo) == Some(m[h].fields[fk].nameFrom)
  {
    var k := TargetKey(m[h]);
    var h' := GatheredSource(m, TargetKey, ReversedRel(m), r, k);
    assert ReversedClass(m, m[h'], r[k]);
    assert h' == h;
    RebuiltInjective(m[h].fields, ReverseField, r[k].fields, fk);
  }

  /** A reversed class sits under the fingerprint of its new name, and so do its fields and methods. */
  lemma ReversedClassKeyed(m: ClassMapping, c: Class, rc: Class)
    requires ReversedClass(m, c, rc)
    ensures rc.hash == ClassHash(rc.nameFrom) && ClassKeyed(rc)
  {
    forall fk | fk in rc.fields
      ensures rc.fields[fk].hash == fk
    {
      var fh := RebuiltSource(c.fields, ReverseField, rc.fields, fk);
    }
    forall mk | mk in rc.methods
      ensures rc.methods[mk].hash == mk
    {
      var mh := RebuiltSource(c.methods, ReverseMethod(m), rc.methods, mk);
    }
  }

  /** A reversal stores every class, field and method under its own fingerprint. */
  lemma ReversedKeyed(m: ClassMapping, r: ClassMapping)
    requires IsReversal(m, r)
    ensures Keyed(r)
  {
    forall k | k in r
      ensures r[k].hash == k && ClassKeyed(r[k])
    {
      var h := GatheredSource(m, TargetKey, ReversedRel(m), r, k);
      assert ReversedRel(m)(m[h], r[k]);
      ReversedClassKeyed(m, m[h], r[k]);
    }
  }

  /** Only the names of a reversal: `rc` swaps the names of `c`. */
  function NamesSwapped(c: Class, rc: Class): bool {
    rc.nameFrom == c.nameTo && rc.nameTo == c.nameFrom
  }

  /** A gathered table stays gathered under any weaker relation. */
  lemma GatheredWeaken<E, F>(t: Table<E>, key: E -> U64, rel: (E, F) -> bool, rel2: (E, F) -> bool, out: Table<F>)
    requires Gathered(t, key, rel, out)
    requires forall e, f :: rel(e, f) ==> rel2(e, f)
    ensures Gathered(t, key, rel2, out)
  {
    forall k | k in out
      ensures exists h :: h in t && key(t[h]) == k && rel2(t[h], out[k])
    {
      var h := GatheredSource(t, key, rel, out, k);
    }
  }

  lemma ReversalSwapsNames(m: ClassMapping, r: ClassMapping)
    requires IsReversal(m, r)
    ensures Gathered(m, TargetKey, NamesSwapped, r)
  {
    GatheredWeaken(m, TargetKey, ReversedRel(m), NamesSwapped, r);
  }

  /** `r1` swaps the names of `m`, and `r2` those of `r1`, for a mapping whose classes sit under their own fingerprints with distinct targets. */
  ghost predicate SwappedTwice(m: ClassMapping, r1: ClassMapping, r2: ClassMapping) {
    && Fingerprinted(m) && TargetsInjective(m)
    && Gathered(m, TargetKey, NamesSwapped, r1) && Gathered(r1, TargetKey, NamesSwapped, r2)
  }

  lemma SwapTwiceClass(m: ClassMapping, r1: ClassMapping, r2: ClassMapping, h: U64)
    requires SwappedTwice(m, r1, r2) && h in m
    ensures h in r2 && r2[h].nameFrom == m[h].nameFrom && r2[h].nameTo == m[h].nameTo
  {
    var k := TargetKey(m[h]);
    var h1 := GatheredSource(m, TargetKey, NamesSwapped, r1, k);
    assert h1 == h;
    assert TargetKey(r1[k]) == h;
    var k' := GatheredSource(r1, TargetKey, NamesSwapped, r2, h);
    var h2 := GatheredSource(m, TargetKey, NamesSwapped, r1, k');
    assert h2 == h;
  }

  lemma SwapTwiceKeys(m: ClassMapping, r1: ClassMapping, r2: ClassMapping, k: U64)
    requires SwappedTwice(m, r1, r2) && k in r2
    ensures k in m
  {
    var k' := GatheredSource(r1, TargetKey, NamesSwapped, r2, k);
    var h := GatheredSource(m, TargetKey, NamesSwapped, r1, k');
  }

  lemma SwapTwiceNames(m: ClassMapping, r1: ClassMapping, r2: ClassMapping)
    requires SwappedTwice(m, r1, r2)
    ensures forall h :: h in m ==> h in r2 && r2[h].nameFrom == m[h].nameFrom && r2[h].nameTo == m[h].nameTo
  {
    forall h | h in m
      ensures h in r2 && r2[h].nameFrom == m[h].nameFrom && r2[h].nameTo == m[h].nameTo
    {
      SwapTwiceClass(m, r1, r2, h);
    }
  }

  lemma SwapTwiceNoExtra(m: ClassMapping, r1: ClassMapping, r2: ClassMapping)
    requires SwappedTwice(m, r1, r2)
    ensures forall k :: k in r2 ==> k in m
  {
    forall k | k in r2
      ensures k in m
    {
      SwapTwiceKeys(m, r1, r2, k);
    }
  }

  /**
   * Reversing twice restores every class name pair when each class sits under
   * its own fingerprint and no two classes share a target fingerprint.
   */
  lemma ReverseTwice(m: ClassMapping, r1: ClassMapping, r2: ClassMapping)
    requires Fingerprinted(m) && TargetsInjective(m)
    requires IsReversal(m, r1) && IsReversal(r1, r2)
    ensures forall k :: k in r2 <==> k in m
    ensures forall h :: h in m ==> r2[h].nameFrom == m[h].nameFrom && r2[h].nameTo == m[h].nameTo
  {
    ReversalSwapsNames(m, r1);
    ReversalSwapsNames(r1, r2);
    SwapTwiceNames(m, r1, r2);
    SwapTwiceNoExtra(m, r1, r2);
  }

  // ---- mapWith ---------------------------------------------------------------

  /** `Field(fieldEntry.nameFrom, other.getNameTo(fieldEntry.nameTo)!!)`: the class-level lookup. */
  function MapField(other: ClassMapping): Field -> Result<(U64, Field)> {
    (f: Field) =>
      match ClassNameTo(other, f.nameTo)
      case None => Err("NullPointerException")
      case Some(t) =>
        var g := NewField(f.nameFrom, t);
        Ok((g.hash, g))
  }

  /** `Method(methodEntry.nameFrom, this.remapDesc(methodEntry.desc), other.getNameTo(methodEntry.nameTo)!!)`. */
  function MapMethod(m: ClassMapping, other: ClassMapping): Method -> Result<(U64, Method)> {
    (e: Method) =>
      match ClassNameTo(other, e.nameTo)
      case None => Err("NullPointerException")
      case Some(t) =>
        match NewMethod(e.nameFrom, RemapDesc(m, e.desc), t)
        case None => Err("StringIndexOutOfBoundsException")
        case Some(x) => Ok((x.hash, x))
  }

  /** `rc` is class `c` with every target name looked up in `other`. */
  ghost predicate ComposedClass(m: ClassMapping, other: ClassMapping, c: Class, rc: Class) {
    && rc.nameFrom == c.nameFrom && ClassNameTo(other, c.nameTo) == Some(rc.nameTo)
    && rc.hash == ClassHash(c.nameFrom)
    && Rebuilt(c.fields, MapField(other), rc.fields)
    && Rebuilt(c.methods, MapMethod(m, other), rc.methods)
  }

  /** A class's key in the composition: the fingerprint of its source name. */
  function SourceKey(c: Class): U64 { ClassHash(c.nameFrom) }

  ghost function ComposedRel(m: ClassMapping, other: ClassMapping): (Class, Class) -> bool {
    (c: Class, rc: Class) => ComposedClass(m, other, c, rc)
  }

  /** Every lookup `mapWith` makes in `other` for the class succeeds and every method fingerprint can be computed. */
  ghost function Composes(m: ClassMapping, other: ClassMapping): Class -> bool {
    (c: Class) =>
      && ClassNameTo(other, c.nameTo).Some?
      && AllConvert(c.fields, MapField(other))
      && AllConvert(c.methods, MapMethod(m, other))
  }

  /** `r` is what `m.mapWith(other)` returns for some walk order. */
  ghost predicate IsComposition(m: ClassMapping, other: ClassMapping, r: ClassMapping) {
    Gathered(m, SourceKey, ComposedRel(m, other), r)
  }

  ghost predicate Composable(m: ClassMapping, other: ClassMapping) {
    forall h :: h in m ==> Composes(m, other)(m[h])
  }

  /** A missing name in `other`: `mapWith` throws rather than passing the name through. */
  lemma MissingNameFails(m: ClassMapping, other: ClassMapping, h: U64)
    requires h in m && ClassNameTo(other, m[h].nameTo).None?
    ensures !Composable(m, other)
  {
    assert !Composes(m, other)(m[h]);
  }

  /** The body of the class loop of `mapWith`. */
  method ComposeClass(m: ClassMapping, other: ClassMapping, c: Class) returns (r: Result<Class>)
    ensures r.Ok? <==> Composes(m, other)(c)
    ensures r.Ok? ==> ComposedRel(m, other)(c, r.value)
  {
    var nameTo := ClassNameTo(other, c.nameTo);
    if nameTo.None? {
      return Err("NullPointerException");
    }
    var fields := Collect(c.fields, MapField(other));
    if fields.Err? {
      return Err(fields.msg);
    }
    var methods := Collect(c.methods, MapMethod(m, other));
    if methods.Err? {
      return Err(methods.msg);
    }
    return Ok(Class(c.nameFrom, nameTo.value, ClassHash(c.nameFrom), fields.value, methods.value));
  }

  /**
   * `mapWith`: every class keeps its nameFrom and takes as nameTo the class
   * name `other` gives for its nameTo; fields and methods look their targets
   * up among `other`'s class names too, and method descriptors are remapped
   * through this mapping. A missing name throws.
   */
  method MapWith(m: ClassMapping, other: ClassMapping) returns (r: Result<ClassMapping>)
    ensures r.Ok? <==> Composable(m, other)
    ensures r.Ok? ==> IsComposition(m, other, r.value)
  {
    var ks := WalkOrder(m);
    var out: ClassMapping := map[];
    ghost var src: map<U64, int> := map[];
    for i := 0 to |ks|
      invariant Visited(m, Composes(m, other), SourceKey, ComposedRel(m, other), ks, i, out, src)
    {
      var rc := ComposeClass(m, other, m[ks[i]]);
      if rc.Err? {
        return Err(rc.msg);
      }
      VisitStep(m, Composes(m, other), SourceKey, ComposedRel(m, other), ks, i, out, src, rc.value);
      out := Add(out, ClassHash(m[ks[i]].nameFrom), rc.value);
      src := Add(src, ClassHash(m[ks[i]].nameFrom), i);
    }
    VisitDone(m, Composes(m, other), SourceKey, ComposedRel(m, other), ks, out, src);
    return Ok(out);
  }

  /** For a mapping whose classes sit under their own fingerprints, the composition has the same keys. */
  lemma CompositionKeys(m: ClassMapping, other: ClassMapping, r: ClassMapping)
    requires Fingerprinted(m) && IsComposition(m, other, r)
    ensures forall k :: k in r <==> k in m
  {
    forall k | k in r
      ensures k in m
    {
      var h := GatheredSource(m, SourceKey, ComposedRel(m, other), r, k);
    }
    forall h | h in m
      ensures h in r
    {
      assert SourceKey(m[h]) == h;
    }
  }

  /**
   * For a mapping whose classes sit under their own fingerprints, the
   * composition answers a class lookup with the first mapping's answer looked
   * up again in `other`.
   */
  lemma MapWithLookup(m: ClassMapping, other: ClassMapping, r: ClassMapping, x: string)
    requires Fingerprinted(m) && IsComposition(m, other, r)
    ensures ClassNameTo(r, x) == match ClassNameTo(m, x) case None => None case Some(y) => ClassNameTo(other, y)
  {
    CompositionKeys(m, other, r);
    var k := ClassHash(x);
    if k in m {
      var h := GatheredSource(m, SourceKey, ComposedRel(m, other), r, k);
      assert ComposedClass(m, other, m[h], r[k]);
    }
  }

  /** For a mapping whose classes sit under their own fingerprints, each class is composed under its own key. */
  lemma CompositionClass(m: ClassMapping, other: ClassMapping, r: ClassMapping, h: U64)
    requires Fingerprinted(m) && IsComposition(m, other, r) && h in m
    ensures h in r && ComposedClass(m, other, m[h], r[h])
  {
    assert SourceKey(m[h]) == h;
    var h' := GatheredSource(m, SourceKey, ComposedRel(m, other), r, h);
    assert ComposedClass(m, other, m[h'], r[h]);
  }

  /** Field lookups in a field table rebuilt by the class-level lookup in `other`. */
  lemma ComposedFieldLookup(t: Table<Field>, other: ClassMapping, rt: Table<Field>, x: string)
    requires Rebuilt(t, MapField(other), rt) && AllConvert(t, MapField(other))
    requires forall fk :: fk in t ==> FieldHash(t[fk].nameFrom) == fk
    ensures FieldNameTo(rt, x) == match FieldNameTo(t, x) case None => None case Some(y) => ClassNameTo(other, y)
  {
    MapFieldKeepsKeys(t, other);
    RebuiltSameKeys(t, MapField(other), rt);
    RebuiltFieldNameTo(t, other, rt, x);
  }

  /** A field under its own fingerprint keeps that fingerprint when its target is mapped. */
  lemma MapFieldKeepsKeys(t: Table<Field>, other: ClassMapping)
    requires AllConvert(t, MapField(other))
    requires forall fk :: fk in t ==> FieldHash(t[fk].nameFrom) == fk
    ensures forall fk :: fk in t ==> MapField(other)(t[fk]).value.0 == fk
  {
  }

  /** A field table whose entries are the mapped entries of `t`, key for key, answers with the mapped targets. */
  lemma RebuiltFieldNameTo(t: Table<Field>, other: ClassMapping, rt: Table<Field>, x: string)
    requires AllConvert(t, MapField(other)) && rt.Keys == t.Keys
    requires forall h :: h in t ==> rt[h] == MapField(other)(t[h]).value.1
    ensures FieldNameTo(rt, x) == match FieldNameTo(t, x) case None => None case Some(y) => ClassNameTo(other, y)
  {
    var h := FieldHash(x);
    if h in t {
      assert MapField(other)(t[h]).Ok?;
    }
  }

  /**
   * Within a class whose fields sit under their own fingerprints, the composed
   * class maps each field to `other`'s class name for the field's target.
   */
  lemma MapWithFieldLookup(m: ClassMapping, other: ClassMapping, r: ClassMapping, h: U64, x: string)
    requires Fingerprinted(m) && IsComposition(m, other, r) && Composable(m, other) && h in m
    requires forall fk :: fk in m[h].fields ==> FieldHash(m[h].fields[fk].nameFrom) == fk
    ensures h in r
    ensures FieldNameTo(r[h].fields, x) ==
      match FieldNameTo(m[h].fields, x) case None => None case Some(y) => ClassNameTo(other, y)
  {
    CompositionClass(m, other, r, h);
    assert Composes(m, other)(m[h]);
    ComposedFieldLookup(m[h].fields, other, r[h].fields, x);
  }
}
