/**
 * Handing the members of one class over to another, as the subclass and
 * mixin stages of `dev.fastmc.jartools.mapping` do it: on the entry objects
 * of a class mapping, filling the receiving entry in place.
 */
module ClassEntries {
  import opened Wrappers
  import opened Jvm
  import opened Mappings
  import opened Derivations
  import opened Folds
  import opened MemberWalks
  import opened ClassHeaps

  /**
   * The body the stages share: walk the methods of the class under `src`,
   * then its fields, and add a copy of each member (of the fields only those
   * `rule` keeps) to the class named `name`, found or created with
   * `getOrCreate` on the first addition (the lazy `set`). With `recompute`
   * each member is rebuilt from its names, which throws on an empty method
   * name or desc.
   *
   * The new entry, if any, is fresh and sits under the fingerprint of `name`;
   * every other entry is the same object as before. When the copies reproduce
   * the members under their own keys, the walk cannot fail and the result
   * shows `Receive` of the class's methods and kept fields.
   */
  method Transfer(h: Heap, src: U64, name: string, rule: Rule, recompute: bool, ghost m: ClassMapping)
    returns (r: Result<Heap>, ghost m2: ClassMapping)
    requires src in h && Distinct(h) && Shows(h, m)
    modifies h.Values
    ensures r.Ok? ==> Grown(h, r.value, ClassHash(name)) && Shows(r.value, m2)
    ensures r.Ok? && ClassHash(name) in r.value && ClassHash(name) !in h ==> fresh(r.value[ClassHash(name)])
    ensures !recompute ==> r.Ok?
    ensures MethodsCopyable(m[src].methods, recompute) && FieldsCopyable(m[src].fields, recompute) ==>
      r.Ok? && m2 == Receive(m, name, m[src].methods, Kept(m[src].fields, rule))
  {
    var pm, pf := h[src].methods, h[src].fields;
    assert pm == m[src].methods && pf == m[src].fields;
    var ks := WalkOrder(pm);
    var fks := WalkOrder(pf);
    var step := HandMethods(h, name, pm, ks, recompute, m);
    if step.Ok? {
      var cur, target := Settle(h, step.value.0, step.value.1, name, pm, pf, fks, rule, recompute, m,
                                WalkMethods(m, name, pm, ks, |ks|, recompute).value);
      r, m2 := Ok(cur), WalkFields(WalkMethods(m, name, pm, ks, |ks|, recompute).value, name, pf, fks, |fks|, rule, recompute);
    } else {
      r, m2 := Err(step.msg), m;
    }
  }

  /** The method walk of `Transfer`, which cannot fail on copyable methods and then ends in `Receive`. */
  method HandMethods(h: Heap, name: string, pm: Table<Method>, ks: seq<U64>, recompute: bool, ghost m: ClassMapping)
    returns (r: Result<(Heap, Option<Entry>)>)
    requires Distinct(h) && Shows(h, m) && Order(pm, ks)
    modifies h.Values
    ensures r.Ok? ==> WalkMethods(m, name, pm, ks, |ks|, recompute).Some?
    ensures r.Ok? ==> Walking(h, r.value.0, r.value.1, ClassHash(name), WalkMethods(m, name, pm, ks, |ks|, recompute).value)
    ensures r.Ok? && r.value.1.Some? && ClassHash(name) !in h ==> fresh(r.value.1.value)
    ensures !recompute ==> r.Ok?
    ensures MethodsCopyable(pm, recompute) ==>
      r.Ok? && WalkMethods(m, name, pm, ks, |ks|, recompute) == Some(Receive(m, name, pm, map[]))
  {
    r := GiveMethods(h, name, pm, ks, recompute, m);
    if MethodsCopyable(pm, recompute) {
      MethodsCopyableCopy(pm, recompute);
      WalkMethodsDone(m, name, pm, ks, recompute);
    }
  }

  /** The field walk of `Transfer` and what it leaves behind. */
  method Settle(h: Heap, cur: Heap, target: Option<Entry>, name: string, ghost pm: Table<Method>, pf: Table<Field>,
                fks: seq<U64>, rule: Rule, recompute: bool, ghost m: ClassMapping, ghost cm: ClassMapping)
    returns (r: Heap, target2: Option<Entry>)
    requires Distinct(h) && Walking(h, cur, target, ClassHash(name), cm) && Order(pf, fks)
    modifies Frame(h, target)
    ensures Grown(h, r, ClassHash(name)) && Shows(r, WalkFields(cm, name, pf, fks, |fks|, rule, recompute))
    ensures ClassHash(name) in r && ClassHash(name) !in h ==>
      fresh(r[ClassHash(name)]) || (target.Some? && r[ClassHash(name)] == target.value)
    ensures FieldsCopyable(pf, recompute) && cm == Receive(m, name, pm, map[]) ==>
      WalkFields(cm, name, pf, fks, |fks|, rule, recompute) == Receive(m, name, pm, Kept(pf, rule))
  {
    r, target2 := GiveFields(h, cur, target, name, pf, fks, rule, recompute, cm);
    if FieldsCopyable(pf, recompute) && cm == Receive(m, name, pm, map[]) {
      WalkFieldsDone(m, name, pm, pf, fks, rule, recompute);
    }
  }

  /** The first walk of `Transfer`: every method of the parent in the order `ks`, copied or recomputed. */
  method GiveMethods(h: Heap, name: string, pm: Table<Method>, ks: seq<U64>, recompute: bool, ghost m: ClassMapping)
    returns (r: Result<(Heap, Option<Entry>)>)
    requires Distinct(h) && Shows(h, m) && Listed(pm, ks)
    modifies h.Values
    ensures r.Err? ==> exists j :: 0 <= j < |ks| && CopyMethod(pm[ks[j]], recompute).None?
    ensures r.Ok? ==> WalkMethods(m, name, pm, ks, |ks|, recompute).Some?
    ensures r.Ok? ==> Walking(h, r.value.0, r.value.1, ClassHash(name), WalkMethods(m, name, pm, ks, |ks|, recompute).value)
    ensures r.Ok? && r.value.1.Some? && ClassHash(name) !in h ==> fresh(r.value.1.value)
  {
    var k := ClassHash(name);
    var cur := h;
    var target: Option<Entry> := None;
    for i := 0 to |ks|
      invariant WalkMethods(m, name, pm, ks, i, recompute).Some?
      invariant Walking(h, cur, target, k, WalkMethods(m, name, pm, ks, i, recompute).value)
      invariant target.Some? && k !in h ==> fresh(target.value)
    {
      var next := GiveMethod(h, cur, target, name, pm, ks, i, recompute, m);
      if next.Err? {
        assert CopyMethod(pm[ks[i]], recompute).None?;
        return Err(next.msg);
      }
      cur, target := next.value.0, next.value.1;
    }
    return Ok((cur, target));
  }

  /** Step `i` of the method walk. */
  method GiveMethod(ghost h: Heap, cur: Heap, target: Option<Entry>, name: string, pm: Table<Method>, ks: seq<U64>,
                    i: nat, recompute: bool, ghost m: ClassMapping)
    returns (r: Result<(Heap, Option<Entry>)>)
    requires Distinct(h) && Listed(pm, ks) && i < |ks| && WalkMethods(m, name, pm, ks, i, recompute).Some?
    requires Walking(h, cur, target, ClassHash(name), WalkMethods(m, name, pm, ks, i, recompute).value)
    modifies Frame(h, target)
    ensures r.Ok? <==> CopyMethod(pm[ks[i]], recompute).Some?
    ensures r.Ok? ==> WalkMethods(m, name, pm, ks, i + 1, recompute).Some?
    ensures r.Ok? ==> Walking(h, r.value.0, r.value.1, ClassHash(name), WalkMethods(m, name, pm, ks, i + 1, recompute).value)
    ensures r.Ok? ==> Opened(h, target, r.value.1) && (target.None? && ClassHash(name) !in h ==> fresh(r.value.1.value))
  {
    ghost var cm := WalkMethods(m, name, pm, ks, i, recompute).value;
    r := PutMethod(h, cur, target, name, pm[ks[i]], recompute, cm);
    if r.Ok? {
      WalkMethodsStep(m, name, pm, ks, i, recompute, cm, CopyMethod(pm[ks[i]], recompute).value);
    }
  }

  /** The second walk of `Transfer`: the parent's fields in the order `fks`, those the rule keeps. */
  method GiveFields(h: Heap, cur0: Heap, target0: Option<Entry>, name: string, pf: Table<Field>, fks: seq<U64>,
                    rule: Rule, recompute: bool, ghost m: ClassMapping)
    returns (cur: Heap, target: Option<Entry>)
    requires Distinct(h) && Walking(h, cur0, target0, ClassHash(name), m)
    requires Listed(pf, fks)
    modifies Frame(h, target0)
    ensures Walking(h, cur, target, ClassHash(name), WalkFields(m, name, pf, fks, |fks|, rule, recompute))
    ensures target != target0 ==> target0.None? && target.Some? && (ClassHash(name) !in h ==> fresh(target.value))
  {
    var k := ClassHash(name);
    cur, target := cur0, target0;
    ghost var cm := m;
    for j := 0 to |fks|
      invariant WalkFields(m, name, pf, fks, j, rule, recompute) == cm && Walking(h, cur, target, k, cm)
      invariant target != target0 ==> target0.None? && target.Some? && (k !in h ==> fresh(target.value))
    {
      var f := pf[fks[j]];
      WalkFieldsStep(m, name, pf, fks, j, rule, recompute);
      if Keeps(rule, f.nameFrom) {
        cur, target := PutField(h, cur, target, name, f, recompute, cm);
        cm := AfterField(cm, name, CopyField(f, recompute));
      }
    }
  }

  /**
   * One method of the walk: `set!!.methodMapping.add(...)` after the lazy
   * lookup, of the method itself or of `MappingEntry.Method(nameFrom, desc,
   * nameTo)` when recomputing, which throws on an empty name or desc.
   */
  method PutMethod(ghost h: Heap, cur: Heap, target: Option<Entry>, name: string, e: Method, recompute: bool,
                   ghost m: ClassMapping)
    returns (r: Result<(Heap, Option<Entry>)>)
    requires Distinct(h) && Walking(h, cur, target, ClassHash(name), m)
    modifies Frame(h, target)
    ensures r.Ok? <==> CopyMethod(e, recompute).Some?
    ensures r.Ok? ==> Walking(h, r.value.0, r.value.1, ClassHash(name), AfterMethod(m, name, CopyMethod(e, recompute).value))
    ensures r.Ok? ==> Opened(h, target, r.value.1) && (target.None? && ClassHash(name) !in h ==> fresh(r.value.1.value))
  {
    var copy := e;
    if recompute {
      var c := NewMethod(e.nameFrom, e.desc, e.nameTo);
      if c.None? {
        return Err("StringIndexOutOfBoundsException");
      }
      copy := c.value;
    }
    var cur2, target2 := Open(h, cur, target, name, m);
    AddMethodAt(cur2, ClassHash(name), copy, GetOrCreate(m, name, name).0);
    return Ok((cur2, target2));
  }

  /** One kept field of the walk: `set!!.fieldMapping.add(...)` after the lazy lookup. */
  method PutField(ghost h: Heap, cur: Heap, target: Option<Entry>, name: string, f: Field, recompute: bool,
                  ghost m: ClassMapping)
    returns (cur2: Heap, target2: Option<Entry>)
    requires Distinct(h) && Walking(h, cur, target, ClassHash(name), m)
    modifies Frame(h, target)
    ensures Walking(h, cur2, target2, ClassHash(name), AfterField(m, name, CopyField(f, recompute)))
    ensures Opened(h, target, target2) && (target.None? && ClassHash(name) !in h ==> fresh(target2.value))
  {
    var copy := if recompute then NewField(f.nameFrom, f.nameTo) else f;
    cur2, target2 := Open(h, cur, target, name, m);
    AddFieldAt(cur2, ClassHash(name), copy, GetOrCreate(m, name, name).0);
  }

  /**
   * The lazy `if (set == null) set = result.getOrCreate(name)`: the receiving
   * entry, looked up or created on first use and kept from then on.
   */
  method Open(ghost h: Heap, cur: Heap, target: Option<Entry>, name: string, ghost m: ClassMapping)
    returns (cur2: Heap, target2: Option<Entry>)
    requires Distinct(h) && Grown(h, cur, ClassHash(name))
    requires target.None? ==> cur == h
    requires target.Some? ==> ClassHash(name) in cur && cur[ClassHash(name)] == target.value
    requires Shows(cur, m)
    ensures target2.Some? && ClassHash(name) in cur2 && cur2[ClassHash(name)] == target2.value
    ensures Grown(h, cur2, ClassHash(name))
    ensures Opened(h, target, target2) && (target.None? && ClassHash(name) !in h ==> fresh(target2.value))
    ensures Distinct(cur2)
    ensures Shows(cur2, GetOrCreate(m, name, name).0)
  {
    GrownShares(h, cur, ClassHash(name));
    if target.Some? {
      return cur, target;
    }
    var e;
    cur2, e := GetOrCreateEntry(cur, name, m);
    target2 := Some(e);
  }
}
