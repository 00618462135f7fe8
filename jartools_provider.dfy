/**
 * The mapping providers of `dev.fastmc.jartools.remap`, over the abstract
 * view of `OldMappings`: the subclass and mixin providers, the sequence that
 * chains and merges them, and the TSRG file provider with its line parser.
 *
 * Unlike the keep-first tables of the current generation, every `add` and
 * `addAll` here goes through `SelfHashMap`, where a new entry replaces an
 * equal one: a handed-down member overwrites what the receiving class held,
 * and in the sequence's merge a later stage's class replaces an earlier
 * one's. The providers start from `result.addAll(prev)`, which shares the
 * previous mapping's class objects with the result; the model keeps the
 * result as a value (see the README).
 */
module OldProviders {
  import opened Wrappers
  import opened Asm
  import opened Text
  import opened Folds
  import opened OldMappings
  import opened SubclassInfos
  import D = Derivations
  import P = Pipelines

  // ---- the receiving class ----------------------------------------------------------

  /** The entries of `t` whose keys `ks` lists. */
  function Restrict<K(!new), E>(t: map<K, E>, ks: seq<K>): map<K, E> {
    map k | k in t && k in ks :: t[k]
  }

  lemma RestrictSnoc<K(!new), E>(t: map<K, E>, ks: seq<K>, k: K)
    requires k in t
    ensures Restrict(t, ks + [k]) == Restrict(t, ks)[k := t[k]]
  {
  }

  lemma RestrictSkip<K(!new), E>(t: map<K, E>, ks: seq<K>, k: K)
    requires k !in t
    ensures Restrict(t, ks + [k]) == Restrict(t, ks)
  {
  }

  lemma RestrictAll<K(!new), E>(t: map<K, E>, ks: seq<K>)
    requires forall k :: k in t ==> k in ks
    ensures Restrict(t, ks) == t
  {
  }

  /**
   * `getOrCreate(name)` followed by the adds of `ms` and `fs`: each add
   * replaces the entry with the same key.
   */
  function Filled(m: ClassMapping, name: string, ms: map<MethodKey, Method>, fs: map<string, Field>): (r: ClassMapping)
    ensures r.Keys == m.Keys + {name}
  {
    var m1 := GetOrCreate(m, name, name);
    m1[name := m1[name].(methods := m1[name].methods + ms, fields := m1[name].fields + fs)]
  }

  /** The lazy `set` of the providers: the receiving class is looked up, or created, only when there is something to add. */
  function Give(m: ClassMapping, name: string, ms: map<MethodKey, Method>, fs: map<string, Field>): (r: ClassMapping)
    ensures m.Keys <= r.Keys
  {
    if ms == map[] && fs == map[] then m else Filled(m, name, ms, fs)
  }

  /** The class a rule hands members to: the subclass, or the mixin. */
  function Receiver(rule: D.Rule): ClassNode {
    match rule
    case Inherit(sub) => sub
    case Shadow(mixin) => mixin
  }

  /** The subclass provider adds a fresh `Method(nameFrom, desc, nameTo)`; the mixin provider adds the entry itself. */
  function MethodFor(rule: D.Rule, e: Method): Method {
    if rule.Inherit? then NewMethod(e.nameFrom, e.desc, e.nameTo) else e
  }

  function FieldFor(rule: D.Rule, f: Field): Field {
    if rule.Inherit? then NewField(f.nameFrom, f.nameTo) else f
  }

  /** Every method of the source, as the receiver gets it. */
  function MethodsFor(rule: D.Rule, ms: map<MethodKey, Method>): (r: map<MethodKey, Method>)
    ensures r.Keys == ms.Keys
  {
    map k | k in ms :: MethodFor(rule, ms[k])
  }

  /** The fields of the source the rule lets through: not redeclared (subclass), redeclared with `@Shadow` (mixin). */
  function FieldsFor(rule: D.Rule, fs: map<string, Field>): (r: map<string, Field>)
    ensures forall k :: k in r <==> k in fs && D.Keeps(rule, fs[k].nameFrom)
  {
    map k | k in fs && D.Keeps(rule, fs[k].nameFrom) :: FieldFor(rule, fs[k])
  }

  /** One hand-over: the class `source` gives its methods and the fields the rule keeps to the receiver. */
  function Hand(m: ClassMapping, source: Class, rule: D.Rule): (r: ClassMapping)
    ensures m.Keys <= r.Keys
  {
    Give(m, Receiver(rule).name, MethodsFor(rule, source.methods), FieldsFor(rule, source.fields))
  }

  /**
   * The hand-over rule: the receiver is created (as `name -> name`) only when
   * it gets something; it then holds every method of the source and every
   * field the rule keeps, each replacing what it held under that key, and
   * keeps any other member it had. No other class changes.
   */
  lemma HandRule(m: ClassMapping, source: Class, rule: D.Rule)
    ensures var r := Hand(m, source, rule); var n := Receiver(rule).name;
      && (n in r <==> n in m || source.methods != map[] || FieldsFor(rule, source.fields) != map[])
      && (forall k | k in m && k != n :: r[k] == m[k])
      && (n in r && n in m ==> r[n].nameTo == m[n].nameTo && r[n].hash == m[n].hash)
      && (n in r && n !in m ==> r[n].nameTo == n)
      && (n in r ==> forall j | j in source.methods :: j in r[n].methods && r[n].methods[j] == MethodFor(rule, source.methods[j]))
      && (n in r ==> forall j | j in source.fields && D.Keeps(rule, source.fields[j].nameFrom) ::
            j in r[n].fields && r[n].fields[j] == FieldFor(rule, source.fields[j]))
      && (n in r ==> forall j | j in r[n].fields && !(j in source.fields && D.Keeps(rule, source.fields[j].nameFrom)) ::
            n in m && j in m[n].fields && r[n].fields[j] == m[n].fields[j])
  {
  }

  /** Handing over keeps a mapping keyed: every method and field goes in under its own key. */
  lemma HandKeeps(m: ClassMapping, source: Class, rule: D.Rule)
    requires Keyed(m) && ClassKeyed(source)
    ensures Keyed(Hand(m, source, rule))
  {
    var n := Receiver(rule).name;
    var ms, fs := MethodsFor(rule, source.methods), FieldsFor(rule, source.fields);
    if ms != map[] || fs != map[] {
      assert MethodsKeyed(ms) by {
        forall k | k in ms ensures KeyOfMethod(ms[k]) == k {
          assert KeyOfMethod(source.methods[k]) == k;
        }
      }
      assert FieldsKeyed(fs);
      FilledKeyed(m, n, ms, fs);
    }
  }

  lemma FilledKeyed(m: ClassMapping, name: string, ms: map<MethodKey, Method>, fs: map<string, Field>)
    requires Keyed(m) && MethodsKeyed(ms) && FieldsKeyed(fs)
    ensures Keyed(Filled(m, name, ms, fs))
  {
    var m1 := GetOrCreate(m, name, name);
    var c := m1[name];
    assert ClassKeyed(c);
    assert FieldsKeyed(c.fields + fs);
    assert MethodsKeyed(c.methods + ms);
  }

  /**
   * Handing over keeps a mapping hashed: the subclass provider builds its
   * entries afresh, hashing them by their keys, and the mixin provider copies
   * entries that are already hashed.
   */
  lemma HandHashed(m: ClassMapping, source: Class, rule: D.Rule)
    requires Hashed(m) && ClassKeyed(source) && ClassHashed(source)
    ensures Hashed(Hand(m, source, rule))
  {
    var n := Receiver(rule).name;
    var ms, fs := MethodsFor(rule, source.methods), FieldsFor(rule, source.fields);
    if ms != map[] || fs != map[] {
      MethodsForHashed(rule, source);
      FilledHashed(m, n, ms, fs);
    }
  }

  lemma MethodsForHashed(rule: D.Rule, source: Class)
    requires ClassKeyed(source) && ClassHashed(source)
    ensures ClassHashed(source.(methods := MethodsFor(rule, source.methods), fields := FieldsFor(rule, source.fields)))
  {
    var ms := MethodsFor(rule, source.methods);
    forall e | e in ms ensures ms[e].hash == MethodHash(e.0, e.1) {
      assert KeyOfMethod(source.methods[e]) == e;
    }
  }

  lemma FilledHashed(m: ClassMapping, name: string, ms: map<MethodKey, Method>, fs: map<string, Field>)
    requires Hashed(m)
    requires forall e | e in ms :: ms[e].hash == MethodHash(e.0, e.1)
    requires forall f | f in fs :: fs[f].hash == FieldHash(f)
    ensures Hashed(Filled(m, name, ms, fs))
  {
    var m1 := GetOrCreate(m, name, name);
    var c := m1[name];
    assert ClassHashed(c) && c.hash == ClassHash(name);
    assert ClassHashed(c.(methods := c.methods + ms, fields := c.fields + fs));
  }

  /** The hashes a class's entries cache are the ones their keys give. */
  ghost predicate ClassHashed(c: Class) {
    && (forall f | f in c.fields :: c.fields[f].hash == FieldHash(f))
    && (forall e | e in c.methods :: c.methods[e].hash == MethodHash(e.0, e.1))
  }

  // ---- the member loops -------------------------------------------------------------

  /**
   * `methodMapping.entries.forEach { … }` then `fieldMapping.entries.forEach
   * { … }` over the source class, with the lazily opened receiver `set`.
   */
  method HandMembers(m: ClassMapping, source: Class, rule: D.Rule) returns (r: ClassMapping)
    requires Keyed(m) && ClassKeyed(source)
    ensures r == Hand(m, source, rule) && Keyed(r)
  {
    var name := Receiver(rule).name;
    var created;
    r, created := HandMethods(m, name, rule, source.methods);
    r := HandFields(m, name, rule, MethodsFor(rule, source.methods), source.fields, r, created);
    HandKeeps(m, source, rule);
  }

  /** The method loop: every method of the source goes to the receiver, opened at the first one. */
  method HandMethods(m: ClassMapping, name: string, rule: D.Rule, methods: map<MethodKey, Method>)
    returns (r: ClassMapping, created: bool)
    requires MethodsKeyed(methods)
    ensures created == (MethodsFor(rule, methods) != map[])
    ensures r == Give(m, name, MethodsFor(rule, methods), map[])
  {
    ghost var ms := MethodsFor(rule, methods);
    var ks := WalkOrder(methods);
    r, created := m, false;
    ghost var sofar: map<MethodKey, Method> := map[];
    for j := 0 to |ks|
      invariant sofar == Restrict(ms, ks[..j])
      invariant created == (sofar != map[])
      invariant r == Give(m, name, sofar, map[])
    {
      r, created, sofar := MethodStep(m, name, rule, methods, ks, j, r, created, sofar);
    }
    assert ks[..|ks|] == ks;
    RestrictAll(ms, ks);
  }

  /** One turn of the method loop. */
  method MethodStep(m: ClassMapping, name: string, rule: D.Rule, methods: map<MethodKey, Method>, ks: seq<MethodKey>, j: nat,
                    r: ClassMapping, created: bool, ghost sofar: map<MethodKey, Method>)
    returns (r': ClassMapping, created': bool, ghost sofar': map<MethodKey, Method>)
    requires MethodsKeyed(methods) && j < |ks| && ks[j] in methods
    requires sofar == Restrict(MethodsFor(rule, methods), ks[..j])
    requires created == (sofar != map[]) && r == Give(m, name, sofar, map[])
    ensures sofar' == Restrict(MethodsFor(rule, methods), ks[..j + 1])
    ensures created' == (sofar' != map[]) && r' == Give(m, name, sofar', map[])
  {
    ghost var ms := MethodsFor(rule, methods);
    var e := MethodFor(rule, methods[ks[j]]);
    assert e == ms[ks[j]] && KeyOfMethod(e) == ks[j];
    r', created' := HandMethod(m, name, sofar, r, created, e);
    RestrictSnoc(ms, ks[..j], ks[j]);
    assert ks[..j + 1] == ks[..j] + [ks[j]];
    sofar' := sofar[ks[j] := e];
    assert ks[j] in sofar';
  }

  /** One method add, opening the receiver first when this is the first member. */
  method HandMethod(m: ClassMapping, name: string, ghost sofar: map<MethodKey, Method>, r: ClassMapping, created: bool, e: Method)
    returns (r': ClassMapping, created': bool)
    requires created == (sofar != map[])
    requires r == Give(m, name, sofar, map[])
    ensures created' && r' == Give(m, name, sofar[KeyOfMethod(e) := e], map[])
  {
    assert KeyOfMethod(e) in sofar[KeyOfMethod(e) := e];
    r' := r;
    if !created {
      r' := GetOrCreate(r', name, name);
      FilledNothing(m, name);
    }
    FilledAddMethod(m, name, sofar, map[], e);
    r' := AddMethod(r', name, e);
    created' := true;
  }

  /** The field loop: the fields the rule keeps go to the receiver, opened at the first one if no method opened it. */
  method HandFields(m: ClassMapping, name: string, rule: D.Rule, ghost ms: map<MethodKey, Method>,
                    fields: map<string, Field>, r0: ClassMapping, created0: bool)
    returns (r: ClassMapping)
    requires FieldsKeyed(fields)
    requires created0 == (ms != map[])
    requires r0 == Give(m, name, ms, map[])
    ensures r == Give(m, name, ms, FieldsFor(rule, fields))
  {
    ghost var fs := FieldsFor(rule, fields);
    var ks := WalkOrder(fields);
    r := r0;
    var created := created0;
    ghost var sofar: map<string, Field> := map[];
    for j := 0 to |ks|
      invariant sofar == Restrict(fs, ks[..j])
      invariant created == (ms != map[] || sofar != map[])
      invariant r == Give(m, name, ms, sofar)
    {
      assert ks[..j + 1] == ks[..j] + [ks[j]];
      var f := fields[ks[j]];
      if D.Keeps(rule, f.nameFrom) {
        var g := FieldFor(rule, f);
        assert g == fs[ks[j]] && g.nameFrom == ks[j];
        r, created := HandField(m, name, ms, sofar, r, created, g);
        RestrictSnoc(fs, ks[..j], ks[j]);
        sofar := sofar[ks[j] := g];
        assert ks[j] in sofar;
      } else {
        RestrictSkip(fs, ks[..j], ks[j]);
      }
    }
    assert ks[..|ks|] == ks;
    RestrictAll(fs, ks);
  }

  /** One field add, opening the receiver first when nothing opened it yet. */
  method HandField(m: ClassMapping, name: string, ghost ms: map<MethodKey, Method>, ghost sofar: map<string, Field>,
                   r: ClassMapping, created: bool, f: Field)
    returns (r': ClassMapping, created': bool)
    requires created == (ms != map[] || sofar != map[])
    requires r == Give(m, name, ms, sofar)
    ensures created' && r' == Give(m, name, ms, sofar[f.nameFrom := f])
  {
    assert f.nameFrom in sofar[f.nameFrom := f];
    r' := r;
    if !created {
      r' := GetOrCreate(r', name, name);
      FilledNothing(m, name);
    }
    FilledAddField(m, name, ms, sofar, f);
    r' := AddField(r', name, f);
    created' := true;
  }

  lemma FilledNothing(m: ClassMapping, name: string)
    ensures Filled(m, name, map[], map[]) == GetOrCreate(m, name, name)
  {
    var m1 := GetOrCreate(m, name, name);
    assert m1[name].(methods := m1[name].methods + map[], fields := m1[name].fields + map[]) == m1[name];
  }

  lemma FilledAddMethod(m: ClassMapping, name: string, ms: map<MethodKey, Method>, fs: map<string, Field>, e: Method)
    ensures AddMethod(Filled(m, name, ms, fs), name, e) == Filled(m, name, ms[KeyOfMethod(e) := e], fs)
  {
    var c := GetOrCreate(m, name, name)[name];
    assert (c.methods + ms)[KeyOfMethod(e) := e] == c.methods + ms[KeyOfMethod(e) := e];
  }

  lemma FilledAddField(m: ClassMapping, name: string, ms: map<MethodKey, Method>, fs: map<string, Field>, f: Field)
    ensures AddField(Filled(m, name, ms, fs), name, f) == Filled(m, name, ms, fs[f.nameFrom := f])
  {
    var c := GetOrCreate(m, name, name)[name];
    assert (c.fields + fs)[f.nameFrom := f] == c.fields + fs[f.nameFrom := f];
  }

  // ---- the subclass provider -----------------------------------------------------

  /** One class's subclasses, in order: the class under `pk` hands down to each (read afresh at each one). */
  function PropagateAll(m: ClassMapping, pk: string, subs: seq<nat>, nodes: seq<ClassNode>): (r: ClassMapping)
    requires pk in m
    ensures m.Keys <= r.Keys
    decreases |subs|
  {
    if |subs| == 0 then m
    else
      var m1 := PropagateAll(m, pk, subs[..|subs| - 1], nodes);
      var s := subs[|subs| - 1];
      if s < |nodes| then Hand(m1, m1[pk], D.Inherit(nodes[s])) else m1
  }

  /** `SubclassInfo(nodes).forEach { info -> … }`: each class the result maps hands down to its subclasses. */
  function SubclassPass(m: ClassMapping, infos: seq<Info>, nodes: seq<ClassNode>): (r: ClassMapping)
    ensures m.Keys <= r.Keys
    decreases |infos|
  {
    if |infos| == 0 then m
    else
      var m1 := SubclassPass(m, infos[..|infos| - 1], nodes);
      var pk := infos[|infos| - 1].node.name;
      if pk in m1 then PropagateAll(m1, pk, infos[|infos| - 1].subclasses, nodes) else m1
  }

  /** What `SubClassMappingProvider.get` returns for the previous mapping `prev`. */
  function Subclassed(prev: ClassMapping, nodes: seq<ClassNode>): (r: ClassMapping)
    ensures prev.Keys <= r.Keys
  {
    SubclassPass(AddAll(map[], prev), SubclassInfo(nodes), nodes)
  }

  /** `SubClassMappingProvider.get`. */
  method SubclassGet(prev: Option<ClassMapping>, inputNodes: seq<ClassNode>) returns (r: Result<ClassMapping>)
    requires prev.Some? ==> Keyed(prev.value)
    ensures prev.None? ==> r == Err("SubClassMappingProvider requires a previous mapping")
    ensures prev.Some? ==> r == Ok(Subclassed(prev.value, inputNodes)) && Keyed(r.value)
  {
    if prev.None? {
      return Err("SubClassMappingProvider requires a previous mapping");
    }
    var infos := GetSubclassInfo(inputNodes);
    var result := HandDownAll(AddAll(map[], prev.value), infos, inputNodes);
    r := Ok(result);
  }

  /** `infos.forEach { info -> … }`. */
  method HandDownAll(m: ClassMapping, infos: seq<Info>, nodes: seq<ClassNode>) returns (r: ClassMapping)
    requires Keyed(m)
    ensures r == SubclassPass(m, infos, nodes) && Keyed(r)
  {
    r := m;
    for i := 0 to |infos|
      invariant r == SubclassPass(m, infos[..i], nodes) && Keyed(r)
    {
      assert infos[..i + 1][..i] == infos[..i];
      var pk := infos[i].node.name;
      if pk in r {
        r := HandDown(r, pk, infos[i].subclasses, nodes);
      }
    }
    assert infos[..|infos|] == infos;
  }

  /** `info.subclasses.forEach { subclass -> … }`. */
  method HandDown(m: ClassMapping, pk: string, subs: seq<nat>, nodes: seq<ClassNode>) returns (r: ClassMapping)
    requires pk in m && Keyed(m)
    ensures r == PropagateAll(m, pk, subs, nodes) && Keyed(r)
  {
    r := m;
    for j := 0 to |subs|
      invariant r == PropagateAll(m, pk, subs[..j], nodes) && Keyed(r)
    {
      assert subs[..j + 1][..j] == subs[..j];
      if subs[j] < |nodes| {
        r := HandMembers(r, r[pk], D.Inherit(nodes[subs[j]]));
      }
    }
    assert subs[..|subs|] == subs;
  }

  // ---- the mixin provider --------------------------------------------------------

  /**
   * The `Type` values of one mixin's `@Mixin` value and targets arrays, in
   * order. A target counts when the previous mapping (`prevKeys`) has it;
   * since the result shares the previous mapping's class objects, its
   * members are read from the current result, with whatever earlier mixins
   * added to it.
   */
  function AdoptAll(m: ClassMapping, prevKeys: set<string>, targets: seq<string>, mixin: ClassNode): (r: ClassMapping)
    requires prevKeys <= m.Keys
    ensures m.Keys <= r.Keys
    decreases |targets|
  {
    if |targets| == 0 then m
    else
      var m1 := AdoptAll(m, prevKeys, targets[..|targets| - 1], mixin);
      var t := targets[|targets| - 1];
      if t in prevKeys then Hand(m1, m1[t], D.Shadow(mixin)) else m1
  }

  /** The mixin classes in order. */
  function MixinPass(m: ClassMapping, prevKeys: set<string>, classes: seq<ClassNode>): (r: ClassMapping)
    requires prevKeys <= m.Keys
    ensures m.Keys <= r.Keys
    decreases |classes|
  {
    if |classes| == 0 then m
    else
      var m1 := MixinPass(m, prevKeys, classes[..|classes| - 1]);
      var c := classes[|classes| - 1];
      AdoptAll(m1, prevKeys, P.ProviderTargets(c), c)
  }

  /** What `MixinMappingProvider.get` returns for the previous mapping `prev`. */
  function Mixed(prev: ClassMapping, classes: seq<ClassNode>): (r: ClassMapping)
    ensures prev.Keys <= r.Keys
  {
    MixinPass(AddAll(map[], prev), prev.Keys, classes)
  }

  /** `MixinMappingProvider.get`, the mixin classes being `mixins.values` in the order `order`. */
  method MixinGet(prev: Option<ClassMapping>, mixins: map<string, ClassNode>, order: seq<string>) returns (r: Result<ClassMapping>)
    requires P.Enumerates(order, mixins)
    requires prev.Some? ==> Keyed(prev.value)
    ensures prev.None? ==> r == Err("MixinMappingProvider requires a previous mapping")
    ensures prev.Some? ==> r == Ok(Mixed(prev.value, P.ValuesIn(mixins, order))) && Keyed(r.value)
  {
    if prev.None? {
      return Err("MixinMappingProvider requires a previous mapping");
    }
    var prevMapping := prev.value;
    var result := VisitMixins(AddAll(map[], prevMapping), prevMapping, P.ValuesIn(mixins, order));
    r := Ok(result);
  }

  /** `mixins.values.forEach { … }`. */
  method VisitMixins(m: ClassMapping, prevMapping: ClassMapping, classes: seq<ClassNode>) returns (r: ClassMapping)
    requires prevMapping.Keys <= m.Keys && Keyed(m)
    ensures r == MixinPass(m, prevMapping.Keys, classes) && Keyed(r)
  {
    r := m;
    for i := 0 to |classes|
      invariant r == MixinPass(m, prevMapping.Keys, classes[..i]) && Keyed(r)
    {
      assert classes[..i + 1][..i] == classes[..i];
      r := VisitMixin(r, prevMapping, classes[i]);
    }
    assert classes[..|classes|] == classes;
  }

  /** The `visit` of every `Type` in one mixin's `@Mixin` arrays. */
  method VisitMixin(m: ClassMapping, prevMapping: ClassMapping, mixin: ClassNode) returns (r: ClassMapping)
    requires prevMapping.Keys <= m.Keys && Keyed(m)
    ensures r == AdoptAll(m, prevMapping.Keys, P.ProviderTargets(mixin), mixin) && Keyed(r)
  {
    var targets := P.ProviderTargets(mixin);
    r := m;
    for j := 0 to |targets|
      invariant r == AdoptAll(m, prevMapping.Keys, targets[..j], mixin) && Keyed(r)
    {
      assert targets[..j + 1][..j] == targets[..j];
      if targets[j] in prevMapping {
        r := HandMembers(r, r[targets[j]], D.Shadow(mixin));
      }
    }
    assert targets[..|targets|] == targets;
  }

  // ---- the TSRG provider ---------------------------------------------------------

  /** The state of the TSRG line walk: the mapping so far, `lastClassEntry` (by name), `skippedHeader`. */
  datatype TsrgState = TsrgState(m: ClassMapping, last: Option<string>, skipped: bool)

  type TsrgParsing = st: TsrgState | st.last.Some? ==> st.last.value in st.m
    witness TsrgState(map[], None, false)

  const TsrgStart: TsrgParsing := TsrgState(map[], None, false)

  /**
   * One line of the `TsrgMappingProvider` parser. A line without a leading
   * tab names a class: `getOrCreate` of the text before the first space, so
   * the second column is never read. A tab-led line split at spaces is a
   * method with three columns, else a field of its first two.
   */
  function TsrgStep(st: TsrgParsing, line: string): (r: Result<TsrgParsing>)
    ensures r.Ok? ==> r.value.skipped
  {
    if !st.skipped then Ok(st.(skipped := true))
    else if !StartsWith(line, "\t") then
      var name := SubstringBefore(line, ' ');
      Ok(TsrgState(GetOrCreate(st.m, name, name), Some(name), true))
    else TsrgMember(st, Split(line[1..], ' '))
  }

  /** A member row, split at spaces after its tab. */
  function TsrgMember(st: TsrgParsing, split: seq<string>): Result<TsrgParsing> {
    if st.last.None? then Err("NullPointerException")
    else if |split| == 3 then Ok(st.(m := AddMethod(st.m, st.last.value, NewMethod(split[0], split[1], split[2]))))
    else if |split| < 2 then Err("IndexOutOfBoundsException")
    else Ok(st.(m := AddField(st.m, st.last.value, NewField(split[0], split[1]))))
  }

  lemma TsrgFieldMember(st: TsrgParsing, split: seq<string>)
    requires st.last.Some? && |split| >= 2 && |split| != 3
    ensures TsrgMember(st, split) == Ok(st.(m := AddField(st.m, st.last.value, NewField(split[0], split[1]))))
  {
  }

  lemma TsrgMethodMember(st: TsrgParsing, split: seq<string>)
    requires st.last.Some? && |split| == 3
    ensures TsrgMember(st, split) == Ok(st.(m := AddMethod(st.m, st.last.value, NewMethod(split[0], split[1], split[2]))))
  {
  }

  lemma TsrgTabLine(st: TsrgParsing, rest: string)
    requires st.skipped
    ensures TsrgStep(st, "\t" + rest) == TsrgMember(st, Split(rest, ' '))
  {
    var line := "\t" + rest;
    assert line[..1] == "\t" && line[1..] == rest;
  }

  function Tsrg(lines: seq<string>): Result<ClassMapping> {
    match Fold<TsrgParsing, string>(TsrgStep, TsrgStart, lines)
    case Err(e) => Err(e)
    case Ok(st) => Ok(st.m)
  }

  /** The lazy parse: `file.forEachLine { … }`. */
  method ParseTsrg(lines: seq<string>) returns (r: Result<ClassMapping>)
    ensures r == Tsrg(lines)
  {
    var st := Walk<TsrgParsing, string>(TsrgStep, TsrgStart, lines);
    r := if st.Ok? then Ok(st.value.m) else Err(st.msg);
  }

  /**
   * `TsrgMappingProvider`: the file must have the extension `tsrg`; its
   * parse is computed on the first `get` and kept once it succeeds (a lazy
   * value whose initialiser throws is computed again on the next access).
   */
  class TsrgMappingProvider {
    const path: string
    const lines: seq<string>
    var cached: Option<ClassMapping>

    /** A kept parse is the parse of the file. */
    ghost predicate Valid()
      reads this
    {
      cached.Some? ==> Tsrg(lines) == Ok(cached.value)
    }

    constructor(path: string, lines: seq<string>)
      requires Extension(path) == "tsrg"
      ensures Valid() && this.path == path && this.lines == lines && cached.None?
    {
      this.path := path;
      this.lines := lines;
      cached := None;
    }

    /** `get` ignores the previous mapping and returns the parse of the file, whether kept or computed now. */
    method Get(prev: Option<ClassMapping>) returns (r: Result<ClassMapping>)
      requires Valid()
      modifies this
      ensures Valid() && r == Tsrg(lines)
      ensures r.Ok? ==> cached == Some(r.value)
      ensures r.Err? ==> cached == old(cached)
    {
      if cached.Some? {
        return Ok(cached.value);
      }
      r := ParseTsrg(lines);
      if r.Ok? {
        cached := Some(r.value);
      }
    }
  }

  /** `TsrgMappingProvider(file)`: `require(file.extension == "tsrg") { "Invalid file $file" }`. */
  method NewTsrgMappingProvider(path: string, lines: seq<string>) returns (r: Result<TsrgMappingProvider>)
    ensures r.Err? <==> Extension(path) != "tsrg"
    ensures r.Err? ==> r.msg == "Invalid file " + path
    ensures r.Ok? ==> fresh(r.value) && r.value.Valid() && r.value.path == path && r.value.lines == lines
  {
    if Extension(path) != "tsrg" {
      return Err("Invalid file " + path);
    }
    var p := new TsrgMappingProvider(path, lines);
    r := Ok(p);
  }

  /** The header line is skipped whatever it holds. */
  lemma TsrgSkipsHeader(h1: string, h2: string, rest: seq<string>)
    ensures Tsrg([h1] + rest) == Tsrg([h2] + rest)
  {
    FoldConcat<TsrgParsing, string>(TsrgStep, TsrgStart, [h1], rest);
    FoldConcat<TsrgParsing, string>(TsrgStep, TsrgStart, [h2], rest);
    assert [h1][..0] == [] && [h2][..0] == [];
  }

  /**
   * A class row `a b`: the class named `a` is reused when present, with its
   * members and its target name, and is otherwise created mapping `a` to
   * itself; the target `b` is discarded.
   */
  lemma TsrgClassRow(st: TsrgParsing, a: string, b: string)
    requires st.skipped && ' ' !in a && (|a| > 0 ==> a[0] != '\t')
    ensures var r := TsrgStep(st, a + " " + b);
      && r.Ok? && r.value.last == Some(a)
      && (a in st.m ==> r.value.m == st.m)
      && (a !in st.m ==> r.value.m == st.m[a := NewClass(a, a, ClassHash(a))])
  {
    var line := a + " " + b;
    IndexOfPrefix(a, ' ', b);
    assert line[..|a|] == a;
    assert |line| > 0 && line[0] != '\t';
  }

  /** A tab-led row of three columns is a method of the last class, replacing an equal one. */
  lemma TsrgMethodRow(st: TsrgParsing, x: string, y: string, z: string)
    requires st.skipped && st.last.Some? && ' ' !in x && ' ' !in y && ' ' !in z
    ensures TsrgStep(st, "\t" + x + " " + y + " " + z) == Ok(st.(m := AddMethod(st.m, st.last.value, NewMethod(x, y, z))))
  {
    assert "\t" + x + " " + y + " " + z == "\t" + (x + " " + y + " " + z);
    TsrgTabLine(st, x + " " + y + " " + z);
    SplitThree(x, y, z);
    TsrgMethodMember(st, [x, y, z]);
  }

  /** A tab-led row of two columns is a field of the last class. */
  lemma TsrgFieldRow(st: TsrgParsing, x: string, y: string)
    requires st.skipped && st.last.Some? && ' ' !in x && ' ' !in y
    ensures TsrgStep(st, "\t" + x + " " + y) == Ok(st.(m := AddField(st.m, st.last.value, NewField(x, y))))
  {
    assert "\t" + x + " " + y == "\t" + (x + " " + y);
    TsrgTabLine(st, x + " " + y);
    SplitTwo(x, y);
  }

  /** A tab-led row of four columns is a field too: only exactly three columns make a method. */
  lemma TsrgFourColumnsField(st: TsrgParsing, w: string, x: string, y: string, z: string)
    requires st.skipped && st.last.Some? && ' ' !in w && ' ' !in x && ' ' !in y && ' ' !in z
    ensures TsrgStep(st, "\t" + w + " " + x + " " + y + " " + z) == Ok(st.(m := AddField(st.m, st.last.value, NewField(w, x))))
  {
    assert "\t" + w + " " + x + " " + y + " " + z == "\t" + (w + " " + x + " " + y + " " + z);
    TsrgTabLine(st, w + " " + x + " " + y + " " + z);
    SplitFour(w, x, y, z);
    TsrgFieldMember(st, [w, x, y, z]);
  }

  /** A member row before any class row fails on the null `lastClassEntry`. */
  lemma TsrgMemberFirstFails(header: string, line: string, rest: seq<string>)
    requires |line| > 0 && line[0] == '\t'
    ensures Tsrg([header, line] + rest) == Err("NullPointerException")
  {
    var lines := [header, line] + rest;
    var st1 := TsrgStart.(skipped := true);
    assert lines[..0] == [];
    FoldNext<TsrgParsing, string>(TsrgStep, TsrgStart, lines, 0, TsrgStart);
    FoldNext<TsrgParsing, string>(TsrgStep, TsrgStart, lines, 1, st1);
    assert line[..1] == "\t";
    FoldStops<TsrgParsing, string>(TsrgStep, TsrgStart, lines, 1, st1);
  }

  /** Every line keeps the mapping keyed: classes under their names, members under their keys. */
  lemma TsrgStepKeyed(st: TsrgParsing, line: string)
    requires Keyed(st.m)
    ensures TsrgStep(st, line).Ok? ==> Keyed(TsrgStep(st, line).value.m)
  {
    if st.skipped && !StartsWith(line, "\t") {
      var name := SubstringBefore(line, ' ');
      GetOrCreateKeyed(st.m, name);
    }
  }

  lemma GetOrCreateKeyed(m: ClassMapping, name: string)
    requires Keyed(m)
    ensures Keyed(GetOrCreate(m, name, name))
  {
  }

  lemma {:induction false} TsrgKeyed(lines: seq<string>)
    ensures Tsrg(lines).Ok? ==> Keyed(Tsrg(lines).value)
    decreases |lines|
  {
    if |lines| > 0 {
      var init := lines[..|lines| - 1];
      TsrgKeyed(init);
      match Fold<TsrgParsing, string>(TsrgStep, TsrgStart, init)
      case Err(_) =>
      case Ok(st) =>
        TsrgStepKeyed(st, lines[|lines| - 1]);
    }
  }

  // ---- the sequence --------------------------------------------------------------

  /** A provider of a sequence. */
  datatype Stage =
    | SubClassProvider(inputNodes: seq<ClassNode>)
    | MixinProvider(mixins: map<string, ClassNode>, order: seq<string>)
      /** A `TsrgMappingProvider` over the lines of its file. */
    | TsrgFile(lines: seq<string>)
      /** A provider whose mapping is given: the previous mapping is ignored. */
    | Given(table: ClassMapping)

  /** What a stage needs of its inputs: an order that lists a hash map's keys, a given mapping that is keyed. */
  ghost predicate Ready(s: Stage) {
    match s
    case MixinProvider(mixins, order) => P.Enumerates(order, mixins)
    case Given(table) => Keyed(table)
    case _ => true
  }

  /** What `stage.get(prev, …)` returns. */
  function StageResult(s: Stage, prev: Option<ClassMapping>): Result<ClassMapping>
    requires Ready(s)
  {
    match s
    case SubClassProvider(nodes) =>
      if prev.None? then Err("SubClassMappingProvider requires a previous mapping") else Ok(Subclassed(prev.value, nodes))
    case MixinProvider(mixins, order) =>
      if prev.None? then Err("MixinMappingProvider requires a previous mapping")
      else Ok(Mixed(prev.value, P.ValuesIn(mixins, order)))
    case TsrgFile(lines) => Tsrg(lines)
    case Given(table) => Ok(table)
  }

  method RunStage(s: Stage, prev: Option<ClassMapping>) returns (r: Result<ClassMapping>)
    requires Ready(s) && (prev.Some? ==> Keyed(prev.value))
    ensures r == StageResult(s, prev)
    ensures r.Ok? ==> Keyed(r.value)
  {
    match s
    case SubClassProvider(nodes) =>
      r := SubclassGet(prev, nodes);
    case MixinProvider(mixins, order) =>
      r := MixinGet(prev, mixins, order);
    case TsrgFile(lines) =>
      r := ParseTsrg(lines);
      TsrgKeyed(lines);
    case Given(table) =>
      r := Ok(table);
  }

  /**
   * The stages run in order, each handed the result of the one before it (the
   * first the sequence's own previous mapping); the first exception ends the run.
   */
  function Chain(stages: seq<Stage>, prev: Option<ClassMapping>): (r: Result<seq<ClassMapping>>)
    requires forall i :: 0 <= i < |stages| ==> Ready(stages[i])
    ensures r.Ok? ==> |r.value| == |stages|
    decreases |stages|
  {
    if |stages| == 0 then Ok([])
    else
      match Chain(stages[..|stages| - 1], prev)
      case Err(e) => Err(e)
      case Ok(rs) =>
        match StageResult(stages[|stages| - 1], Handed(rs, prev))
        case Err(e) => Err(e)
        case Ok(x) => Ok(rs + [x])
  }

  /** What the next stage is handed: the last result, or the sequence's own previous mapping. */
  function Handed(rs: seq<ClassMapping>, prev: Option<ClassMapping>): Option<ClassMapping> {
    if |rs| == 0 then prev else Some(rs[|rs| - 1])
  }

  lemma ChainNext(stages: seq<Stage>, prev: Option<ClassMapping>, i: nat, rs: seq<ClassMapping>)
    requires i < |stages| && forall k :: 0 <= k < |stages| ==> Ready(stages[k])
    requires Chain(stages[..i], prev) == Ok(rs)
    ensures Chain(stages[..i + 1], prev) ==
      match StageResult(stages[i], Handed(rs, prev)) case Err(e) => Err(e) case Ok(x) => Ok(rs + [x])
  {
    assert stages[..i + 1][..i] == stages[..i];
  }

  /** `result.addAll(deferred.await())` over the results in order, from an empty mapping. */
  function MergeAll(rs: seq<ClassMapping>): (r: ClassMapping)
    decreases |rs|
  {
    if |rs| == 0 then map[] else AddAll(MergeAll(rs[..|rs| - 1]), rs[|rs| - 1])
  }

  /** Once a prefix of the stages fails, the whole run fails with that exception. */
  lemma {:induction false} ChainStops(stages: seq<Stage>, prev: Option<ClassMapping>, i: nat)
    requires i <= |stages| && forall k :: 0 <= k < |stages| ==> Ready(stages[k])
    requires Chain(stages[..i], prev).Err?
    ensures Chain(stages, prev) == Chain(stages[..i], prev)
    decreases |stages| - i
  {
    if i < |stages| {
      var init := stages[..|stages| - 1];
      assert init[..i] == stages[..i];
      ChainStops(init, prev, i);
    } else {
      assert stages[..i] == stages;
    }
  }

  /**
   * `SequenceMappingProvider`: at least one provider; the merged mapping is
   * kept after the first successful run and returned from then on, whatever
   * previous mapping later calls pass.
   */
  class SequenceMappingProvider {
    const stages: seq<Stage>
    var cached: Option<ClassMapping>

    constructor(stages: seq<Stage>)
      requires |stages| > 0
      ensures this.stages == stages && cached.None?
    {
      this.stages := stages;
      cached := None;
    }

    method Get(prev: Option<ClassMapping>) returns (r: Result<ClassMapping>)
      requires forall i :: 0 <= i < |stages| ==> Ready(stages[i])
      requires prev.Some? ==> Keyed(prev.value)
      modifies this
      ensures old(cached).Some? ==> r == Ok(old(cached).value) && cached == old(cached)
      ensures old(cached).None? ==> r == (match Chain(stages, prev) case Err(e) => Err(e) case Ok(rs) => Ok(MergeAll(rs)))
      ensures old(cached).None? && r.Ok? ==> cached == Some(r.value)
      ensures r.Err? ==> cached == old(cached)
    {
      if cached.Some? {
        return Ok(cached.value);
      }
      var rs := RunChain(stages, prev);
      if rs.Err? {
        return Err(rs.msg);
      }
      var result := Merge(rs.value);
      cached := Some(result);
      r := Ok(result);
    }
  }

  /** The `async` stage chain, awaited in order. */
  method RunChain(stages: seq<Stage>, prev: Option<ClassMapping>) returns (r: Result<seq<ClassMapping>>)
    requires forall i :: 0 <= i < |stages| ==> Ready(stages[i])
    requires prev.Some? ==> Keyed(prev.value)
    ensures r == Chain(stages, prev)
  {
    var rs: seq<ClassMapping> := [];
    for i := 0 to |stages|
      invariant ChainAt(stages, prev, i, rs)
    {
      var next := ChainStep(stages, prev, i, rs);
      if next.Err? {
        ChainStops(stages, prev, i + 1);
        return Err(next.msg);
      }
      rs := next.value;
    }
    assert stages[..|stages|] == stages;
    r := Ok(rs);
  }

  /** The first `i` stages ran and gave `rs`, the last of them (or the sequence's own previous mapping) keyed. */
  ghost predicate ChainAt(stages: seq<Stage>, prev: Option<ClassMapping>, i: nat, rs: seq<ClassMapping>)
    requires i <= |stages| && forall k :: 0 <= k < |stages| ==> Ready(stages[k])
  {
    && Chain(stages[..i], prev) == Ok(rs)
    && (Handed(rs, prev).Some? ==> Keyed(Handed(rs, prev).value))
  }

  /** One stage of the chain, handed the mapping before it. */
  method ChainStep(stages: seq<Stage>, prev: Option<ClassMapping>, i: nat, rs: seq<ClassMapping>)
    returns (r: Result<seq<ClassMapping>>)
    requires i < |stages| && forall k :: 0 <= k < |stages| ==> Ready(stages[k])
    requires ChainAt(stages, prev, i, rs)
    ensures r.Err? ==> r == Chain(stages[..i + 1], prev)
    ensures r.Ok? ==> ChainAt(stages, prev, i + 1, r.value)
  {
    ChainNext(stages, prev, i, rs);
    var next := RunStage(stages[i], Handed(rs, prev));
    if next.Err? {
      return Err(next.msg);
    }
    r := Ok(rs + [next.value]);
  }

  /** The merge loop: `result.addAll(…)` for each stage's mapping in order. */
  method Merge(rs: seq<ClassMapping>) returns (result: ClassMapping)
    ensures result == MergeAll(rs)
  {
    result := map[];
    for i := 0 to |rs|
      invariant result == MergeAll(rs[..i])
    {
      assert rs[..i + 1][..i] == rs[..i];
      result := AddAll(result, rs[i]);
    }
    assert rs[..|rs|] == rs;
  }

  /** `SequenceMappingProvider(*providers)`: `require(providers.isNotEmpty()) { "No providers provided" }`. */
  method NewSequenceMappingProvider(stages: seq<Stage>) returns (r: Result<SequenceMappingProvider>)
    ensures r.Err? <==> |stages| == 0
    ensures r.Err? ==> r.msg == "No providers provided"
    ensures r.Ok? ==> fresh(r.value) && r.value.stages == stages && r.value.cached.None?
  {
    if |stages| == 0 {
      return Err("No providers provided");
    }
    var s := new SequenceMappingProvider(stages);
    r := Ok(s);
  }

  // ---- what the merge keeps ------------------------------------------------------

  /** The merge holds exactly the classes some result holds. */
  lemma {:induction false} MergeKeys(rs: seq<ClassMapping>, k: string)
    ensures k in MergeAll(rs) <==> exists i | 0 <= i < |rs| :: k in rs[i]
    decreases |rs|
  {
    if |rs| > 0 {
      var init := rs[..|rs| - 1];
      MergeKeys(init, k);
      if exists i | 0 <= i < |init| :: k in init[i] {
        var i :| 0 <= i < |init| && k in init[i];
        assert rs[i] == init[i];
      }
      if exists i | 0 <= i < |rs| :: k in rs[i] {
        var i :| 0 <= i < |rs| && k in rs[i];
        if i < |init| {
          assert init[i] == rs[i];
        }
      }
    }
  }

  /**
   * On values, the later result wins: `MergeAll` takes a class from the last
   * result that holds it. This is the source's answer only where those results
   * hold one shared class object (`MergeLastWins`).
   */
  lemma {:induction false} MergeFromLast(rs: seq<ClassMapping>, i: nat, k: string)
    requires i < |rs| && k in rs[i]
    requires forall j :: i < j < |rs| ==> k !in rs[j]
    ensures k in MergeAll(rs) && MergeAll(rs)[k] == rs[i][k]
    decreases |rs|
  {
    if i < |rs| - 1 {
      var init := rs[..|rs| - 1];
      MergeFromLast(init, i, k);
    }
  }

  /** On values: when every result holds every class of the one before, `MergeAll` is the last result. */
  lemma {:induction false} MergeOfGrowing(rs: seq<ClassMapping>)
    requires |rs| > 0
    requires forall i :: 0 < i < |rs| ==> rs[i - 1].Keys <= rs[i].Keys
    ensures MergeAll(rs) == rs[|rs| - 1]
    decreases |rs|
  {
    if |rs| > 1 {
      var init := rs[..|rs| - 1];
      MergeOfGrowing(init);
    }
  }

  /** A stage that starts from `result.addAll(prev)`, so that its result holds the previous result's class objects themselves. */
  predicate BuildsOnPrevious(s: Stage) {
    s.SubClassProvider? || s.MixinProvider?
  }

  /**
   * Class k of result i is the very object every earlier result holding k
   * holds: each stage after such a result, up to stage i, builds on the
   * result before it. Classes compare by identity, so only then does the
   * merge hold a single class of that name.
   */
  predicate SharedUpTo(stages: seq<Stage>, rs: seq<ClassMapping>, i: nat, k: string)
    requires i < |stages| && i < |rs|
  {
    forall h, j :: 0 <= h < j <= i && k in rs[h] ==> BuildsOnPrevious(stages[j])
  }

  /**
   * A class the run's results share as one object is merged as the last
   * result holding it left it: the object's state after the last stage that
   * changed it.
   */
  lemma MergeLastWins(stages: seq<Stage>, prev: Option<ClassMapping>, i: nat, k: string)
    requires forall j :: 0 <= j < |stages| ==> Ready(stages[j])
    requires Chain(stages, prev).Ok? && i < |stages|
    requires var rs := Chain(stages, prev).value;
      && k in rs[i] && (forall j :: i < j < |rs| ==> k !in rs[j])
      && SharedUpTo(stages, rs, i, k)
    ensures var rs := Chain(stages, prev).value; k in MergeAll(rs) && MergeAll(rs)[k] == rs[i][k]
  {
    MergeFromLast(Chain(stages, prev).value, i, k);
  }

  /**
   * A sequence whose providers after the first all build on the previous
   * mapping (subclass or mixin) returns its last stage's mapping: those stages
   * hold the very class objects they are handed, so the merge holds one
   * object per name, in the state the last stage left it.
   */
  lemma DerivedSequence(stages: seq<Stage>, prev: Option<ClassMapping>)
    requires |stages| > 0 && forall i :: 0 <= i < |stages| ==> Ready(stages[i])
    requires forall i :: 0 < i < |stages| ==> BuildsOnPrevious(stages[i])
    requires Chain(stages, prev).Ok?
    ensures MergeAll(Chain(stages, prev).value) == Chain(stages, prev).value[|stages| - 1]
  {
    var rs := Chain(stages, prev).value;
    forall i | 0 < i < |rs| ensures rs[i - 1].Keys <= rs[i].Keys {
      ChainGrows(stages, prev, i);
    }
    MergeOfGrowing(rs);
  }

  /** A subclass or mixin stage of a run holds every class of the result before it. */
  lemma {:induction false} ChainGrows(stages: seq<Stage>, prev: Option<ClassMapping>, i: nat)
    requires forall k :: 0 <= k < |stages| ==> Ready(stages[k])
    requires 0 < i < |stages| && (stages[i].SubClassProvider? || stages[i].MixinProvider?)
    requires Chain(stages, prev).Ok?
    ensures Chain(stages, prev).value[i - 1].Keys <= Chain(stages, prev).value[i].Keys
    decreases |stages|
  {
    var init := stages[..|stages| - 1];
    if i < |stages| - 1 {
      assert init[i] == stages[i];
      ChainGrows(init, prev, i);
    }
  }
}
