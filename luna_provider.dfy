/**
 * The mapping providers of `dev.luna5ama.jartools.remap`, over the value
 * view of `LunaMappings`: the subclass and mixin providers, the sequence that
 * chains and merges them, and the TSRG file provider with its line parser.
 *
 * Both derived providers start from a `toMutable` copy of every class of the
 * previous mapping, so the previous mapping never changes; the model keeps
 * the result as a value. A hand-over walks the entry lists of the class it
 * reads from; the model walks any lists whose replay gives that class's
 * tables, which `MutableClassMapping.Valid` keeps true of every class.
 */
module LunaProviders {
  import opened Wrappers
  import opened Asm
  import opened Text
  import opened Folds
  import opened LunaMappings
  import opened SubclassInfos
  import D = Derivations
  import P = Pipelines

  // ---- the receiving class ----------------------------------------------------------

  /** `getOrPutEmpty(name)` followed by the adds of the methods `ms` and the fields `fs`. */
  function Filled(m: Mapping, name: string, ms: MethodTable, fs: map<string, Field>): (r: Mapping)
    ensures r.Keys == m.Keys + {name}
  {
    var m1 := GetOrPutEmpty(m, name);
    m1[name := Merged(m1[name], ClassMapping(name, name, fs, ms))]
  }

  /** The lazy `set` of the providers: the receiving class is looked up, or created, only when there is something to add. */
  function Give(m: Mapping, name: string, ms: MethodTable, fs: map<string, Field>): (r: Mapping)
    ensures m.Keys <= r.Keys
  {
    if ms == map[] && fs == map[] then m else Filled(m, name, ms, fs)
  }

  /** The class a rule hands members to: the subclass, or the mixin. */
  function Receiver(rule: D.Rule): ClassNode {
    match rule
    case Inherit(sub) => sub
    case Shadow(mixin) => mixin
  }

  /** The fields the rule lets through: not redeclared (subclass), redeclared with `@Shadow` (mixin). */
  function FieldsFor(rule: D.Rule, fs: map<string, Field>): map<string, Field> {
    map k | k in fs && D.Keeps(rule, k) :: fs[k]
  }

  /** One hand-over: the class `source` gives all its methods and the fields the rule keeps to the receiver. */
  function Hand(m: Mapping, source: ClassMapping, rule: D.Rule): (r: Mapping)
    ensures m.Keys <= r.Keys
  {
    Give(m, Receiver(rule).name, source.methods, FieldsFor(rule, source.fields))
  }

  /** `set!!.addMethod(e)`. */
  function AddMethodTo(m: Mapping, name: string, e: Method): Mapping
    requires name in m
  {
    m[name := m[name].(methods := PutMethod(m[name].methods, e))]
  }

  /** `set!!.addField(f)`. */
  function AddFieldTo(m: Mapping, name: string, f: Field): Mapping
    requires name in m
  {
    m[name := m[name].(fields := PutField(m[name].fields, f))]
  }

  /**
   * The hand-over rule: the receiver is created (mapped to its own name) only
   * when it gets something. A method lookup on it then finds the source's
   * method where the source has one, and what it held before elsewhere; a
   * field lookup finds the source's field where the rule keeps it. No other
   * class changes, and a receiver that existed keeps its names.
   */
  lemma HandRule(m: Mapping, source: ClassMapping, rule: D.Rule, x: string, d: string)
    ensures var r := Hand(m, source, rule); var n := Receiver(rule).name;
      && (n in r <==> n in m || source.methods != map[] || FieldsFor(rule, source.fields) != map[])
      && (forall k | k in m && k != n :: r[k] == m[k])
      && (n in r && n in m ==> r[n].nameFrom == m[n].nameFrom && r[n].nameTo == m[n].nameTo)
      && (n in r && n !in m ==> r[n].nameFrom == n && r[n].nameTo == n)
      && (n in r ==>
            GetMethod(r[n], x, d) ==
              if GetMethod(source, x, d).Some? then GetMethod(source, x, d)
              else if n in m then GetMethod(m[n], x, d) else None)
      && (n in r ==>
            GetField(r[n], x) ==
              if x in source.fields && D.Keeps(rule, x) then GetField(source, x)
              else if n in m then GetField(m[n], x) else None)
  {
    var n := Receiver(rule).name;
    var fs := FieldsFor(rule, source.fields);
    if source.methods != map[] || fs != map[] {
      GetAfterAddAll(GetOrPutEmpty(m, n)[n], ClassMapping(n, n, fs, source.methods), x, d);
    } else {
      assert !(x in source.fields && D.Keeps(rule, x));
    }
  }

  /** Handing over keeps a mapping keyed. */
  lemma HandKeeps(m: Mapping, source: ClassMapping, rule: D.Rule)
    requires Keyed(m) && ClassKeyed(source)
    ensures Keyed(Hand(m, source, rule))
  {
    var n := Receiver(rule).name;
    var fs := FieldsFor(rule, source.fields);
    if source.methods != map[] || fs != map[] {
      var c := GetOrPutEmpty(m, n)[n];
      assert ClassKeyed(c);
      MergedKeyed(c, ClassMapping(n, n, fs, source.methods));
    }
  }

  /** Handing over only adds: the result covers the mapping it was handed. */
  lemma HandCovers(m: Mapping, source: ClassMapping, rule: D.Rule)
    ensures Covers(m, Hand(m, source, rule))
  {
    var n := Receiver(rule).name;
    var fs := FieldsFor(rule, source.fields);
    if source.methods != map[] || fs != map[] {
      MergedCovers(GetOrPutEmpty(m, n)[n], ClassMapping(n, n, fs, source.methods));
    }
  }

  lemma FilledNothing(m: Mapping, name: string)
    ensures Filled(m, name, map[], map[]) == GetOrPutEmpty(m, name)
  {
    var c := GetOrPutEmpty(m, name)[name];
    MergeNothing(c.methods);
    assert c.fields + map[] == c.fields;
  }

  lemma FilledAddMethod(m: Mapping, name: string, ms: MethodTable, fs: map<string, Field>, e: Method)
    ensures AddMethodTo(Filled(m, name, ms, fs), name, e) == Filled(m, name, PutMethod(ms, e), fs)
  {
    PutMethodMerge(GetOrPutEmpty(m, name)[name].methods, ms, e);
  }

  lemma FilledAddField(m: Mapping, name: string, ms: MethodTable, fs: map<string, Field>, f: Field)
    ensures AddFieldTo(Filled(m, name, ms, fs), name, f) == Filled(m, name, ms, PutField(fs, f))
  {
    var c := GetOrPutEmpty(m, name)[name];
    UpdateUnion(c.fields, fs, f.nameFrom, f);
  }

  // ---- the member loops -------------------------------------------------------------

  /**
   * `currentClassMapping.methods.forEach { … }` then `….fields.forEach { … }`
   * over the lists `ml` and `fl` of the source class, with the lazily opened
   * receiver `set`.
   */
  method HandMembers(m: Mapping, source: ClassMapping, fl: seq<Field>, ml: seq<Method>, rule: D.Rule) returns (r: Mapping)
    requires ReplayFields(fl) == source.fields && ReplayMethods(ml) == source.methods
    ensures r == Hand(m, source, rule)
  {
    var name := Receiver(rule).name;
    var created;
    r, created := HandMethods(m, name, ml);
    r := HandFields(m, name, source.methods, rule, fl, r, created);
  }

  /** The method loop: every listed method goes to the receiver, opened at the first one. */
  method HandMethods(m: Mapping, name: string, ml: seq<Method>) returns (r: Mapping, created: bool)
    ensures created == (ReplayMethods(ml) != map[])
    ensures r == Give(m, name, ReplayMethods(ml), map[])
  {
    r, created := m, false;
    for j := 0 to |ml|
      invariant created == (j > 0)
      invariant r == Give(m, name, ReplayMethods(ml[..j]), map[])
    {
      r := MethodStep(m, name, ml, j, r, created);
      created := true;
    }
    assert ml[..|ml|] == ml;
    ReplayMethodsEmpty(ml);
  }

  /** One turn of the method loop, opening the receiver first when this is the first method. */
  method MethodStep(m: Mapping, name: string, ml: seq<Method>, j: nat, r: Mapping, created: bool) returns (r': Mapping)
    requires j < |ml| && created == (j > 0)
    requires r == Give(m, name, ReplayMethods(ml[..j]), map[])
    ensures r' == Give(m, name, ReplayMethods(ml[..j + 1]), map[])
  {
    var e := ml[j];
    ghost var ms := ReplayMethods(ml[..j]);
    ReplayMethodsEmpty(ml[..j]);
    r' := r;
    if !created {
      r' := GetOrPutEmpty(r', name);
      FilledNothing(m, name);
    }
    FilledAddMethod(m, name, ms, map[], e);
    r' := AddMethodTo(r', name, e);
    assert ml[..j + 1] == ml[..j] + [e];
    ReplayMethodsSnoc(ml[..j], e);
    assert e.nameFrom in PutMethod(ms, e);
  }

  /** The field loop: the listed fields the rule keeps go to the receiver, opened at the first one if no method opened it. */
  method HandFields(m: Mapping, name: string, ghost ms: MethodTable, rule: D.Rule, fl: seq<Field>, r0: Mapping, created0: bool)
    returns (r: Mapping)
    requires created0 == (ms != map[]) && r0 == Give(m, name, ms, map[])
    ensures r == Give(m, name, ms, FieldsFor(rule, ReplayFields(fl)))
  {
    r := r0;
    var created := created0;
    for j := 0 to |fl|
      invariant created == (ms != map[] || FieldsFor(rule, ReplayFields(fl[..j])) != map[])
      invariant r == Give(m, name, ms, FieldsFor(rule, ReplayFields(fl[..j])))
    {
      r, created := FieldStep(m, name, ms, rule, fl, j, r, created);
    }
    assert fl[..|fl|] == fl;
  }

  /** One turn of the field loop. */
  method FieldStep(m: Mapping, name: string, ghost ms: MethodTable, rule: D.Rule, fl: seq<Field>, j: nat, r: Mapping, created: bool)
    returns (r': Mapping, created': bool)
    requires j < |fl| && created == (ms != map[] || FieldsFor(rule, ReplayFields(fl[..j])) != map[])
    requires r == Give(m, name, ms, FieldsFor(rule, ReplayFields(fl[..j])))
    ensures created' == (ms != map[] || FieldsFor(rule, ReplayFields(fl[..j + 1])) != map[])
    ensures r' == Give(m, name, ms, FieldsFor(rule, ReplayFields(fl[..j + 1])))
  {
    var f := fl[j];
    ghost var fs := FieldsFor(rule, ReplayFields(fl[..j]));
    assert fl[..j + 1] == fl[..j] + [f];
    ReplayFieldsSnoc(fl[..j], f);
    r', created' := r, created;
    if D.Keeps(rule, f.nameFrom) {
      FieldsForPut(rule, ReplayFields(fl[..j]), f);
      if !created {
        r' := GetOrPutEmpty(r', name);
        FilledNothing(m, name);
      }
      FilledAddField(m, name, ms, fs, f);
      r' := AddFieldTo(r', name, f);
      created' := true;
      assert f.nameFrom in PutField(fs, f);
    } else {
      FieldsForSkip(rule, ReplayFields(fl[..j]), f);
    }
  }

  lemma FieldsForPut(rule: D.Rule, t: map<string, Field>, f: Field)
    requires D.Keeps(rule, f.nameFrom)
    ensures FieldsFor(rule, PutField(t, f)) == PutField(FieldsFor(rule, t), f)
  {
  }

  lemma FieldsForSkip(rule: D.Rule, t: map<string, Field>, f: Field)
    requires !D.Keeps(rule, f.nameFrom)
    ensures FieldsFor(rule, PutField(t, f)) == FieldsFor(rule, t)
  {
  }

  /** A list stands for no methods exactly when it is empty. */
  lemma ReplayMethodsEmpty(ml: seq<Method>)
    ensures ReplayMethods(ml) == map[] <==> |ml| == 0
  {
    if |ml| > 0 {
      var e := ml[|ml| - 1];
      assert e.nameFrom in ReplayMethods(ml);
    }
  }

  // ---- the subclass provider -----------------------------------------------------

  /** One class's subclasses, in order: the class under `pk` hands down to each (read afresh at each one). */
  function PropagateAll(m: Mapping, pk: string, subs: seq<nat>, nodes: seq<ClassNode>): (r: Mapping)
    requires pk in m
    ensures m.Keys <= r.Keys
    decreases |subs|
  {
    if |subs| == 0 then m
    else
      var m1 := PropagateAll(m, pk, subs[..|subs| - 1], nodes);
      var s := subs[|subs| - 1];
      if s < |nodes| then Hand(m1, m1[pk], D.Inherit(nodes[s])) else m1
  }

  /** `SubclassInfo(inputClassNodes).forEach { info -> … }`: each class the result maps hands down to its subclasses. */
  function SubclassPass(m: Mapping, infos: seq<Info>, nodes: seq<ClassNode>): (r: Mapping)
    ensures m.Keys <= r.Keys
    decreases |infos|
  {
    if |infos| == 0 then m
    else
      var m1 := SubclassPass(m, infos[..|infos| - 1], nodes);
      var pk := infos[|infos| - 1].node.name;
      if pk in m1 then PropagateAll(m1, pk, infos[|infos| - 1].subclasses, nodes) else m1
  }

  /** What `SubClassMappingProvider.get` returns for the previous mapping `prev` (copied, class by class). */
  function Subclassed(prev: Mapping, nodes: seq<ClassNode>): (r: Mapping)
    ensures prev.Keys <= r.Keys
  {
    SubclassPass(prev, SubclassInfo(nodes), nodes)
  }

  /** `SubClassMappingProvider.get`. */
  method SubclassGet(prev: Option<Mapping>, inputNodes: seq<ClassNode>) returns (r: Result<Mapping>)
    requires prev.Some? ==> Keyed(prev.value)
    ensures prev.None? ==> r == Err("SubClassMappingProvider requires a previous mapping")
    ensures prev.Some? ==> r == Ok(Subclassed(prev.value, inputNodes)) && Keyed(r.value)
  {
    if prev.None? {
      return Err("SubClassMappingProvider requires a previous mapping");
    }
    var infos := GetSubclassInfo(inputNodes);
    var result := HandDownAll(prev.value, infos, inputNodes);
    r := Ok(result);
  }

  /** `infos.forEach { info -> … }`. */
  method HandDownAll(m: Mapping, infos: seq<Info>, nodes: seq<ClassNode>) returns (r: Mapping)
    requires Keyed(m)
    ensures r == SubclassPass(m, infos, nodes) && Keyed(r)
  {
    r := m;
    for i := 0 to |infos|
      invariant r == SubclassPass(m, infos[..i], nodes) && Keyed(r)
    {
      assert infos[..i + 1][..i] == infos[..i];
      var pk := infos[i].node.name;
      if pk in r {
        r := HandDown(r, pk, infos[i].subclasses, nodes);
      }
    }
    assert infos[..|infos|] == infos;
  }

  /** `info.subclasses.forEach { subclass -> … }`. */
  method HandDown(m: Mapping, pk: string, subs: seq<nat>, nodes: seq<ClassNode>) returns (r: Mapping)
    requires pk in m && Keyed(m)
    ensures r == PropagateAll(m, pk, subs, nodes) && Keyed(r)
  {
    r := m;
    for j := 0 to |subs|
      invariant r == PropagateAll(m, pk, subs[..j], nodes) && Keyed(r)
    {
      assert subs[..j + 1][..j] == subs[..j];
      if subs[j] < |nodes| {
        r := HandFrom(r, r[pk], D.Inherit(nodes[subs[j]]));
      }
    }
    assert subs[..|subs|] == subs;
  }

  /** One hand-over from a class of a keyed mapping, walking lists that stand for its tables. */
  method HandFrom(m: Mapping, source: ClassMapping, rule: D.Rule) returns (r: Mapping)
    requires Keyed(m) && ClassKeyed(source)
    ensures r == Hand(m, source, rule) && Keyed(r)
  {
    var fl := ListFields(source.fields);
    var ml := ListMethods(source.methods);
    r := HandMembers(m, source, fl, ml, rule);
    HandKeeps(m, source, rule);
  }

  // ---- the mixin provider --------------------------------------------------------

  /**
   * The `Type` values of one mixin's `@Mixin` value and targets arrays, in
   * order. A target counts when the previous mapping has it, and its members
   * are read from the previous mapping, which the copy leaves untouched.
   */
  function AdoptAll(m: Mapping, prev: Mapping, targets: seq<string>, mixin: ClassNode): (r: Mapping)
    ensures m.Keys <= r.Keys
    decreases |targets|
  {
    if |targets| == 0 then m
    else
      var m1 := AdoptAll(m, prev, targets[..|targets| - 1], mixin);
      var t := targets[|targets| - 1];
      if t in prev then Hand(m1, prev[t], D.Shadow(mixin)) else m1
  }

  /** The mixin classes in order. */
  function MixinPass(m: Mapping, prev: Mapping, classes: seq<ClassNode>): (r: Mapping)
    ensures m.Keys <= r.Keys
    decreases |classes|
  {
    if |classes| == 0 then m
    else
      var m1 := MixinPass(m, prev, classes[..|classes| - 1]);
      var c := classes[|classes| - 1];
      AdoptAll(m1, prev, P.ProviderTargets(c), c)
  }

  /** What `MixinMappingProvider.get` returns for the previous mapping `prev`. */
  function Mixed(prev: Mapping, classes: seq<ClassNode>): (r: Mapping)
    ensures prev.Keys <= r.Keys
  {
    MixinPass(prev, prev, classes)
  }

  /** `MixinMappingProvider.get`, the mixin classes being `mixins.values` in the order `order`. */
  method MixinGet(prev: Option<Mapping>, mixins: map<string, ClassNode>, order: seq<string>) returns (r: Result<Mapping>)
    requires P.Enumerates(order, mixins)
    requires prev.Some? ==> Keyed(prev.value)
    ensures prev.None? ==> r == Err("MixinMappingProvider requires a previous mapping")
    ensures prev.Some? ==> r == Ok(Mixed(prev.value, P.ValuesIn(mixins, order))) && Keyed(r.value)
  {
    if prev.None? {
      return Err("MixinMappingProvider requires a previous mapping");
    }
    var result := VisitMixins(prev.value, prev.value, P.ValuesIn(mixins, order));
    r := Ok(result);
  }

  /** `mixinClassesDeferred.await().values.forEach { … }`. */
  method VisitMixins(m: Mapping, prevMapping: Mapping, classes: seq<ClassNode>) returns (r: Mapping)
    requires Keyed(m) && Keyed(prevMapping)
    ensures r == MixinPass(m, prevMapping, classes) && Keyed(r)
  {
    r := m;
    for i := 0 to |classes|
      invariant r == MixinPass(m, prevMapping, classes[..i]) && Keyed(r)
    {
      assert classes[..i + 1][..i] == classes[..i];
      r := VisitMixin(r, prevMapping, classes[i]);
    }
    assert classes[..|classes|] == classes;
  }

  /** The `visit` of every `Type` in one mixin's `@Mixin` arrays. */
  method VisitMixin(m: Mapping, prevMapping: Mapping, mixin: ClassNode) returns (r: Mapping)
    requires Keyed(m) && Keyed(prevMapping)
    ensures r == AdoptAll(m, prevMapping, P.ProviderTargets(mixin), mixin) && Keyed(r)
  {
    var targets := P.ProviderTargets(mixin);
    r := m;
    for j := 0 to |targets|
      invariant r == AdoptAll(m, prevMapping, targets[..j], mixin) && Keyed(r)
    {
      assert targets[..j + 1][..j] == targets[..j];
      if targets[j] in prevMapping {
        r := HandFrom(r, prevMapping[targets[j]], D.Shadow(mixin));
      }
    }
    assert targets[..|targets|] == targets;
  }

  // ---- both derived providers only add --------------------------------------------

  lemma {:induction false} PropagateAllCovers(m: Mapping, pk: string, subs: seq<nat>, nodes: seq<ClassNode>)
    requires pk in m
    ensures Covers(m, PropagateAll(m, pk, subs, nodes))
    decreases |subs|
  {
    if |subs| == 0 {
      CoversRefl(m);
    } else {
      var m1 := PropagateAll(m, pk, subs[..|subs| - 1], nodes);
      PropagateAllCovers(m, pk, subs[..|subs| - 1], nodes);
      var s := subs[|subs| - 1];
      if s < |nodes| {
        HandCovers(m1, m1[pk], D.Inherit(nodes[s]));
        CoversTrans(m, m1, PropagateAll(m, pk, subs, nodes));
      }
    }
  }

  lemma {:induction false} SubclassPassCovers(m: Mapping, infos: seq<Info>, nodes: seq<ClassNode>)
    ensures Covers(m, SubclassPass(m, infos, nodes))
    decreases |infos|
  {
    if |infos| == 0 {
      CoversRefl(m);
    } else {
      var m1 := SubclassPass(m, infos[..|infos| - 1], nodes);
      SubclassPassCovers(m, infos[..|infos| - 1], nodes);
      var pk := infos[|infos| - 1].node.name;
      if pk in m1 {
        PropagateAllCovers(m1, pk, infos[|infos| - 1].subclasses, nodes);
        CoversTrans(m, m1, SubclassPass(m, infos, nodes));
      }
    }
  }

  lemma {:induction false} AdoptAllCovers(m: Mapping, prev: Mapping, targets: seq<string>, mixin: ClassNode)
    ensures Covers(m, AdoptAll(m, prev, targets, mixin))
    decreases |targets|
  {
    if |targets| == 0 {
      CoversRefl(m);
    } else {
      var m1 := AdoptAll(m, prev, targets[..|targets| - 1], mixin);
      AdoptAllCovers(m, prev, targets[..|targets| - 1], mixin);
      var t := targets[|targets| - 1];
      if t in prev {
        HandCovers(m1, prev[t], D.Shadow(mixin));
        CoversTrans(m, m1, AdoptAll(m, prev, targets, mixin));
      }
    }
  }

  lemma {:induction false} MixinPassCovers(m: Mapping, prev: Mapping, classes: seq<ClassNode>)
    ensures Covers(m, MixinPass(m, prev, classes))
    decreases |classes|
  {
    if |classes| == 0 {
      CoversRefl(m);
    } else {
      var m1 := MixinPass(m, prev, classes[..|classes| - 1]);
      MixinPassCovers(m, prev, classes[..|classes| - 1]);
      var c := classes[|classes| - 1];
      AdoptAllCovers(m1, prev, P.ProviderTargets(c), c);
      CoversTrans(m, m1, MixinPass(m, prev, classes));
    }
  }

  /**
   * Both derived providers keep every class of the previous mapping, with its
   * names and every member key: they only add members or replace them.
   */
  lemma DerivedCovers(prev: Mapping, nodes: seq<ClassNode>, classes: seq<ClassNode>)
    ensures Covers(prev, Subclassed(prev, nodes)) && Covers(prev, Mixed(prev, classes))
  {
    SubclassPassCovers(prev, SubclassInfo(nodes), nodes);
    MixinPassCovers(prev, prev, classes);
  }

  // ---- the TSRG provider ---------------------------------------------------------

  /** The state of the TSRG line walk: the mapping so far, `lastClassMapping` (by name), `skippedHeader`. */
  datatype TsrgState = TsrgState(m: Mapping, last: Option<string>, skipped: bool)

  type TsrgParsing = st: TsrgState | st.last.Some? ==> st.last.value in st.m
    witness TsrgState(map[], None, false)

  const TsrgStart: TsrgParsing := TsrgState(map[], None, false)

  /**
   * One line of the `TsrgMappingProvider` parser. A line without a leading
   * tab names a class: a fresh `MutableClassMapping` of the text before the
   * first space replaces whatever the mapping held under that name. A
   * tab-led line split at spaces is a method with three columns, else a
   * field of its first two.
   */
  function TsrgStep(st: TsrgParsing, line: string): (r: Result<TsrgParsing>)
    ensures r.Ok? ==> r.value.skipped
  {
    if !st.skipped then Ok(st.(skipped := true))
    else if !StartsWith(line, "\t") then
      var name := SubstringBefore(line, ' ');
      Ok(TsrgState(st.m[name := Empty(name)], Some(name), true))
    else TsrgMember(st, Split(line[1..], ' '))
  }

  /** A member row, split at spaces after its tab. */
  function TsrgMember(st: TsrgParsing, split: seq<string>): Result<TsrgParsing> {
    if st.last.None? then Err("NullPointerException")
    else if |split| == 3 then Ok(st.(m := AddMethodTo(st.m, st.last.value, Method(split[0], split[1], split[2]))))
    else if |split| < 2 then Err("IndexOutOfBoundsException")
    else Ok(st.(m := AddFieldTo(st.m, st.last.value, Field(split[0], split[1]))))
  }

  lemma TsrgFieldMember(st: TsrgParsing, split: seq<string>)
    requires st.last.Some? && |split| >= 2 && |split| != 3
    ensures TsrgMember(st, split) == Ok(st.(m := AddFieldTo(st.m, st.last.value, Field(split[0], split[1]))))
  {
  }

  lemma TsrgTabLine(st: TsrgParsing, rest: string)
    requires st.skipped
    ensures TsrgStep(st, "\t" + rest) == TsrgMember(st, Split(rest, ' '))
  {
    var line := "\t" + rest;
    assert line[..1] == "\t" && line[1..] == rest;
  }

  function Tsrg(lines: seq<string>): Result<Mapping> {
    match Fold<TsrgParsing, string>(TsrgStep, TsrgStart, lines)
    case Err(e) => Err(e)
    case Ok(st) => Ok(st.m)
  }

  /** The lazy parse: `file.forEachLine { … }`. */
  method ParseTsrg(lines: seq<string>) returns (r: Result<Mapping>)
    ensures r == Tsrg(lines)
  {
    var st := Walk<TsrgParsing, string>(TsrgStep, TsrgStart, lines);
    r := if st.Ok? then Ok(st.value.m) else Err(st.msg);
  }

  /**
   * `TsrgMappingProvider`: the file must have the extension `tsrg`; its parse
   * is computed on the first `get` and kept once it succeeds (a lazy value
   * whose initialiser throws is computed again on the next access).
   */
  class TsrgMappingProvider {
    const path: string
    const lines: seq<string>
    var cached: Option<Mapping>

    /** A kept parse is the parse of the file. */
    ghost predicate Valid()
      reads this
    {
      cached.Some? ==> Tsrg(lines) == Ok(cached.value)
    }

    constructor(path: string, lines: seq<string>)
      requires Extension(path) == "tsrg"
      ensures Valid() && this.path == path && this.lines == lines && cached.None?
    {
      this.path := path;
      this.lines := lines;
      cached := None;
    }

    /** `get` ignores the previous mapping and returns the parse of the file, whether kept or computed now. */
    method Get(prev: Option<Mapping>) returns (r: Result<Mapping>)
      requires Valid()
      modifies this
      ensures Valid() && r == Tsrg(lines)
      ensures r.Ok? ==> cached == Some(r.value)
      ensures r.Err? ==> cached == old(cached)
    {
      if cached.Some? {
        return Ok(cached.value);
      }
      r := ParseTsrg(lines);
      if r.Ok? {
        cached := Some(r.value);
      }
    }
  }

  /** `TsrgMappingProvider(file)`: `require(file.extension == "tsrg") { "Invalid file $file" }`. */
  method NewTsrgMappingProvider(path: string, lines: seq<string>) returns (r: Result<TsrgMappingProvider>)
    ensures r.Err? <==> Extension(path) != "tsrg"
    ensures r.Err? ==> r.msg == "Invalid file " + path
    ensures r.Ok? ==> fresh(r.value) && r.value.Valid() && r.value.path == path && r.value.lines == lines
  {
    if Extension(path) != "tsrg" {
      return Err("Invalid file " + path);
    }
    var p := new TsrgMappingProvider(path, lines);
    r := Ok(p);
  }

  /** The header line is skipped whatever it holds. */
  lemma TsrgSkipsHeader(h1: string, h2: string, rest: seq<string>)
    ensures Tsrg([h1] + rest) == Tsrg([h2] + rest)
  {
    FoldConcat<TsrgParsing, string>(TsrgStep, TsrgStart, [h1], rest);
    FoldConcat<TsrgParsing, string>(TsrgStep, TsrgStart, [h2], rest);
    assert [h1][..0] == [] && [h2][..0] == [];
  }

  /**
   * A class row `a b`: a fresh class `a`, mapped to itself, replaces any class
   * of that name with its members; the target `b` is discarded.
   */
  lemma TsrgClassRow(st: TsrgParsing, a: string, b: string)
    requires st.skipped && ' ' !in a && (|a| > 0 ==> a[0] != '\t')
    ensures var r := TsrgStep(st, a + " " + b);
      && r.Ok? && r.value.last == Some(a)
      && r.value.m == st.m[a := Empty(a)]
      && r.value.m[a].nameTo == a && r.value.m[a].fields == map[] && r.value.m[a].methods == map[]
  {
    var line := a + " " + b;
    IndexOfPrefix(a, ' ', b);
    assert line[..|a|] == a;
    assert |line| > 0 && line[0] != '\t';
  }

  /** A tab-led row of three columns is a method of the last class, replacing the one of that name and descriptor. */
  lemma TsrgMethodRow(st: TsrgParsing, x: string, y: string, z: string)
    requires st.skipped && st.last.Some? && ' ' !in x && ' ' !in y && ' ' !in z
    ensures TsrgStep(st, "\t" + x + " " + y + " " + z) == Ok(st.(m := AddMethodTo(st.m, st.last.value, Method(x, y, z))))
  {
    assert "\t" + x + " " + y + " " + z == "\t" + (x + " " + y + " " + z);
    TsrgTabLine(st, x + " " + y + " " + z);
    SplitThree(x, y, z);
  }

  /** A tab-led row of two columns is a field of the last class. */
  lemma TsrgFieldRow(st: TsrgParsing, x: string, y: string)
    requires st.skipped && st.last.Some? && ' ' !in x && ' ' !in y
    ensures TsrgStep(st, "\t" + x + " " + y) == Ok(st.(m := AddFieldTo(st.m, st.last.value, Field(x, y))))
  {
    assert "\t" + x + " " + y == "\t" + (x + " " + y);
    TsrgTabLine(st, x + " " + y);
    SplitTwo(x, y);
  }

  /** A tab-led row of four columns is a field too: only exactly three columns make a method. */
  lemma TsrgFourColumnsField(st: TsrgParsing, w: string, x: string, y: string, z: string)
    requires st.skipped && st.last.Some? && ' ' !in w && ' ' !in x && ' ' !in y && ' ' !in z
    ensures TsrgStep(st, "\t" + w + " " + x + " " + y + " " + z) == Ok(st.(m := AddFieldTo(st.m, st.last.value, Field(w, x))))
  {
    assert "\t" + w + " " + x + " " + y + " " + z == "\t" + (w + " " + x + " " + y + " " + z);
    TsrgTabLine(st, w + " " + x + " " + y + " " + z);
    SplitFour(w, x, y, z);
    TsrgFieldMember(st, [w, x, y, z]);
  }

  /** A member row before any class row fails on the null `lastClassMapping`. */
  lemma TsrgMemberFirstFails(header: string, line: string, rest: seq<string>)
    requires |line| > 0 && line[0] == '\t'
    ensures Tsrg([header, line] + rest) == Err("NullPointerException")
  {
    var lines := [header, line] + rest;
    var st1 := TsrgStart.(skipped := true);
    assert lines[..0] == [];
    FoldNext<TsrgParsing, string>(TsrgStep, TsrgStart, lines, 0, TsrgStart);
    FoldNext<TsrgParsing, string>(TsrgStep, TsrgStart, lines, 1, st1);
    assert line[..1] == "\t";
    FoldStops<TsrgParsing, string>(TsrgStep, TsrgStart, lines, 1, st1);
  }

  /** Every line keeps the mapping keyed. */
  lemma TsrgStepKeyed(st: TsrgParsing, line: string)
    requires Keyed(st.m)
    ensures TsrgStep(st, line).Ok? ==> Keyed(TsrgStep(st, line).value.m)
  {
    if st.skipped && StartsWith(line, "\t") && st.last.Some? {
      var split := Split(line[1..], ' ');
      if |split| == 3 {
        AddMethodToKeyed(st.m, st.last.value, Method(split[0], split[1], split[2]));
      } else if |split| >= 2 {
        AddFieldToKeyed(st.m, st.last.value, Field(split[0], split[1]));
      }
    }
  }

  lemma AddMethodToKeyed(m: Mapping, name: string, e: Method)
    requires Keyed(m) && name in m
    ensures Keyed(AddMethodTo(m, name, e))
  {
    assert ClassKeyed(m[name]);
    PutMethodKeyed(m[name].methods, e);
  }

  lemma AddFieldToKeyed(m: Mapping, name: string, f: Field)
    requires Keyed(m) && name in m
    ensures Keyed(AddFieldTo(m, name, f))
  {
    assert ClassKeyed(m[name]);
  }

  lemma {:induction false} TsrgKeyed(lines: seq<string>)
    ensures Tsrg(lines).Ok? ==> Keyed(Tsrg(lines).value)
    decreases |lines|
  {
    if |lines| > 0 {
      var init := lines[..|lines| - 1];
      TsrgKeyed(init);
      match Fold<TsrgParsing, string>(TsrgStep, TsrgStart, init)
      case Err(_) =>
      case Ok(st) =>
        TsrgStepKeyed(st, lines[|lines| - 1]);
    }
  }

  // ---- the sequence --------------------------------------------------------------

  /** A provider of a sequence. */
  datatype Stage =
    | SubClassProvider(inputNodes: seq<ClassNode>)
    | MixinProvider(mixins: map<string, ClassNode>, order: seq<string>)
      /** A `TsrgMappingProvider` over the lines of its file. */
    | TsrgFile(lines: seq<string>)
      /** A provider whose mapping is given: the previous mapping is ignored. */
    | Given(table: Mapping)

  /** What a stage needs of its inputs: an order that lists a hash map's keys, a given mapping that is keyed. */
  ghost predicate Ready(s: Stage) {
    match s
    case MixinProvider(mixins, order) => P.Enumerates(order, mixins)
    case Given(table) => Keyed(table)
    case _ => true
  }

  /** What `stage.get(prev, …)` returns. */
  function StageResult(s: Stage, prev: Option<Mapping>): Result<Mapping>
    requires Ready(s)
  {
    match s
    case SubClassProvider(nodes) =>
      if prev.None? then Err("SubClassMappingProvider requires a previous mapping") else Ok(Subclassed(prev.value, nodes))
    case MixinProvider(mixins, order) =>
      if prev.None? then Err("MixinMappingProvider requires a previous mapping")
      else Ok(Mixed(prev.value, P.ValuesIn(mixins, order)))
    case TsrgFile(lines) => Tsrg(lines)
    case Given(table) => Ok(table)
  }

  method RunStage(s: Stage, prev: Option<Mapping>) returns (r: Result<Mapping>)
    requires Ready(s) && (prev.Some? ==> Keyed(prev.value))
    ensures r == StageResult(s, prev)
    ensures r.Ok? ==> Keyed(r.value)
  {
    match s
    case SubClassProvider(nodes) =>
      r := SubclassGet(prev, nodes);
    case MixinProvider(mixins, order) =>
      r := MixinGet(prev, mixins, order);
    case TsrgFile(lines) =>
      r := ParseTsrg(lines);
      TsrgKeyed(lines);
    case Given(table) =>
      r := Ok(table);
  }

  /**
   * The stages run in order, each handed the result of the one before it (the
   * first the sequence's own previous mapping); the first exception ends the run.
   */
  function Chain(stages: seq<Stage>, prev: Option<Mapping>): (r: Result<seq<Mapping>>)
    requires forall i :: 0 <= i < |stages| ==> Ready(stages[i])
    ensures r.Ok? ==> |r.value| == |stages|
    decreases |stages|
  {
    if |stages| == 0 then Ok([])
    else
      match Chain(stages[..|stages| - 1], prev)
      case Err(e) => Err(e)
      case Ok(rs) =>
        match StageResult(stages[|stages| - 1], Handed(rs, prev))
        case Err(e) => Err(e)
        case Ok(x) => Ok(rs + [x])
  }

  /** What the next stage is handed: the last result, or the sequence's own previous mapping. */
  function Handed(rs: seq<Mapping>, prev: Option<Mapping>): Option<Mapping> {
    if |rs| == 0 then prev else Some(rs[|rs| - 1])
  }

  lemma ChainNext(stages: seq<Stage>, prev: Option<Mapping>, i: nat, rs: seq<Mapping>)
    requires i < |stages| && forall k :: 0 <= k < |stages| ==> Ready(stages[k])
    requires Chain(stages[..i], prev) == Ok(rs)
    ensures Chain(stages[..i + 1], prev) ==
      match StageResult(stages[i], Handed(rs, prev)) case Err(e) => Err(e) case Ok(x) => Ok(rs + [x])
  {
    assert stages[..i + 1][..i] == stages[..i];
  }

  /** Once a prefix of the stages fails, the whole run fails with that exception. */
  lemma {:induction false} ChainStops(stages: seq<Stage>, prev: Option<Mapping>, i: nat)
    requires i <= |stages| && forall k :: 0 <= k < |stages| ==> Ready(stages[k])
    requires Chain(stages[..i], prev).Err?
    ensures Chain(stages, prev) == Chain(stages[..i], prev)
    decreases |stages| - i
  {
    if i < |stages| {
      var init := stages[..|stages| - 1];
      assert init[..i] == stages[..i];
      ChainStops(init, prev, i);
    } else {
      assert stages[..i] == stages;
    }
  }

  /** `mergeMapping(result, deferred.await())` over the results in order, from an empty mapping, as intended. */
  function MergeAll(rs: seq<Mapping>): Mapping
    decreases |rs|
  {
    if |rs| == 0 then map[] else MergeMappingKeepingNames(MergeAll(rs[..|rs| - 1]), rs[|rs| - 1])
  }

  /** The same merge with `mergeMapping` as written. */
  function MergeAllAsWritten(rs: seq<Mapping>): Mapping
    decreases |rs|
  {
    if |rs| == 0 then map[] else MergeMapping(MergeAllAsWritten(rs[..|rs| - 1]), rs[|rs| - 1])
  }

  /**
   * `SequenceMappingProvider`: at least one provider; the merged mapping is
   * kept after the first successful run and returned from then on, whatever
   * previous mapping later calls pass.
   */
  class SequenceMappingProvider {
    const stages: seq<Stage>
    var cached: Option<Mapping>

    constructor(stages: seq<Stage>)
      requires |stages| > 0
      ensures this.stages == stages && cached.None?
    {
      this.stages := stages;
      cached := None;
    }

    method Get(prev: Option<Mapping>) returns (r: Result<Mapping>)
      requires forall i :: 0 <= i < |stages| ==> Ready(stages[i])
      requires prev.Some? ==> Keyed(prev.value)
      modifies this
      ensures old(cached).Some? ==> r == Ok(old(cached).value) && cached == old(cached)
      ensures old(cached).None? ==> r == (match Chain(stages, prev) case Err(e) => Err(e) case Ok(rs) => Ok(MergeAll(rs)))
      ensures old(cached).None? && r.Ok? ==> cached == Some(r.value)
      ensures r.Err? ==> cached == old(cached)
    {
      if cached.Some? {
        return Ok(cached.value);
      }
      var rs := RunChain(stages, prev);
      if rs.Err? {
        return Err(rs.msg);
      }
      var result := Merge(rs.value);
      cached := Some(result);
      r := Ok(result);
    }
  }

  /** The `async` stage chain, awaited in order. */
  method RunChain(stages: seq<Stage>, prev: Option<Mapping>) returns (r: Result<seq<Mapping>>)
    requires forall i :: 0 <= i < |stages| ==> Ready(stages[i])
    requires prev.Some? ==> Keyed(prev.value)
    ensures r == Chain(stages, prev)
  {
    var rs: seq<Mapping> := [];
    for i := 0 to |stages|
      invariant ChainAt(stages, prev, i, rs)
    {
      var next := ChainStep(stages, prev, i, rs);
      if next.Err? {
        ChainStops(stages, prev, i + 1);
        return Err(next.msg);
      }
      rs := next.value;
    }
    assert stages[..|stages|] == stages;
    r := Ok(rs);
  }

  /** The first `i` stages ran and gave `rs`, the last of them (or the sequence's own previous mapping) keyed. */
  ghost predicate ChainAt(stages: seq<Stage>, prev: Option<Mapping>, i: nat, rs: seq<Mapping>)
    requires i <= |stages| && forall k :: 0 <= k < |stages| ==> Ready(stages[k])
  {
    && Chain(stages[..i], prev) == Ok(rs)
    && (Handed(rs, prev).Some? ==> Keyed(Handed(rs, prev).value))
  }

  /** One stage of the chain, handed the mapping before it. */
  method ChainStep(stages: seq<Stage>, prev: Option<Mapping>, i: nat, rs: seq<Mapping>)
    returns (r: Result<seq<Mapping>>)
    requires i < |stages| && forall k :: 0 <= k < |stages| ==> Ready(stages[k])
    requires ChainAt(stages, prev, i, rs)
    ensures r.Err? ==> r == Chain(stages[..i + 1], prev)
    ensures r.Ok? ==> ChainAt(stages, prev, i + 1, r.value)
  {
    ChainNext(stages, prev, i, rs);
    var next := RunStage(stages[i], Handed(rs, prev));
    if next.Err? {
      return Err(next.msg);
    }
    r := Ok(rs + [next.value]);
  }

  /** The merge loop: `mergeMapping(result, …)` for each stage's mapping in order. */
  method Merge(rs: seq<Mapping>) returns (result: Mapping)
    ensures result == MergeAll(rs)
  {
    result := map[];
    for i := 0 to |rs|
      invariant result == MergeAll(rs[..i])
    {
      assert rs[..i + 1][..i] == rs[..i];
      result := MergeInto(result, rs[i]);
    }
    assert rs[..|rs|] == rs;
  }

  /** `SequenceMappingProvider(*providers)`: `require(providers.isNotEmpty()) { "No providers provided" }`. */
  method NewSequenceMappingProvider(stages: seq<Stage>) returns (r: Result<SequenceMappingProvider>)
    ensures r.Err? <==> |stages| == 0
    ensures r.Err? ==> r.msg == "No providers provided"
    ensures r.Ok? ==> fresh(r.value) && r.value.stages == stages && r.value.cached.None?
  {
    if |stages| == 0 {
      return Err("No providers provided");
    }
    var s := new SequenceMappingProvider(stages);
    r := Ok(s);
  }

  // ---- what the merge keeps ------------------------------------------------------

  /** The merge holds exactly the classes some result holds. */
  lemma MergeKeys(rs: seq<Mapping>, k: string)
    ensures k in MergeAll(rs) <==> exists i | 0 <= i < |rs| :: k in rs[i]
  {
    MergeAllKeys(rs);
    UnionKeysHolds(rs, k);
  }

  /** The classes of all the results. */
  function UnionKeys(rs: seq<Mapping>): set<string>
    decreases |rs|
  {
    if |rs| == 0 then {} else UnionKeys(rs[..|rs| - 1]) + rs[|rs| - 1].Keys
  }

  lemma {:induction false} MergeAllKeys(rs: seq<Mapping>)
    ensures MergeAll(rs).Keys == UnionKeys(rs)
    decreases |rs|
  {
    if |rs| > 0 {
      MergeAllKeys(rs[..|rs| - 1]);
    }
  }

  lemma {:induction false} UnionKeysHolds(rs: seq<Mapping>, k: string)
    ensures k in UnionKeys(rs) <==> exists i | 0 <= i < |rs| :: k in rs[i]
    decreases |rs|
  {
    if |rs| > 0 {
      var init := rs[..|rs| - 1];
      UnionKeysHolds(init, k);
      if k in UnionKeys(init) {
        var i :| 0 <= i < |init| && k in init[i];
        assert rs[i] == init[i];
      }
      if exists i | 0 <= i < |rs| :: k in rs[i] {
        var i :| 0 <= i < |rs| && k in rs[i];
        if i < |init| {
          assert init[i] == rs[i];
        }
      }
    }
  }

  /** A merged class finds a method in the last result whose class has it. */
  lemma {:induction false} MergeFindsLast(rs: seq<Mapping>, i: nat, k: string, x: string, d: string)
    requires i < |rs| && k in rs[i] && GetMethod(rs[i][k], x, d).Some?
    requires forall j :: i < j < |rs| ==> k !in rs[j] || GetMethod(rs[j][k], x, d).None?
    ensures k in MergeAll(rs) && GetMethod(MergeAll(rs)[k], x, d) == GetMethod(rs[i][k], x, d)
    decreases |rs|
  {
    var init := rs[..|rs| - 1];
    MergeMappingLookup(MergeAll(init), rs[|rs| - 1], k, x, d);
    if i < |rs| - 1 {
      MergeFindsLast(init, i, k, x, d);
    }
  }

  /** As intended, a merged class keeps the names of the first result that holds it. */
  lemma {:induction false} MergeNamesFirst(rs: seq<Mapping>, i: nat, k: string)
    requires i < |rs| && k in rs[i]
    requires forall j :: 0 <= j < i ==> k !in rs[j]
    ensures k in MergeAll(rs) && MergeAll(rs)[k].nameTo == rs[i][k].nameTo && MergeAll(rs)[k].nameFrom == rs[i][k].nameFrom
    decreases |rs|
  {
    var init := rs[..|rs| - 1];
    if i < |rs| - 1 {
      MergeNamesFirst(init, i, k);
      MergeKeepsNames(MergeAll(init), rs[|rs| - 1], k);
    } else {
      MergeKeys(init, k);
      assert forall j :: 0 <= j < |init| ==> init[j] == rs[j];
      assert k !in MergeAll(init);
      MergeKeepsNames(MergeAll(init), rs[|rs| - 1], k);
    }
  }

  /** When every result covers the one before, the merge is the last result. */
  lemma {:induction false} MergeOfCovering(rs: seq<Mapping>)
    requires |rs| > 0
    requires forall i :: 0 < i < |rs| ==> Covers(rs[i - 1], rs[i])
    ensures MergeAll(rs) == rs[|rs| - 1]
    decreases |rs|
  {
    var init := rs[..|rs| - 1];
    if |rs| == 1 {
      MergeIntoEmpty(rs[0]);
    } else {
      MergeOfCovering(init);
      MergeCovered(init[|init| - 1], rs[|rs| - 1]);
    }
  }

  /**
   * A sequence whose providers after the first all build on the previous
   * mapping (subclass or mixin) returns its last stage's mapping: those stages
   * keep every class they are handed with its names and members' keys.
   */
  lemma DerivedSequence(stages: seq<Stage>, prev: Option<Mapping>)
    requires |stages| > 0 && forall i :: 0 <= i < |stages| ==> Ready(stages[i])
    requires forall i :: 0 < i < |stages| ==> stages[i].SubClassProvider? || stages[i].MixinProvider?
    requires Chain(stages, prev).Ok?
    ensures MergeAll(Chain(stages, prev).value) == Chain(stages, prev).value[|stages| - 1]
  {
    var rs := Chain(stages, prev).value;
    forall i | 0 < i < |rs| ensures Covers(rs[i - 1], rs[i]) {
      ChainCovers(stages, prev, i);
    }
    MergeOfCovering(rs);
  }

  /** A subclass or mixin stage of a run covers the result before it. */
  lemma {:induction false} ChainCovers(stages: seq<Stage>, prev: Option<Mapping>, i: nat)
    requires forall k :: 0 <= k < |stages| ==> Ready(stages[k])
    requires 0 < i < |stages| && (stages[i].SubClassProvider? || stages[i].MixinProvider?)
    requires Chain(stages, prev).Ok?
    ensures Covers(Chain(stages, prev).value[i - 1], Chain(stages, prev).value[i])
    decreases |stages|
  {
    var init := stages[..|stages| - 1];
    if i < |stages| - 1 {
      assert init[i] == stages[i];
      ChainCovers(init, prev, i);
    } else {
      var rs := Chain(init, prev).value;
      var s := stages[i];
      if s.SubClassProvider? {
        DerivedCovers(rs[i - 1], s.inputNodes, []);
      } else {
        DerivedCovers(rs[i - 1], [], P.ValuesIn(s.mixins, s.order));
      }
    }
  }

  /**
   * As written, the merge loses every class rename: a sequence holding only
   * a subclass provider with no input classes, handed a mapping that maps
   * `k` to `t`, returns `k` mapped to itself, where the intended merge keeps
   * `t` (for instance `{a: a -> b}` comes back as `a -> a`).
   */
  lemma SequenceDropsRename(prev: Mapping, k: string)
    requires k in prev
    ensures Chain([SubClassProvider([])], Some(prev)) == Ok([prev])
    ensures MergeAllAsWritten([prev])[k].nameTo == k
    ensures MergeAll([prev]) == prev && MergeAll([prev])[k].nameTo == prev[k].nameTo
  {
    ChainSingle(SubClassProvider([]), Some(prev));
    SubclassedNoNodes(prev);
    MergeAllSingle(prev);
    MergeMappingDropsName(map[], prev, k);
    MergeIntoEmpty(prev);
  }

  lemma ChainSingle(s: Stage, prev: Option<Mapping>)
    requires Ready(s)
    ensures Chain([s], prev) == match StageResult(s, prev) case Err(e) => Err(e) case Ok(x) => Ok([x])
  {
    assert [s][..|[s]| - 1] == [];
    assert Handed([], prev) == prev;
    forall x: Mapping ensures [] + [x] == [x] {
    }
  }

  lemma SubclassedNoNodes(prev: Mapping)
    ensures Subclassed(prev, []) == prev
  {
    assert |SubclassInfo([])| == 0;
  }

  lemma MergeAllSingle(r: Mapping)
    ensures MergeAll([r]) == MergeMappingKeepingNames(map[], r)
    ensures MergeAllAsWritten([r]) == MergeMapping(map[], r)
  {
    assert [r][..0] == [];
  }
}
