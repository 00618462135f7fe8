/**
 * The stages of `dev.fastmc.jartools.mapping`: the subclass and mixin stages
 * on the entry objects of a class mapping, as the `MappingPipeline` and the
 * `MappingProvider` of that package run them. Each stage starts from
 * `addAll(prev)`, which shares the previous mapping's entry objects, and then
 * fills entries in place; each is proved against the value-level
 * `Subclassed` and `Mixed`.
 */
module Pipelines {
  import opened Wrappers
  import opened Jvm
  import opened Asm
  import opened Mappings
  import opened Derivations
  import opened MemberWalks
  import opened ClassHeaps
  import opened ClassEntries
  import opened SubclassInfos
  import opened MixinRule

  // ---- the class universe of the subclass stage -----------------------------------------

  predicate Everything(c: ClassNode) { true }

  /** `inputClasses`: the class entries, then the external classes, by name; a later class of a name replaces an earlier one. */
  function InputClasses(entries: seq<ClassNode>, externals: seq<ClassNode>): map<string, ClassNode> {
    AssociateLast(entries + externals, Everything, NameOf)
  }

  /** The names are those of all the classes, and the class of a name is the last one given: an external class wins. */
  lemma InputClassesRule(entries: seq<ClassNode>, externals: seq<ClassNode>)
    ensures var r := InputClasses(entries, externals);
      && (forall n :: n in r <==> exists i :: 0 <= i < |entries + externals| && (entries + externals)[i].name == n)
      && (forall n :: n in r ==> r[n].name == n)
    ensures forall i :: 0 <= i < |externals| && (forall j :: i < j < |externals| ==> externals[j].name != externals[i].name) ==>
      externals[i].name in InputClasses(entries, externals) && InputClasses(entries, externals)[externals[i].name] == externals[i]
  {
    var xs := entries + externals;
    AssociateLastKeys(xs, Everything, NameOf);
    forall i | 0 <= i < |externals| && (forall j :: i < j < |externals| ==> externals[j].name != externals[i].name)
      ensures externals[i].name in InputClasses(entries, externals) && InputClasses(entries, externals)[externals[i].name] == externals[i]
    {
      var p := |entries| + i;
      assert xs[p] == externals[i];
      forall j | p < j < |xs| ensures !(Everything(xs[j]) && NameOf(xs[j]) == NameOf(xs[p])) {
        assert xs[j] == externals[j - |entries|];
      }
      AssociateLastWins(xs, Everything, NameOf, p);
    }
  }

  /** The two `forEach { inputClasses[it.className] = it.classNode }` loops. */
  method GatherInputClasses(entries: seq<ClassNode>, externals: seq<ClassNode>) returns (r: map<string, ClassNode>)
    ensures r == InputClasses(entries, externals)
  {
    var xs := entries + externals;
    r := map[];
    for i := 0 to |xs|
      invariant r == AssociateLast(xs[..i], Everything, NameOf)
    {
      assert xs[..i + 1][..i] == xs[..i];
      r := r[xs[i].name := xs[i]];
    }
    assert xs[..|xs|] == xs;
  }

  /** `order` lists the keys of `input` once each: the iteration order of the hash map. */
  ghost predicate Enumerates(order: seq<string>, input: map<string, ClassNode>) {
    && (forall i :: 0 <= i < |order| ==> order[i] in input)
    && (forall n :: n in input ==> n in order)
    && (forall i, j :: 0 <= i < j < |order| ==> order[i] != order[j])
  }

  /** `inputClasses.values`, in the order `order`. */
  function ValuesIn(input: map<string, ClassNode>, order: seq<string>): (r: seq<ClassNode>)
    requires forall i :: 0 <= i < |order| ==> order[i] in input
    ensures |r| == |order| && forall i :: 0 <= i < |order| ==> r[i] == input[order[i]]
  {
    seq(|order|, i requires 0 <= i < |order| => input[order[i]])
  }

  // ---- the subclass stage ------------------------------------------------------------------

  /**
   * `info.subclasses.forEach { … }` for the mapped class under `pk`: each
   * subclass receives the class's methods, recomputed, and the fields it does
   * not redeclare.
   */
  method HandDown(h: Heap, pk: U64, subs: seq<nat>, nodes: seq<ClassNode>, ghost m: ClassMapping)
    returns (r: Result<Heap>, ghost m2: ClassMapping)
    requires pk in h && Distinct(h) && Shows(h, m)
    requires forall j :: 0 <= j < |subs| ==> subs[j] < |nodes|
    modifies h.Values
    ensures r.Ok? ==> Distinct(r.value) && Shares(h, r.value) && Shows(r.value, m2)
    ensures r.Ok? ==> forall k :: k in r.value && k !in h ==> fresh(r.value[k])
    ensures Fingerprinted(m) ==> r.Ok? && m2 == PropagateAll(m, pk, subs, nodes)
  {
    var cur := h;
    m2 := m;
    for j := 0 to |subs|
      invariant pk in cur && Distinct(cur) && Shares(h, cur) && Shows(cur, m2)
      invariant forall k :: k in cur && k !in h ==> fresh(cur[k])
      invariant Fingerprinted(m) ==> m2 == PropagateAll(m, pk, subs[..j], nodes) && Fingerprinted(m2)
    {
      var next;
      next, m2 := HandDownTo(cur, pk, subs, j, nodes, m, m2);
      if next.Err? {
        return Err(next.msg), m2;
      }
      cur := next.value;
    }
    PrefixWhole(subs);
    return Ok(cur), m2;
  }

  lemma PrefixWhole<T>(s: seq<T>)
    ensures s[..|s|] == s
  {
  }

  /** The visit of subclass `subs[j]` in `HandDown`. */
  method HandDownTo(cur: Heap, pk: U64, subs: seq<nat>, j: nat, nodes: seq<ClassNode>,
                    ghost m: ClassMapping, ghost g: ClassMapping)
    returns (r: Result<Heap>, ghost g2: ClassMapping)
    requires j < |subs| && subs[j] < |nodes| && pk in m
    requires pk in cur && Distinct(cur) && Shows(cur, g)
    requires Fingerprinted(m) ==> g == PropagateAll(m, pk, subs[..j], nodes) && Fingerprinted(g)
    modifies cur.Values
    ensures r.Ok? ==> Distinct(r.value) && Shares(cur, r.value) && Shows(r.value, g2)
    ensures r.Ok? ==> forall k :: k in r.value && k !in cur ==> fresh(r.value[k])
    ensures Fingerprinted(m) ==> r.Ok? && g2 == PropagateAll(m, pk, subs[..j + 1], nodes) && Fingerprinted(g2)
  {
    var sub := nodes[subs[j]];
    if Fingerprinted(m) {
      PropagateAllSnoc(m, pk, subs, j, nodes, g);
    }
    r, g2 := Transfer(cur, pk, sub.name, Inherit(sub), true, g);
    if r.Ok? {
      GrownShares(cur, r.value, ClassHash(sub.name));
    }
  }

  /**
   * The body of the subclass stage after `addAll(prev)`: the infos of
   * `SubclassInfo(nodes)` in order, each mapped class handing down to its
   * direct subclasses.
   */
  method SubclassWalk(h: Heap, nodes: seq<ClassNode>, ghost m: ClassMapping) returns (r: Result<Heap>, ghost m2: ClassMapping)
    requires Distinct(h) && Shows(h, m)
    modifies h.Values
    ensures r.Ok? ==> Distinct(r.value) && Shares(h, r.value) && Shows(r.value, m2)
    ensures r.Ok? ==> forall k :: k in r.value && k !in h ==> fresh(r.value[k])
    ensures Fingerprinted(m) ==> r.Ok? && m2 == Subclassed(m, nodes)
  {
    var infos := GetSubclassInfo(nodes);
    r, m2 := WalkInfos(h, nodes, infos, m);
  }

  /** `subclassInfo.forEach { info -> … }` over the infos in their sorted order. */
  method WalkInfos(h: Heap, nodes: seq<ClassNode>, infos: seq<Info>, ghost m: ClassMapping)
    returns (r: Result<Heap>, ghost m2: ClassMapping)
    requires infos == SubclassInfo(nodes)
    requires Distinct(h) && Shows(h, m)
    modifies h.Values
    ensures r.Ok? ==> Distinct(r.value) && Shares(h, r.value) && Shows(r.value, m2)
    ensures r.Ok? ==> forall k :: k in r.value && k !in h ==> fresh(r.value[k])
    ensures Fingerprinted(m) ==> r.Ok? && m2 == Subclassed(m, nodes)
  {
    var cur := h;
    m2 := m;
    for i := 0 to |infos|
      invariant Distinct(cur) && Shares(h, cur) && Shows(cur, m2)
      invariant forall k :: k in cur && k !in h ==> fresh(cur[k])
      invariant Fingerprinted(m) ==> m2 == SubclassPass(m, infos[..i], nodes) && Fingerprinted(m2)
    {
      forall o | o in cur.Values
        ensures o in h.Values || fresh(o)
      {
        var k :| k in cur && cur[k] == o;
      }
      var next;
      next, m2 := VisitInfo(cur, nodes, infos, i, m, m2);
      if next.Err? {
        return Err(next.msg), m2;
      }
      SharesTrans(h, cur, next.value);
      forall k | k in next.value && k !in h
        ensures fresh(next.value[k])
      {
        if k in cur {
        }
      }
      cur := next.value;
    }
    PrefixWhole(infos);
    return Ok(cur), m2;
  }

  /** The visit of `infos[i]`: `result.get(info.classNode.name)`, and its subclasses if the class is mapped. */
  method VisitInfo(cur: Heap, nodes: seq<ClassNode>, infos: seq<Info>, i: nat, ghost m: ClassMapping, ghost g: ClassMapping)
    returns (r: Result<Heap>, ghost g2: ClassMapping)
    requires infos == SubclassInfo(nodes) && i < |infos|
    requires Distinct(cur) && Shows(cur, g)
    requires Fingerprinted(m) ==> g == SubclassPass(m, infos[..i], nodes) && Fingerprinted(g)
    modifies cur.Values
    ensures r.Ok? ==> Distinct(r.value) && Shares(cur, r.value) && Shows(r.value, g2)
    ensures r.Ok? ==> forall k :: k in r.value && k !in cur ==> fresh(r.value[k])
    ensures Fingerprinted(m) ==> r.Ok? && g2 == SubclassPass(m, infos[..i + 1], nodes) && Fingerprinted(g2)
  {
    var pk := ClassHash(infos[i].node.name);
    if Fingerprinted(m) {
      SubclassPassSnoc(m, infos, i, nodes, g);
    }
    if pk in cur {
      SubclassesInRange(nodes, i);
      r, g2 := HandDown(cur, pk, infos[i].subclasses, nodes, g);
    } else {
      r, g2 := Ok(cur), g;
    }
  }

  /** The subclasses an info lists are positions of the class list. */
  lemma SubclassesInRange(nodes: seq<ClassNode>, i: nat)
    requires i < |SubclassInfo(nodes)|
    ensures forall j :: 0 <= j < |SubclassInfo(nodes)[i].subclasses| ==> SubclassInfo(nodes)[i].subclasses[j] < |nodes|
  {
    forall j | 0 <= j < |SubclassInfo(nodes)[i].subclasses| {
      InfoSubclassesInRange(nodes, i, j);
    }
  }

  /** One more info of the value-level pass. */
  lemma SubclassPassSnoc(m: ClassMapping, infos: seq<Info>, i: nat, nodes: seq<ClassNode>, g: ClassMapping)
    requires i < |infos| && Fingerprinted(m)
    requires g == SubclassPass(m, infos[..i], nodes) && Fingerprinted(g)
    ensures var pk := ClassHash(infos[i].node.name);
      SubclassPass(m, infos[..i + 1], nodes) == if pk in g then PropagateAll(g, pk, infos[i].subclasses, nodes) else g
    ensures Fingerprinted(SubclassPass(m, infos[..i + 1], nodes))
  {
    assert infos[..i + 1][..i] == infos[..i];
    SubclassPassInvariants(m, infos[..i + 1], nodes);
  }

  /** One more subclass of the value-level walk, from a mapping whose members sit under their fingerprints. */
  lemma PropagateAllSnoc(m: ClassMapping, pk: U64, subs: seq<nat>, j: nat, nodes: seq<ClassNode>, g: ClassMapping)
    requires pk in m && j < |subs| && subs[j] < |nodes| && Fingerprinted(m)
    requires g == PropagateAll(m, pk, subs[..j], nodes) && Fingerprinted(g)
    ensures pk in g && MethodsCopyable(g[pk].methods, true) && FieldsCopyable(g[pk].fields, true)
    ensures Receive(g, nodes[subs[j]].name, g[pk].methods, Kept(g[pk].fields, Inherit(nodes[subs[j]])))
      == PropagateAll(m, pk, subs[..j + 1], nodes)
    ensures Fingerprinted(PropagateAll(m, pk, subs[..j + 1], nodes))
  {
    assert subs[..j + 1][..j] == subs[..j];
    PropagateAllFingerprinted(m, pk, subs[..j + 1], nodes);
  }

  // ---- the mixin stage ----------------------------------------------------------------------

  /**
   * The targets the pipeline's mixin stage visits, of the first `@Mixin`
   * annotation: pair by pair, the types of a `value` array and the strings of
   * a `targets` array.
   */
  function PipelineTargets(c: ClassNode): seq<string> {
    match FindMixinAnnotation(c)
    case None => []
    case Some(a) => VisitedTargets(a.values)
  }

  function VisitedTargets(values: seq<Pair>): seq<string> {
    if |values| == 0 then []
    else
      var p := values[0];
      var head :=
        if p.name == "value" && p.value.Array? then Types(p.value.items)
        else if p.name == "targets" && p.value.Array? then Strings(p.value.items)
        else [];
      head + VisitedTargets(values[1..])
  }

  /**
   * The targets the provider's mixin stage visits: of every `@Mixin`
   * annotation, the type elements of its `value` and `targets` arrays; a
   * string element is skipped.
   */
  function ProviderTargets(c: ClassNode): seq<string> {
    MixinTypes(c.annotations)
  }

  function MixinTypes(anns: seq<Annotation>): seq<string> {
    if |anns| == 0 then []
    else (if anns[0].desc == MIXIN then ArrayTypes(anns[0].values) else []) + MixinTypes(anns[1..])
  }

  function ArrayTypes(values: seq<Pair>): seq<string> {
    if |values| == 0 then []
    else
      var p := values[0];
      (if (p.name == "value" || p.name == "targets") && p.value.Array? then Types(p.value.items) else [])
        + ArrayTypes(values[1..])
  }

  /** A class without `@Mixin` has no targets, for either stage. */
  lemma NoMixinNoTargets(c: ClassNode)
    requires !IsMixin(c)
    ensures PipelineTargets(c) == [] && ProviderTargets(c) == []
  {
    NotContainedNotFound(c.annotations);
    NoMixinTypes(c.annotations);
  }

  lemma {:induction false} NotContainedNotFound(anns: seq<Annotation>)
    requires !ContainsAnnotation(anns, MIXIN)
    ensures FindAnnotation(anns, MIXIN) == None
  {
  }

  lemma {:induction false} NoMixinTypes(anns: seq<Annotation>)
    requires forall i :: 0 <= i < |anns| ==> anns[i].desc != MIXIN
    ensures MixinTypes(anns) == []
  {
    if |anns| > 0 {
      NoMixinTypes(anns[1..]);
    }
  }

  /** The two stages part ways on a string target: the pipeline visits it, the provider does not. */
  lemma StringTargetOnlyInPipeline(c: ClassNode, t: string)
    requires c.annotations == [Annotation(MIXIN, [Pair("targets", Array([Str(t)]))])]
    ensures PipelineTargets(c) == [t] && ProviderTargets(c) == []
  {
    var ps := c.annotations[0].values;
    assert FindMixinAnnotation(c) == Some(c.annotations[0]);
    assert Strings([Str(t)]) == [t] by {
      assert Strings([Str(t)][1..]) == [];
    }
    assert VisitedTargets(ps) == [t] + VisitedTargets(ps[1..]);
    assert Types([Str(t)]) == [] by {
      assert Types([Str(t)][1..]) == [];
    }
    assert ArrayTypes(ps) == [] + ArrayTypes(ps[1..]);
    assert MixinTypes(c.annotations) == ArrayTypes(ps) + MixinTypes(c.annotations[1..]);
  }

  /**
   * The body of the mixin stage after `addAll(prev)`: the classes in order,
   * each handed the members of every target that `prev` (the table at the
   * start, `h`) maps. No copy is recomputed, so nothing throws.
   */
  method MixinWalk(h: Heap, classes: seq<ClassNode>, targetsOf: ClassNode -> seq<string>, ghost m: ClassMapping)
    returns (r: Heap, ghost m2: ClassMapping)
    requires Distinct(h) && Shows(h, m)
    modifies h.Values
    ensures Distinct(r) && Shares(h, r) && Shows(r, m2)
    ensures forall k :: k in r && k !in h ==> fresh(r[k])
    ensures Keyed(m) ==> m2 == Mixed(m, classes, targetsOf)
  {
    ShownKeys(h, m);
    var cur := h;
    m2 := m;
    for i := 0 to |classes|
      invariant Distinct(cur) && Shares(h, cur) && Shows(cur, m2)
      invariant forall k :: k in cur && k !in h ==> fresh(cur[k])
      invariant Keyed(m) ==> m2 == MixinPass(m, h.Keys, classes[..i], targetsOf) && Keyed(m2)
    {
      cur, m2 := VisitMixin(h, cur, classes, i, targetsOf, m, m2);
    }
    PrefixWhole(classes);
    r := cur;
  }

  /** A table of entries and the class mapping it shows have the same keys. */
  lemma ShownKeys(h: Heap, m: ClassMapping)
    requires Shows(h, m)
    ensures h.Keys == m.Keys
  {
  }

  /** The visit of `classes[i]`: its targets, in order. */
  method VisitMixin(h: Heap, cur: Heap, classes: seq<ClassNode>, i: nat, targetsOf: ClassNode -> seq<string>,
                    ghost m: ClassMapping, ghost g: ClassMapping)
    returns (r: Heap, ghost g2: ClassMapping)
    requires i < |classes| && Shares(h, cur) && Distinct(cur) && Shows(cur, g)
    requires Keyed(m) ==> g == MixinPass(m, h.Keys, classes[..i], targetsOf) && Keyed(g)
    modifies cur.Values
    ensures Distinct(r) && Shares(cur, r) && Shows(r, g2)
    ensures forall k :: k in r && k !in cur ==> fresh(r[k])
    ensures Keyed(m) ==> g2 == MixinPass(m, h.Keys, classes[..i + 1], targetsOf) && Keyed(g2)
  {
    var c := classes[i];
    var targets := targetsOf(c);
    if Keyed(m) {
      assert classes[..i + 1][..i] == classes[..i];
      MixinPassExtends(m, h.Keys, classes[..i + 1], targetsOf);
    }
    r, g2 := AdoptTargets(h, cur, targets, c, g);
  }

  /** `v.forEach { target -> prevMapping.get(target)?.let { … } }` for one mixin class. */
  method AdoptTargets(h: Heap, cur0: Heap, targets: seq<string>, mixin: ClassNode, ghost g0: ClassMapping)
    returns (cur: Heap, ghost g: ClassMapping)
    requires Shares(h, cur0) && Distinct(cur0) && Shows(cur0, g0)
    modifies cur0.Values
    ensures Distinct(cur) && Shares(cur0, cur) && Shows(cur, g)
    ensures forall k :: k in cur && k !in cur0 ==> fresh(cur[k])
    ensures Keyed(g0) ==> g == AdoptAll(g0, h.Keys, targets, mixin) && Keyed(g)
  {
    cur, g := cur0, g0;
    for j := 0 to |targets|
      invariant Distinct(cur) && Shares(cur0, cur) && Shows(cur, g)
      invariant forall k :: k in cur && k !in cur0 ==> fresh(cur[k])
      invariant Keyed(g0) ==> g == AdoptAll(g0, h.Keys, targets[..j], mixin) && Keyed(g)
    {
      cur, g := AdoptTarget(h, cur0, cur, targets, j, mixin, g0, g);
    }
    PrefixWhole(targets);
  }

  /** One target: when `prev` maps it, its members go to the mixin class. */
  method AdoptTarget(h: Heap, ghost cur0: Heap, cur: Heap, targets: seq<string>, j: nat, mixin: ClassNode,
                     ghost g0: ClassMapping, ghost g: ClassMapping)
    returns (r: Heap, ghost g2: ClassMapping)
    requires j < |targets| && Shares(h, cur0) && Shares(cur0, cur) && Distinct(cur) && Shows(cur, g)
    requires Keyed(g0) ==> g == AdoptAll(g0, h.Keys, targets[..j], mixin) && Keyed(g)
    modifies cur.Values
    ensures Distinct(r) && Shares(cur, r) && Shows(r, g2)
    ensures forall k :: k in r && k !in cur ==> fresh(r[k])
    ensures Keyed(g0) ==> g2 == AdoptAll(g0, h.Keys, targets[..j + 1], mixin) && Keyed(g2)
  {
    var tk := ClassHash(targets[j]);
    if Keyed(g0) {
      AdoptAllSnoc(g0, h.Keys, targets, j, mixin, g);
    }
    if tk in h {
      var next;
      next, g2 := Transfer(cur, tk, mixin.name, Shadow(mixin), false, g);
      GrownShares(cur, next.value, ClassHash(mixin.name));
      r := next.value;
    } else {
      r, g2 := cur, g;
    }
  }

  /** One more target of the value-level walk, from a mapping whose members sit under their own keys. */
  lemma AdoptAllSnoc(m: ClassMapping, prevKeys: set<U64>, targets: seq<string>, j: nat, mixin: ClassNode, g: ClassMapping)
    requires j < |targets| && Keyed(m) && g == AdoptAll(m, prevKeys, targets[..j], mixin) && Keyed(g)
    ensures var tk := ClassHash(targets[j]);
      && (tk in g ==> MethodsCopyable(g[tk].methods, false) && FieldsCopyable(g[tk].fields, false))
      && AdoptAll(m, prevKeys, targets[..j + 1], mixin) ==
         if tk in prevKeys && tk in g then Receive(g, mixin.name, g[tk].methods, Kept(g[tk].fields, Shadow(mixin))) else g
    ensures Keyed(AdoptAll(m, prevKeys, targets[..j + 1], mixin))
  {
    assert targets[..j + 1][..j] == targets[..j];
    AdoptAllExtends(m, prevKeys, targets[..j + 1], mixin);
  }

  // ---- the four stages ------------------------------------------------------------------------

  /**
   * `SubclassMappingPipeline.get`: fails without a previous mapping; else
   * `addAll(prev)` into a fresh mapping, then the subclass walk over the
   * values of `inputClasses` in `order`.
   */
  method SubclassPipelineGet(prev: Option<Heap>, entries: seq<ClassNode>, externals: seq<ClassNode>, order: seq<string>,
                             ghost pm: ClassMapping)
    returns (r: Result<Heap>, ghost m2: ClassMapping)
    requires prev.Some? ==> Distinct(prev.value) && Shows(prev.value, pm)
    requires Enumerates(order, InputClasses(entries, externals))
    modifies if prev.Some? then prev.value.Values else {}
    ensures prev.None? ==> r == Err("SubclassMappingPipeline requires a previous mapping")
    ensures prev.Some? && r.Ok? ==> Distinct(r.value) && Shares(prev.value, r.value) && Shows(r.value, m2)
    ensures prev.Some? && r.Ok? ==> forall k :: k in r.value && k !in prev.value ==> fresh(r.value[k])
    ensures prev.Some? && Fingerprinted(pm) ==> r.Ok? && m2 == Subclassed(pm, ValuesIn(InputClasses(entries, externals), order))
  {
    if prev.None? {
      return Err("SubclassMappingPipeline requires a previous mapping"), pm;
    }
    var input := GatherInputClasses(entries, externals);
    var result := KeepUnion(map[], prev.value);
    assert result == prev.value;
    r, m2 := SubclassWalk(result, ValuesIn(input, order), pm);
  }

  /** `SubClassMappingProvider.get`: the same walk over `inputClassNodes` in their given order. */
  method SubClassProviderGet(prev: Option<Heap>, inputNodes: seq<ClassNode>, ghost pm: ClassMapping)
    returns (r: Result<Heap>, ghost m2: ClassMapping)
    requires prev.Some? ==> Distinct(prev.value) && Shows(prev.value, pm)
    modifies if prev.Some? then prev.value.Values else {}
    ensures prev.None? ==> r == Err("SubClassMappingProvider requires a previous mapping")
    ensures prev.Some? && r.Ok? ==> Distinct(r.value) && Shares(prev.value, r.value) && Shows(r.value, m2)
    ensures prev.Some? && r.Ok? ==> forall k :: k in r.value && k !in prev.value ==> fresh(r.value[k])
    ensures prev.Some? && Fingerprinted(pm) ==> r.Ok? && m2 == Subclassed(pm, inputNodes)
  {
    if prev.None? {
      return Err("SubClassMappingProvider requires a previous mapping"), pm;
    }
    var result := KeepUnion(map[], prev.value);
    assert result == prev.value;
    r, m2 := SubclassWalk(result, inputNodes, pm);
  }

  /** `MixinMappingPipeline.get`: the class entries in order, with the targets of their first `@Mixin`. */
  method MixinPipelineGet(prev: Option<Heap>, entries: seq<ClassNode>, ghost pm: ClassMapping)
    returns (r: Result<Heap>, ghost m2: ClassMapping)
    requires prev.Some? ==> Distinct(prev.value) && Shows(prev.value, pm)
    modifies if prev.Some? then prev.value.Values else {}
    ensures prev.None? ==> r == Err("MixinMappingPipeline requires a previous mapping")
    ensures prev.Some? ==> r.Ok? && Distinct(r.value) && Shares(prev.value, r.value) && Shows(r.value, m2)
    ensures prev.Some? ==> forall k :: k in r.value && k !in prev.value ==> fresh(r.value[k])
    ensures prev.Some? && Keyed(pm) ==> m2 == Mixed(pm, entries, PipelineTargets)
  {
    if prev.None? {
      return Err("MixinMappingPipeline requires a previous mapping"), pm;
    }
    var result := KeepUnion(map[], prev.value);
    assert result == prev.value;
    var h;
    h, m2 := MixinWalk(result, entries, PipelineTargets, pm);
    r := Ok(h);
  }

  /** `MixinMappingProvider.get`: the mixin classes in the order `order` of their map, with the type targets of every `@Mixin`. */
  method MixinProviderGet(prev: Option<Heap>, mixins: map<string, ClassNode>, order: seq<string>, ghost pm: ClassMapping)
    returns (r: Result<Heap>, ghost m2: ClassMapping)
    requires prev.Some? ==> Distinct(prev.value) && Shows(prev.value, pm)
    requires Enumerates(order, mixins)
    modifies if prev.Some? then prev.value.Values else {}
    ensures prev.None? ==> r == Err("MixinMappingProvider requires a previous mapping")
    ensures prev.Some? ==> r.Ok? && Distinct(r.value) && Shares(prev.value, r.value) && Shows(r.value, m2)
    ensures prev.Some? ==> forall k :: k in r.value && k !in prev.value ==> fresh(r.value[k])
    ensures prev.Some? && Keyed(pm) ==> m2 == Mixed(pm, ValuesIn(mixins, order), ProviderTargets)
  {
    if prev.None? {
      return Err("MixinMappingProvider requires a previous mapping"), pm;
    }
    var result := KeepUnion(map[], prev.value);
    assert result == prev.value;
    var h;
    h, m2 := MixinWalk(result, ValuesIn(mixins, order), ProviderTargets, pm);
    r := Ok(h);
  }
}
