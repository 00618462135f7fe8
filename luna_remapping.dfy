/**
 * `AsmRemapper` and `MixinRemapper` of `dev.luna5ama.jartools`: the name
 * lookups over the map-based `Mapping`, each answering with the mapped name
 * when the owner class and the member are present and with the name it was
 * given otherwise.
 */
module LunaRemappers {
  import opened Wrappers
  import opened Asm
  import opened MixinRule
  import opened LunaMappings
  import D = Derivations
  import P = LunaProviders

  /** `mapMethodName`: `mapping[owner]?.getMethodNameTo(name, descriptor) ?: name`. */
  function MapMethodName(m: Mapping, owner: string, name: string, desc: string): (r: string)
    ensures owner in m && name in m[owner].methods && desc in m[owner].methods[name] ==>
      r == m[owner].methods[name][desc].nameTo
    ensures !(owner in m && name in m[owner].methods && desc in m[owner].methods[name]) ==> r == name
  {
    if owner !in m then name
    else
      match GetMethodNameTo(m[owner], name, desc)
      case None => name
      case Some(to) => to
  }

  /** `mapFieldName`: by owner and name; the descriptor plays no part. */
  function MapFieldName(m: Mapping, owner: string, name: string): (r: string)
    ensures owner in m && name in m[owner].fields ==> r == m[owner].fields[name].nameTo
    ensures !(owner in m && name in m[owner].fields) ==> r == name
  {
    if owner !in m then name
    else
      match GetFieldNameTo(m[owner], name)
      case None => name
      case Some(to) => to
  }

  /** `mapType`: `mapping[internalName]?.nameTo ?: internalName`. */
  function MapType(m: Mapping, internalName: string): (r: string)
    ensures internalName in m ==> r == m[internalName].nameTo
    ensures internalName !in m ==> r == internalName
  {
    if internalName in m then m[internalName].nameTo else internalName
  }

  /**
   * A method handed over by a provider stage is renamed at the receiving
   * class exactly as at the class that gave it; a field the rule lets
   * through likewise.
   */
  lemma HandedMembersMap(m: Mapping, source: ClassMapping, rule: D.Rule, x: string, d: string)
    ensures var r := P.Hand(m, source, rule); var n := P.Receiver(rule).name;
      && (x in source.methods && d in source.methods[x] ==>
            MapMethodName(r, n, x, d) == source.methods[x][d].nameTo)
      && (x in source.fields && D.Keeps(rule, x) ==> MapFieldName(r, n, x) == source.fields[x].nameTo)
  {
    P.HandRule(m, source, rule, x, d);
  }

  /** A member the source does not have keeps the answer the receiver gave before the hand-over. */
  lemma HandedOthersUnchanged(m: Mapping, source: ClassMapping, rule: D.Rule, x: string, d: string)
    ensures var r := P.Hand(m, source, rule); var n := P.Receiver(rule).name;
      && (!(x in source.methods && d in source.methods[x]) ==> MapMethodName(r, n, x, d) == MapMethodName(m, n, x, d))
      && (!(x in source.fields && D.Keeps(rule, x)) ==> MapFieldName(r, n, x) == MapFieldName(m, n, x))
  {
    P.HandRule(m, source, rule, x, d);
  }

  /** Classes other than the receiver answer every lookup as before. */
  lemma HandedOtherClassesUnchanged(m: Mapping, source: ClassMapping, rule: D.Rule, o: string, x: string, d: string)
    requires o != P.Receiver(rule).name
    ensures var r := P.Hand(m, source, rule);
      && MapMethodName(r, o, x, d) == MapMethodName(m, o, x, d)
      && MapFieldName(r, o, x) == MapFieldName(m, o, x)
      && MapType(r, o) == MapType(m, o)
  {
    var r := P.Hand(m, source, rule);
    assert o in r <==> o in m;
    assert o in m ==> r[o] == m[o];
  }

  /**
   * After `mergeMapping` with `b`'s class names kept, a class of `b` maps to
   * `b`'s name unless `a` already had it, and every member `b` maps is
   * renamed as `b` says.
   */
  lemma MergedMaps(a: Mapping, b: Mapping, k: string, x: string, d: string)
    ensures var q := MergeMappingKeepingNames(a, b);
      && MapType(q, k) == (if k in a then a[k].nameTo else if k in b then b[k].nameTo else k)
      && (k in b && x in b[k].methods && d in b[k].methods[x] ==> MapMethodName(q, k, x, d) == b[k].methods[x][d].nameTo)
      && (k in b && x in b[k].fields ==> MapFieldName(q, k, x) == b[k].fields[x].nameTo)
  {
    MergeMappingLookup(a, b, k, x, d);
    if k in a || k in b {
      MergeKeepsNames(a, b, k);
    }
  }

  /** The same merge as written: a class only `b` has is no longer renamed at all. */
  lemma MergedAsWrittenDropsType(a: Mapping, b: Mapping, k: string)
    requires k in b && k !in a
    ensures MapType(MergeMapping(a, b), k) == k
  {
    MergeMappingDropsName(a, b, k);
  }

  /** `MixinRemapper.mapFieldName`: the mixin rule over the given `@Mixin` classes, the base answer from `AsmRemapper`. */
  function MixinMapFieldName(m: Mapping, mixins: map<string, ClassNode>, owner: string, name: string, desc: string): (r: string)
    ensures r == name || r == MapFieldName(m, owner, name)
    ensures owner !in mixins ==> r == MapFieldName(m, owner, name)
  {
    NameOrBase(mixins, owner, name, desc, MapFieldName(m, owner, name));
    MixinFieldName(mixins, owner, name, desc, MapFieldName(m, owner, name))
  }

  /**
   * A `@Shadow` field of a mixin, once the mixin stage has handed it the
   * target's field of that name, is renamed as the target's field.
   */
  lemma ShadowFieldFollowsTarget(m: Mapping, target: ClassMapping, mixin: ClassNode, mixins: map<string, ClassNode>,
                                 i: nat, name: string, desc: string)
    requires mixin.name in mixins && mixins[mixin.name] == mixin
    requires i < |mixin.fields| && mixin.fields[i].name == name && mixin.fields[i].desc == desc
    requires ContainsAnnotation(mixin.fields[i].annotations, SHADOW)
    requires forall j :: 0 <= j < i ==> !(mixin.fields[j].name == name && mixin.fields[j].desc == desc)
    requires name in target.fields
    ensures MixinMapFieldName(P.Hand(m, target, D.Shadow(mixin)), mixins, mixin.name, name, desc) == target.fields[name].nameTo
  {
    assert D.Keeps(D.Shadow(mixin), name) by {
      assert D.ShadowDeclared(mixin, name) by {
        assert mixin.fields[i].name == name && ContainsAnnotation(mixin.fields[i].annotations, SHADOW);
      }
    }
    HandedMembersMap(m, target, D.Shadow(mixin), name, desc);
    var r := P.Hand(m, target, D.Shadow(mixin));
    ShadowFieldUsesBase(mixins, mixin.name, name, desc, MapFieldName(r, mixin.name, name), i);
  }

  /** A field the mixin declares first without `@Shadow` keeps its name whatever the mapping says. */
  lemma OwnFieldKeepsName(m: Mapping, mixins: map<string, ClassNode>, owner: string, i: nat, name: string, desc: string)
    requires owner in mixins && |name| > 0
    requires var fs := mixins[owner].fields;
      && i < |fs| && fs[i].name == name && fs[i].desc == desc && !ContainsAnnotation(fs[i].annotations, SHADOW)
      && forall j :: 0 <= j < i ==> !(fs[j].name == name && fs[j].desc == desc)
    ensures MixinMapFieldName(m, mixins, owner, name, desc) == name
  {
    DeclaredFieldKeepsName(mixins, owner, name, desc, MapFieldName(m, owner, name), i);
  }
}
