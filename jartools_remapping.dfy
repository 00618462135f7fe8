/**
 * `AsmRemapper` of `dev.fastmc.jartools.remap` and the `MixinRemapper` of
 * `dev.fastmc.jartools` built on it: the name lookups over the class table
 * keyed by class name, each answering with the mapped name when the owner
 * class and the member are present and with the name it was given otherwise.
 */
module OldRemappers {
  import opened Wrappers
  import opened Asm
  import opened MixinRule
  import opened OldMappings
  import D = Derivations
  import P = OldProviders

  /** `mapMethodName`: `classMapping.get(owner)?.methodMapping?.getNameTo(name, descriptor) ?: name`. */
  function MapMethodName(m: ClassMapping, owner: string, name: string, desc: string): (r: string)
    ensures owner in m && (name, desc) in m[owner].methods ==> r == m[owner].methods[(name, desc)].nameTo
    ensures !(owner in m && (name, desc) in m[owner].methods) ==> r == name
  {
    match GetClass(m, owner)
    case None => name
    case Some(c) =>
      match MethodNameTo(c.methods, name, desc)
      case None => name
      case Some(to) => to
  }

  /** `mapFieldName`: by owner and name; the descriptor plays no part. */
  function MapFieldName(m: ClassMapping, owner: string, name: string): (r: string)
    ensures owner in m && name in m[owner].fields ==> r == m[owner].fields[name].nameTo
    ensures !(owner in m && name in m[owner].fields) ==> r == name
  {
    match GetClass(m, owner)
    case None => name
    case Some(c) =>
      match FieldNameTo(c.fields, name)
      case None => name
      case Some(to) => to
  }

  /** `mapType`: `classMapping.getNameTo(internalName) ?: internalName`. */
  function MapType(m: ClassMapping, internalName: string): (r: string)
    ensures internalName in m ==> r == m[internalName].nameTo
    ensures internalName !in m ==> r == internalName
  {
    match ClassNameTo(m, internalName)
    case None => internalName
    case Some(to) => to
  }

  /**
   * A method handed over by a provider stage is renamed at the receiving
   * class exactly as at the class that gave it; a field the rule lets
   * through likewise.
   */
  lemma HandedMembersMap(m: ClassMapping, source: Class, rule: D.Rule, x: string, d: string)
    ensures var r := P.Hand(m, source, rule); var n := P.Receiver(rule).name;
      && ((x, d) in source.methods ==> MapMethodName(r, n, x, d) == source.methods[(x, d)].nameTo)
      && (x in source.fields && D.Keeps(rule, source.fields[x].nameFrom) ==>
            MapFieldName(r, n, x) == source.fields[x].nameTo)
  {
    P.HandRule(m, source, rule);
  }

  /** A member the source does not hand over keeps the answer the receiver gave before. */
  lemma HandedOthersUnchanged(m: ClassMapping, source: Class, rule: D.Rule, x: string, d: string)
    ensures var r := P.Hand(m, source, rule); var n := P.Receiver(rule).name;
      && ((x, d) !in source.methods ==> MapMethodName(r, n, x, d) == MapMethodName(m, n, x, d))
      && (!(x in source.fields && D.Keeps(rule, source.fields[x].nameFrom)) ==>
            MapFieldName(r, n, x) == MapFieldName(m, n, x))
  {
    P.HandRule(m, source, rule);
  }

  /** Classes other than the receiver answer every lookup as before. */
  lemma HandedOtherClassesUnchanged(m: ClassMapping, source: Class, rule: D.Rule, o: string, x: string, d: string)
    requires o != P.Receiver(rule).name
    ensures var r := P.Hand(m, source, rule);
      && MapMethodName(r, o, x, d) == MapMethodName(m, o, x, d)
      && MapFieldName(r, o, x) == MapFieldName(m, o, x)
      && MapType(r, o) == MapType(m, o)
  {
    var r := P.Hand(m, source, rule);
    assert o in r <==> o in m;
    assert o in m ==> r[o] == m[o];
  }

  /** `MixinRemapper.mapFieldName`: the mixin rule over the given `@Mixin` classes, the base answer from `AsmRemapper`. */
  function MixinMapFieldName(m: ClassMapping, mixins: map<string, ClassNode>, owner: string, name: string, desc: string): (r: string)
    ensures r == name || r == MapFieldName(m, owner, name)
    ensures owner !in mixins ==> r == MapFieldName(m, owner, name)
  {
    NameOrBase(mixins, owner, name, desc, MapFieldName(m, owner, name));
    MixinFieldName(mixins, owner, name, desc, MapFieldName(m, owner, name))
  }

  /**
   * A `@Shadow` field of a mixin, once the mixin stage has handed it the
   * target's field of that name, is renamed as the target's field.
   */
  lemma ShadowFieldFollowsTarget(m: ClassMapping, target: Class, mixin: ClassNode, mixins: map<string, ClassNode>,
                                 i: nat, name: string, desc: string)
    requires mixin.name in mixins && mixins[mixin.name] == mixin
    requires i < |mixin.fields| && mixin.fields[i].name == name && mixin.fields[i].desc == desc
    requires ContainsAnnotation(mixin.fields[i].annotations, SHADOW)
    requires forall j :: 0 <= j < i ==> !(mixin.fields[j].name == name && mixin.fields[j].desc == desc)
    requires name in target.fields && target.fields[name].nameFrom == name
    ensures MixinMapFieldName(P.Hand(m, target, D.Shadow(mixin)), mixins, mixin.name, name, desc) == target.fields[name].nameTo
  {
    assert D.Keeps(D.Shadow(mixin), name) by {
      assert D.ShadowDeclared(mixin, name) by {
        assert mixin.fields[i].name == name && ContainsAnnotation(mixin.fields[i].annotations, SHADOW);
      }
    }
    HandedMembersMap(m, target, D.Shadow(mixin), name, desc);
    var r := P.Hand(m, target, D.Shadow(mixin));
    ShadowFieldUsesBase(mixins, mixin.name, name, desc, MapFieldName(r, mixin.name, name), i);
  }

  /** A field the mixin declares first without `@Shadow` keeps its name whatever the mapping says. */
  lemma OwnFieldKeepsName(m: ClassMapping, mixins: map<string, ClassNode>, owner: string, i: nat, name: string, desc: string)
    requires owner in mixins && |name| > 0
    requires var fs := mixins[owner].fields;
      && i < |fs| && fs[i].name == name && fs[i].desc == desc && !ContainsAnnotation(fs[i].annotations, SHADOW)
      && forall j :: 0 <= j < i ==> !(fs[j].name == name && fs[j].desc == desc)
    ensures MixinMapFieldName(m, mixins, owner, name, desc) == name
  {
    DeclaredFieldKeepsName(mixins, owner, name, desc, MapFieldName(m, owner, name), i);
  }
}
