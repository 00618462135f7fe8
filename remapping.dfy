/**
 * `AsmRemapper` and `MixinRemapper` of the current generation: the name
 * lookups the bytecode rewriter asks for, each answering with the mapped
 * name when the owner class and the member are in the mapping and with the
 * name it was given otherwise.
 */
module Remappers {
  import opened Wrappers
  import opened Jvm
  import opened Mappings
  import opened Asm
  import opened MixinRule

  /**
   * `mapMethodName`: `classMapping.get(owner)?.methodMapping?.getNameTo(name,
   * descriptor) ?: name`. Looking a method up in a mapped owner computes its
   * fingerprint, which throws on an empty name or descriptor.
   */
  function MapMethodName(m: ClassMapping, owner: string, name: string, desc: string): (r: Result<string>)
    ensures r.Err? <==> ClassHash(owner) in m && (|name| == 0 || |desc| == 0)
    ensures ClassHash(owner) !in m ==> r == Ok(name)
    ensures r.Ok? && r.value != name ==>
      exists h :: h in m[ClassHash(owner)].methods && m[ClassHash(owner)].methods[h].nameTo == r.value
  {
    match GetClass(m, owner)
    case None => Ok(name)
    case Some(c) =>
      match MethodNameTo(c.methods, name, desc)
      case Err(e) => Err(e)
      case Ok(None) => Ok(name)
      case Ok(Some(to)) => Ok(to)
  }

  /** `mapFieldName`: by owner and name; the descriptor plays no part. */
  function MapFieldName(m: ClassMapping, owner: string, name: string): (r: string)
    ensures ClassHash(owner) !in m ==> r == name
    ensures r != name ==>
      ClassHash(owner) in m && exists h :: h in m[ClassHash(owner)].fields && m[ClassHash(owner)].fields[h].nameTo == r
  {
    match GetClass(m, owner)
    case None => name
    case Some(c) =>
      match FieldNameTo(c.fields, name)
      case None => name
      case Some(to) => to
  }

  /** `mapType`: the class's nameTo, the name itself when unmapped, and null for null. */
  function MapType(m: ClassMapping, internalName: Option<string>): (r: Option<string>)
    ensures r.None? <==> internalName.None?
    ensures internalName.Some? && ClassHash(internalName.value) !in m ==> r == internalName
  {
    match internalName
    case None => None
    case Some(n) => Some(if ClassHash(n) in m then m[ClassHash(n)].nameTo else n)
  }

  /** With no class under the owner's fingerprint, every member keeps its name. */
  lemma UnmappedOwnerKeepsNames(m: ClassMapping, owner: string, name: string, desc: string)
    requires ClassHash(owner) !in m
    ensures MapMethodName(m, owner, name, desc) == Ok(name)
    ensures MapFieldName(m, owner, name) == name
    ensures MixinMapFieldName(m, [], owner, name, desc) == name
  {
  }

  /** A method added to the owner's class is found again by the lookup. */
  lemma MethodFoundAfterAdd(m: ClassMapping, owner: string, name: string, desc: string, to: string)
    requires ClassHash(owner) in m && |name| > 0 && |desc| > 0
    requires MethodHash(name, desc).value !in m[ClassHash(owner)].methods
    ensures MapMethodName(AddMethod(m, ClassHash(owner), NewMethod(name, desc, to).value), owner, name, desc) == Ok(to)
  {
  }

  /** A method of the owner's class under another fingerprint keeps its name. */
  lemma MethodMissingKeepsName(m: ClassMapping, owner: string, name: string, desc: string)
    requires ClassHash(owner) in m && |name| > 0 && |desc| > 0
    requires MethodHash(name, desc).value !in m[ClassHash(owner)].methods
    ensures MapMethodName(m, owner, name, desc) == Ok(name)
  {
  }

  /** A field added to the owner's class is found again under any descriptor. */
  lemma FieldFoundAfterAdd(m: ClassMapping, owner: string, name: string, to: string)
    requires ClassHash(owner) in m && FieldHash(name) !in m[ClassHash(owner)].fields
    ensures MapFieldName(AddField(m, ClassHash(owner), NewField(name, to)), owner, name) == to
  {
  }

  /** A class created with a target name maps its type to that name. */
  lemma TypeFoundAfterCreate(m: ClassMapping, name: string, to: string)
    requires ClassHash(name) !in m
    ensures MapType(GetOrCreate(m, name, to).0, Some(name)) == Some(to)
  {
  }

  /** `MixinRemapper.mapFieldName`: the mixin rule over the `@Mixin` classes among `classes`, the base answer from `AsmRemapper`. */
  function MixinMapFieldName(m: ClassMapping, classes: seq<ClassNode>, owner: string, name: string, desc: string): (r: string)
    ensures r == name || r == MapFieldName(m, owner, name)
  {
    NameOrBase(MixinClasses(classes), owner, name, desc, MapFieldName(m, owner, name));
    MixinFieldName(MixinClasses(classes), owner, name, desc, MapFieldName(m, owner, name))
  }

  /** No `@Mixin` class of that name: the plain field lookup. */
  lemma NonMixinOwnerUsesLookup(m: ClassMapping, classes: seq<ClassNode>, owner: string, name: string, desc: string)
    requires forall i :: 0 <= i < |classes| ==> !(IsMixin(classes[i]) && classes[i].name == owner)
    ensures MixinMapFieldName(m, classes, owner, name, desc) == MapFieldName(m, owner, name)
  {
  }

  /**
   * The mixin class of `owner` (the last `@Mixin` class of that name) declares
   * `name`/`desc` first at field `k`: without `@Shadow` the name is kept,
   * with `@Shadow` it is looked up like the target's field.
   */
  lemma MixinDeclaredField(m: ClassMapping, classes: seq<ClassNode>, i: nat, k: nat, name: string, desc: string)
    requires i < |classes| && IsMixin(classes[i]) && |name| > 0
    requires forall j :: i < j < |classes| ==> !(IsMixin(classes[j]) && classes[j].name == classes[i].name)
    requires var fs := classes[i].fields;
      && k < |fs| && fs[k].name == name && fs[k].desc == desc
      && forall j :: 0 <= j < k ==> !(fs[j].name == name && fs[j].desc == desc)
    ensures var owner := classes[i].name;
      && (!ContainsAnnotation(classes[i].fields[k].annotations, SHADOW) ==>
            MixinMapFieldName(m, classes, owner, name, desc) == name)
      && (ContainsAnnotation(classes[i].fields[k].annotations, SHADOW) ==>
            MixinMapFieldName(m, classes, owner, name, desc) == MapFieldName(m, owner, name))
  {
    MixinClassesLastWins(classes, i);
    var owner := classes[i].name;
    var base := MapFieldName(m, owner, name);
    if ContainsAnnotation(classes[i].fields[k].annotations, SHADOW) {
      ShadowFieldUsesBase(MixinClasses(classes), owner, name, desc, base, k);
    } else {
      DeclaredFieldKeepsName(MixinClasses(classes), owner, name, desc, base, k);
    }
  }
}

/**
 * The `AsmRemapper` copies of `dev.fastmc.jartools.mapping` and
 * `dev.fastmc.jartools`. Their method and field lookups are those of the
 * current generation, over tables of the same shape; `mapType` takes and
 * returns a non-null name.
 */
module JartoolsRemappers {
  import opened Wrappers
  import opened Mappings
  import Remappers

  /** `mapType(internalName: String): String`. */
  function MapType(m: ClassMapping, internalName: string): (r: string)
    ensures ClassHash(internalName) !in m ==> r == internalName
    ensures ClassHash(internalName) in m ==> r == m[ClassHash(internalName)].nameTo
  {
    ClassNameOrSelf(m, internalName)
  }

  function ClassNameOrSelf(m: ClassMapping, n: string): string {
    match ClassNameTo(m, n)
    case None => n
    case Some(to) => to
  }

  /** The non-null `mapType` agrees with the nullable one on every name. */
  lemma MapTypeAgrees(m: ClassMapping, internalName: string)
    ensures Remappers.MapType(m, Some(internalName)) == Some(MapType(m, internalName))
  {
  }
}
