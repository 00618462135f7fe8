/**
 * The rule every `MixinRemapper.mapFieldName` of the three generations
 * applies: inside a mixin class, a field the mixin declares itself keeps its
 * name, while a `@Shadow` field, which stands for the target's field, and a
 * field the mixin does not declare are left to the base remapper.
 */
module MixinRule {
  import opened Wrappers
  import opened Asm

  /** `fields.find { it.name == name && it.desc == descriptor }`. */
  function FindField(fields: seq<FieldNode>, name: string, desc: string): (r: Option<FieldNode>)
    ensures r.Some? <==> exists i :: 0 <= i < |fields| && fields[i].name == name && fields[i].desc == desc
    ensures r.Some? ==>
      exists i :: 0 <= i < |fields| && fields[i] == r.value && r.value.name == name && r.value.desc == desc &&
        forall j :: 0 <= j < i ==> !(fields[j].name == name && fields[j].desc == desc)
  {
    if |fields| == 0 then None
    else if fields[0].name == name && fields[0].desc == desc then Some(fields[0])
    else
      var r := FindField(fields[1..], name, desc);
      assert forall i :: 0 <= i < |fields| - 1 ==> fields[1..][i] == fields[i + 1];
      r
  }

  /**
   * `filter { keep(it) }.associateBy { key(it) }`: the kept elements by key,
   * a later element of the same key replacing an earlier one.
   */
  function AssociateLast<T>(xs: seq<T>, keep: T -> bool, key: T -> string): map<string, T>
    decreases |xs|
  {
    if |xs| == 0 then map[]
    else
      var r := AssociateLast(xs[..|xs| - 1], keep, key);
      var x := xs[|xs| - 1];
      if keep(x) then r[key(x) := x] else r
  }

  /** The keys are those of the kept elements, and each key holds a kept element of that key. */
  lemma {:induction false} AssociateLastKeys<T>(xs: seq<T>, keep: T -> bool, key: T -> string)
    ensures forall n :: n in AssociateLast(xs, keep, key) <==>
      exists i :: 0 <= i < |xs| && keep(xs[i]) && key(xs[i]) == n
    ensures forall n :: n in AssociateLast(xs, keep, key) ==>
      keep(AssociateLast(xs, keep, key)[n]) && key(AssociateLast(xs, keep, key)[n]) == n
    decreases |xs|
  {
    if |xs| > 0 {
      var init := xs[..|xs| - 1];
      var x := xs[|xs| - 1];
      AssociateLastKeys(init, keep, key);
      var r0 := AssociateLast(init, keep, key);
      var r := AssociateLast(xs, keep, key);
      assert r == if keep(x) then r0[key(x) := x] else r0;
      forall n ensures n in r <==> exists i :: 0 <= i < |xs| && keep(xs[i]) && key(xs[i]) == n {
        if n in r && !(keep(x) && key(x) == n) {
          assert n in r0;
          var i :| 0 <= i < |init| && keep(init[i]) && key(init[i]) == n;
          assert xs[i] == init[i];
        }
        if exists i :: 0 <= i < |xs| && keep(xs[i]) && key(xs[i]) == n {
          var i :| 0 <= i < |xs| && keep(xs[i]) && key(xs[i]) == n;
          if i < |init| { assert init[i] == xs[i]; }
        }
      }
    }
  }

  /** An element no later kept element shares its key with is the one kept. */
  lemma {:induction false} AssociateLastWins<T>(xs: seq<T>, keep: T -> bool, key: T -> string, i: nat)
    requires i < |xs| && keep(xs[i])
    requires forall j :: i < j < |xs| ==> !(keep(xs[j]) && key(xs[j]) == key(xs[i]))
    ensures key(xs[i]) in AssociateLast(xs, keep, key) && AssociateLast(xs, keep, key)[key(xs[i])] == xs[i]
    decreases |xs|
  {
    if i < |xs| - 1 {
      var init := xs[..|xs| - 1];
      assert init[i] == xs[i];
      assert forall j :: i < j < |init| ==> init[j] == xs[j];
      AssociateLastWins(init, keep, key, i);
    }
  }

  function NameOf(c: ClassNode): string { c.name }

  /**
   * `classEntries.map { classNode }.filter { findMixinAnnotation() != null }
   * .associateBy { name }`: the `@Mixin` classes by name, a later class of
   * the same name replacing an earlier one.
   */
  function MixinClasses(classes: seq<ClassNode>): (r: map<string, ClassNode>)
    ensures forall n :: n in r <==> exists i :: 0 <= i < |classes| && IsMixin(classes[i]) && classes[i].name == n
    ensures forall n :: n in r ==> IsMixin(r[n]) && r[n].name == n
  {
    AssociateLastKeys(classes, IsMixin, NameOf);
    AssociateLast(classes, IsMixin, NameOf)
  }

  /** A later `@Mixin` class of a name is the one kept. */
  lemma MixinClassesLastWins(classes: seq<ClassNode>, i: nat)
    requires i < |classes| && IsMixin(classes[i])
    requires forall j :: i < j < |classes| ==> !(IsMixin(classes[j]) && classes[j].name == classes[i].name)
    ensures classes[i].name in MixinClasses(classes) && MixinClasses(classes)[classes[i].name] == classes[i]
  {
    forall j | i < j < |classes| ensures !(IsMixin(classes[j]) && NameOf(classes[j]) == NameOf(classes[i])) {
      assert !(IsMixin(classes[j]) && classes[j].name == classes[i].name);
    }
    AssociateLastWins(classes, IsMixin, NameOf, i);
  }

  /**
   * `MixinRemapper.mapFieldName(owner, name, descriptor)`, with `base` the
   * answer of `super.mapFieldName`: `newName` starts empty, becomes `name`
   * when the mixin declares the field without `@Shadow`, and an empty
   * `newName` is replaced by the base answer.
   */
  function MixinFieldName(mixins: map<string, ClassNode>, owner: string, name: string, desc: string, base: string): string {
    if owner !in mixins then base
    else
      var newName := match FindField(mixins[owner].fields, name, desc)
        case Some(f) => if !ContainsAnnotation(f.annotations, SHADOW) then name else ""
        case None => "";
      if |newName| == 0 then base else newName
  }

  /** Outside a mixin class the base answer stands. */
  lemma NotMixinUsesBase(mixins: map<string, ClassNode>, owner: string, name: string, desc: string, base: string)
    requires owner !in mixins
    ensures MixinFieldName(mixins, owner, name, desc, base) == base
  {
  }

  /** The first field the mixin declares with that name and desc, without `@Shadow`, keeps its name. */
  lemma DeclaredFieldKeepsName(mixins: map<string, ClassNode>, owner: string, name: string, desc: string, base: string, i: nat)
    requires owner in mixins && |name| > 0
    requires var fs := mixins[owner].fields;
      && i < |fs| && fs[i].name == name && fs[i].desc == desc && !ContainsAnnotation(fs[i].annotations, SHADOW)
      && forall j :: 0 <= j < i ==> !(fs[j].name == name && fs[j].desc == desc)
    ensures MixinFieldName(mixins, owner, name, desc, base) == name
  {
    FirstFound(mixins[owner].fields, name, desc, i);
  }

  /** A `@Shadow` field is remapped as the target's field. */
  lemma ShadowFieldUsesBase(mixins: map<string, ClassNode>, owner: string, name: string, desc: string, base: string, i: nat)
    requires owner in mixins
    requires var fs := mixins[owner].fields;
      && i < |fs| && fs[i].name == name && fs[i].desc == desc && ContainsAnnotation(fs[i].annotations, SHADOW)
      && forall j :: 0 <= j < i ==> !(fs[j].name == name && fs[j].desc == desc)
    ensures MixinFieldName(mixins, owner, name, desc, base) == base
  {
    FirstFound(mixins[owner].fields, name, desc, i);
  }

  /** A field the mixin does not declare with that name and desc is remapped as the target's field. */
  lemma UndeclaredFieldUsesBase(mixins: map<string, ClassNode>, owner: string, name: string, desc: string, base: string)
    requires owner in mixins
    requires forall j :: 0 <= j < |mixins[owner].fields| ==>
      !(mixins[owner].fields[j].name == name && mixins[owner].fields[j].desc == desc)
    ensures MixinFieldName(mixins, owner, name, desc, base) == base
  {
  }

  lemma FirstFound(fs: seq<FieldNode>, name: string, desc: string, i: nat)
    requires i < |fs| && fs[i].name == name && fs[i].desc == desc
    requires forall j :: 0 <= j < i ==> !(fs[j].name == name && fs[j].desc == desc)
    ensures FindField(fs, name, desc) == Some(fs[i])
  {
    var r := FindField(fs, name, desc);
    var k :| 0 <= k < |fs| && fs[k] == r.value && r.value.name == name && r.value.desc == desc &&
      forall j :: 0 <= j < k ==> !(fs[j].name == name && fs[j].desc == desc);
    assert k == i;
  }

  /** The answer is always the field's own name or the base answer. */
  lemma NameOrBase(mixins: map<string, ClassNode>, owner: string, name: string, desc: string, base: string)
    ensures var r := MixinFieldName(mixins, owner, name, desc, base); r == name || r == base
  {
  }
}
