/**
 * The parts of an ASM class tree the mapping engine reads: a class's name,
 * super class and interfaces, its fields and methods, and the annotations on
 * each of them with their values. The invisible and the visible annotation
 * lists are taken together, as the `annotations` extension properties join
 * them.
 */
module Asm {
  import opened Wrappers

  /** An annotation element value as ASM hands it out. */
  datatype Value =
    | Bool(b: bool)
    | Str(s: string)
    | TypeRef(internalName: string)
    | Array(items: seq<Value>)
    | Nested(ann: Annotation)

  /** `AnnotationNode`: its descriptor and its `values` as (name, value) pairs, in order. */
  datatype Annotation = Annotation(desc: string, values: seq<Pair>)
  datatype Pair = Pair(name: string, value: Value)

  datatype FieldNode = FieldNode(name: string, desc: string, annotations: seq<Annotation>)
  datatype MethodNode = MethodNode(name: string, desc: string, signature: Option<string>, annotations: seq<Annotation>)
  datatype ClassNode = ClassNode(
    name: string, superName: Option<string>, interfaces: seq<string>,
    fields: seq<FieldNode>, methods: seq<MethodNode>, annotations: seq<Annotation>)

  const MIXIN := "Lorg/spongepowered/asm/mixin/Mixin;"
  const SHADOW := "Lorg/spongepowered/asm/mixin/Shadow;"

  /** `containsAnnotation(descriptor)`: some annotation of the list has that descriptor. */
  predicate ContainsAnnotation(anns: seq<Annotation>, desc: string) {
    exists i :: 0 <= i < |anns| && anns[i].desc == desc
  }

  /** `findAnnotation(descriptor)`: the first annotation with that descriptor. */
  function FindAnnotation(anns: seq<Annotation>, desc: string): (r: Option<Annotation>)
    ensures r.Some? <==> ContainsAnnotation(anns, desc)
    ensures r.Some? ==>
      exists i :: 0 <= i < |anns| && anns[i] == r.value && r.value.desc == desc &&
        forall j :: 0 <= j < i ==> anns[j].desc != desc
  {
    if |anns| == 0 then None
    else if anns[0].desc == desc then Some(anns[0])
    else
      var r := FindAnnotation(anns[1..], desc);
      assert forall i :: 0 <= i < |anns| - 1 ==> anns[1..][i] == anns[i + 1];
      r
  }

  /** `findAnyAnnotation(d1, …)`: the first annotation whose descriptor is one of `descs`. */
  function FindAnyAnnotation(anns: seq<Annotation>, descs: set<string>): (r: Option<Annotation>)
    ensures r.Some? <==> exists i :: 0 <= i < |anns| && anns[i].desc in descs
    ensures r.Some? ==>
      exists i :: 0 <= i < |anns| && anns[i] == r.value && r.value.desc in descs &&
        forall j :: 0 <= j < i ==> anns[j].desc !in descs
  {
    if |anns| == 0 then None
    else if anns[0].desc in descs then Some(anns[0])
    else
      var r := FindAnyAnnotation(anns[1..], descs);
      assert forall i :: 0 <= i < |anns| - 1 ==> anns[1..][i] == anns[i + 1];
      r
  }

  /** `findMixinAnnotation()`. */
  function FindMixinAnnotation(c: ClassNode): Option<Annotation> {
    FindAnnotation(c.annotations, MIXIN)
  }

  predicate IsMixin(c: ClassNode) { ContainsAnnotation(c.annotations, MIXIN) }

  // ---- reading annotation values, as the `visit` helpers walk them --------------

  /** `visitValue<Boolean>(name) { flag = it }` over the values in order: the last such value, else `dflt`. */
  function BoolValue(values: seq<Pair>, name: string, dflt: bool): (r: bool)
    ensures (forall i :: 0 <= i < |values| ==> !(values[i].name == name && values[i].value.Bool?)) ==> r == dflt
    decreases |values|
  {
    if |values| == 0 then dflt
    else
      var p := values[|values| - 1];
      if p.name == name && p.value.Bool? then p.value.b
      else BoolValue(values[..|values| - 1], name, dflt)
  }

  /** `visitValue<String>(name) { s = it }`: the last string value under `name`. */
  function StringValue(values: seq<Pair>, name: string): (r: Option<string>)
    ensures r.Some? <==> exists i :: 0 <= i < |values| && values[i].name == name && values[i].value.Str?
    decreases |values|
  {
    if |values| == 0 then None
    else
      var p := values[|values| - 1];
      if p.name == name && p.value.Str? then Some(p.value.s)
      else
        var r := StringValue(values[..|values| - 1], name);
        assert forall i :: 0 <= i < |values| - 1 ==> values[..|values| - 1][i] == values[i];
        r
  }

  /** The string elements of an array value. */
  function Strings(items: seq<Value>): (r: seq<string>)
    ensures |r| <= |items|
    ensures forall s :: s in r <==> Str(s) in items
  {
    if |items| == 0 then []
    else (if items[0].Str? then [items[0].s] else []) + Strings(items[1..])
  }

  /** The type elements of an array value, by internal name. */
  function Types(items: seq<Value>): (r: seq<string>)
    ensures |r| <= |items|
    ensures forall t :: t in r <==> TypeRef(t) in items
  {
    if |items| == 0 then []
    else (if items[0].TypeRef? then [items[0].internalName] else []) + Types(items[1..])
  }

  /** `visitArray<String>(name) { list.addAll(it) }`: every array under `name`, concatenated. */
  function StringArray(values: seq<Pair>, name: string): seq<string> {
    if |values| == 0 then []
    else
      var head := if values[0].name == name && values[0].value.Array? then Strings(values[0].value.items) else [];
      head + StringArray(values[1..], name)
  }

  /** `visitArray<Type>(name) { list.addAll(it) }`. */
  function TypeArray(values: seq<Pair>, name: string): seq<string> {
    if |values| == 0 then []
    else
      var head := if values[0].name == name && values[0].value.Array? then Types(values[0].value.items) else [];
      head + TypeArray(values[1..], name)
  }

  /** `visitValue<String>(name) { list.add(it) }`: every string value under `name`, in order. */
  function StringValues(values: seq<Pair>, name: string): (r: seq<string>)
    ensures |r| <= |values|
    ensures (forall i :: 0 <= i < |values| ==> !(values[i].name == name && values[i].value.Str?)) ==> r == []
    ensures forall s :: s in r <==> Pair(name, Str(s)) in values
  {
    if |values| == 0 then []
    else
      var head := if values[0].name == name && values[0].value.Str? then [values[0].value.s] else [];
      head + StringValues(values[1..], name)
  }

  /** The annotations with descriptor `desc` among the items of an array value. */
  function NestedItems(items: seq<Value>, desc: string): (r: seq<Annotation>)
    ensures forall a :: a in r <==> a.desc == desc && Nested(a) in items
  {
    if |items| == 0 then []
    else
      var head := if items[0].Nested? && items[0].ann.desc == desc then [items[0].ann] else [];
      head + NestedItems(items[1..], desc)
  }

  /**
   * `visitAnnotation(name, desc) { … }`: the nested annotations under `name`
   * with descriptor `desc`, in order, whether the element holds one
   * annotation or an array of them.
   */
  function NestedAnnotations(values: seq<Pair>, name: string, desc: string): (r: seq<Annotation>)
    ensures forall a :: a in r ==> a.desc == desc
  {
    if |values| == 0 then []
    else
      var v := values[0].value;
      var head :=
        if values[0].name != name then []
        else if v.Nested? && v.ann.desc == desc then [v.ann]
        else if v.Array? then NestedItems(v.items, desc)
        else [];
      head + NestedAnnotations(values[1..], name, desc)
  }

  /** An absent element leaves the visit's default. */
  lemma {:induction false} AbsentDefaults(values: seq<Pair>, name: string)
    requires forall i :: 0 <= i < |values| ==> values[i].name != name
    ensures StringArray(values, name) == [] && TypeArray(values, name) == [] && StringValues(values, name) == []
    ensures forall desc :: NestedAnnotations(values, name, desc) == []
  {
    if |values| > 0 {
      AbsentDefaults(values[1..], name);
    }
  }
}
