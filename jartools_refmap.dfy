/**
 * The refmap stage of `dev.fastmc.jartools`: the earlier rules for the string
 * references of a mixin's injector, `@At`, `@Invoker` and `@Accessor`
 * annotations. A method entry is written `<classTo>;<nameTo><desc>`, without
 * the `L` the current stage puts before the owner, and an unmapped name is
 * written as `null`; a bare reference takes the first method whose name
 * starts with it; an `@At` owner is looked up together with its `;`; invokers
 * are recorded under the handler's own name, and accessors are read from the
 * mixin's fields. The stage builds these refmaps and returns the jar entries
 * without them, so only the exceptions it throws can be observed.
 * The entry tables of `dev.fastmc.jartools.mapping` are not part of this
 * model; the current tables stand in for them.
 */
module OldRefmaps {
  import opened Wrappers
  import opened Text
  import opened Mappings
  import opened Descriptors
  import opened Asm
  import opened Folds
  import opened Patterns
  import Refmaps

  type Refmap = Refmaps.Refmap

  /** A nullable name in a Kotlin string template. */
  function Shown(name: Option<string>): string {
    if name.Some? then name.value else "null"
  }

  /** What the earlier stage records for a method: `<ownerTo>;<nameTo><remapped desc>`. */
  function Entry(m: ClassMapping, ownerTo: string, nameTo: string, descFrom: string): string {
    ownerTo + ";" + nameTo + RemapDesc(m, descFrom)
  }

  /** An entry starts with its owner and `;`. */
  lemma EntryOwner(m: ClassMapping, ownerTo: string, nameTo: string, descFrom: string)
    ensures StartsWith(Entry(m, ownerTo, nameTo, descFrom), ownerTo + ";")
  {
    var e := Entry(m, ownerTo, nameTo, descFrom);
    assert e[..|ownerTo + ";"|] == ownerTo + ";";
  }

  /** A matched method reference has a name and a descriptor, so its lookup cannot throw. */
  lemma MethodRefParts(ref: string)
    requires MatchMethodRef(ref).Some?
    ensures |MatchMethodRef(ref).value.0| > 0 && |MatchMethodRef(ref).value.1| > 0
  {
  }

  /** `methodMapping.getNameTo(name, desc)` for a name and a descriptor that are not empty. */
  function NameTo(c: Class, name: string, desc: string): Option<string>
    requires |name| > 0 && |desc| > 0
  {
    MethodNameTo(c.methods, name, desc).value
  }

  // ---- the method references of one handler ------------------------------------------

  /** `backingMap?.find { it.nameFrom.startsWith(ref) }` over the entries in iteration order. */
  function FirstPrefixed(entries: seq<Method>, ref: string): (r: Option<Method>)
    ensures r.Some? <==> exists i :: 0 <= i < |entries| && StartsWith(entries[i].nameFrom, ref)
    ensures r.Some? ==>
      exists i :: 0 <= i < |entries| && entries[i] == r.value && StartsWith(r.value.nameFrom, ref) &&
        forall j :: 0 <= j < i ==> !StartsWith(entries[j].nameFrom, ref)
  {
    if |entries| == 0 then None
    else if StartsWith(entries[0].nameFrom, ref) then Some(entries[0])
    else
      var r := FirstPrefixed(entries[1..], ref);
      assert forall i :: 0 <= i < |entries| - 1 ==> entries[1..][i] == entries[i + 1];
      r
  }

  /**
   * One string of an injector's `method` array: a reference with a descriptor
   * is always recorded, a wildcard throws, and a bare name takes the first
   * entry of `order(c)` whose name starts with it, or throws.
   */
  function MethodRefStep(m: ClassMapping, order: Class -> seq<Method>, target: string, c: Class,
                         refmap: Refmap, ref: string): (r: Result<Refmap>)
    ensures MatchMethodRef(ref).Some? ==> r.Ok?
    ensures MatchMethodRef(ref).None? ==> (r.Ok? <==> !Wildcard(ref) && FirstPrefixed(order(c), ref).Some?)
    ensures r.Ok? ==> ref in r.value && r.value == refmap[ref := r.value[ref]]
    ensures r.Ok? ==> StartsWith(r.value[ref], c.nameTo + ";")
  {
    match MatchMethodRef(ref)
    case Some((name, desc)) =>
      MethodRefParts(ref);
      var e := Entry(m, c.nameTo, Shown(NameTo(c, name, desc)), desc);
      EntryOwner(m, c.nameTo, Shown(NameTo(c, name, desc)), desc);
      Ok(refmap[ref := e])
    case None =>
      if Wildcard(ref) then Err("Wildcard method reference is not supported")
      else
        match FirstPrefixed(order(c), ref)
        case None => Err("Cannot find method " + ref + " in " + target)
        case Some(e) =>
          EntryOwner(m, c.nameTo, e.nameTo, e.desc);
          Ok(refmap[ref := Entry(m, c.nameTo, e.nameTo, e.desc)])
  }

  /** A mapped reference records the mapped name; the current stage writes the same text after an `L`. */
  lemma CurrentStageAddsL(m: ClassMapping, order: Class -> seq<Method>, target: string, c: Class,
                          annDesc: string, node: MethodNode, refmap: Refmap, ref: string)
    requires MatchMethodRef(ref).Some? && !Refmaps.IsInitMethod(ref)
    requires
      var (n, d) := MatchMethodRef(ref).value;
      |n| > 0 && |d| > 0 && !Refmaps.IsInitMethod(n) && MethodHash(n, d).value in c.methods
    ensures
      var (n, d) := MatchMethodRef(ref).value;
      var e := Entry(m, c.nameTo, c.methods[MethodHash(n, d).value].nameTo, d);
      && MethodRefStep(m, order, target, c, refmap, ref) == Ok(refmap[ref := e])
      && Refmaps.MethodRefStep(m, order, target, c, annDesc, node, refmap, ref) == Ok(refmap[ref := "L" + e])
  {
    var (n, d) := MatchMethodRef(ref).value;
    var t := c.methods[MethodHash(n, d).value].nameTo;
    Refmaps.ExactEntryWins(m, target, c, refmap, ref, n, d);
    assert Refmaps.MethodTarget(m, c.nameTo, t, d) == "L" + Entry(m, c.nameTo, t, d);
  }

  /** An unmapped reference is recorded all the same, with `null` for the name (the current stage throws). */
  lemma UnmappedShowsNull(m: ClassMapping, order: Class -> seq<Method>, target: string, c: Class,
                          refmap: Refmap, ref: string)
    requires MatchMethodRef(ref).Some?
    requires
      var (n, d) := MatchMethodRef(ref).value;
      |n| > 0 && |d| > 0 && MethodHash(n, d).value !in c.methods
    ensures
      var d := MatchMethodRef(ref).value.1;
      MethodRefStep(m, order, target, c, refmap, ref) == Ok(refmap[ref := c.nameTo + ";null" + RemapDesc(m, d)])
  {
    var (n, d) := MatchMethodRef(ref).value;
    assert NameTo(c, n, d) == None;
    assert Entry(m, c.nameTo, "null", d) == c.nameTo + ";null" + RemapDesc(m, d);
  }

  /** A bare name takes a longer name met first, where the current stage takes the exact name. */
  lemma PrefixBeatsExactName(e1: Method, e2: Method)
    requires e1.nameFrom == "foobar" && e2.nameFrom == "foo"
    ensures FirstPrefixed([e1, e2], "foo") == Some(e1)
    ensures Refmaps.FirstNamed([e1, e2], "foo") == Some(e2)
  {
    assert e1.nameFrom[..3] == "foo";
  }

  // ---- @At targets -------------------------------------------------------------------

  /**
   * `L(.+;)(.+)(\(.*\).+)`: the cuts of the current stage's full method
   * pattern, with the `;` inside the owner group.
   */
  function MatchOwnerWithSemicolon(s: string): (r: Option<(string, string, string)>)
    ensures r.Some? <==> MatchFullMethodRef(s).Some?
    ensures r.Some? ==>
      var (o, n, d) := MatchFullMethodRef(s).value;
      r.value == (o + ";", n, d) && |n| > 0 && |d| > 0
  {
    match FullMethodCuts(s)
    case None => None
    case Some((a, b)) =>
      OwnerCut(s, a, b);
      Some((s[1..a + 1], s[a + 1..b], s[b..]))
  }

  /** The owner cut of a full method reference ends at its `;`. */
  lemma OwnerCut(s: string, a: int, b: int)
    requires FullMethodAt(s, a, b)
    ensures 2 <= a < b <= |s|
    ensures |s[a + 1..b]| > 0 && |s[b..]| > 0
    ensures s[1..a + 1] == s[1..a] + ";"
  {
    SemicolonCut(s, a);
  }

  lemma SemicolonCut(s: string, a: int)
    requires 1 <= a < |s| && s[a] == ';'
    ensures s[1..a + 1] == s[1..a] + ";"
  {
    assert s[1..a + 1] == s[1..a] + [s[a]];
  }

  /**
   * One `@At` target: a full method reference is recorded under its owner's
   * mapping, or under the owner text itself with the name `null` when that
   * lookup misses; any other string is passed over. It never throws.
   */
  function AtTargetStep(m: ClassMapping, refmap: Refmap, ref: string): (r: Result<Refmap>)
    ensures r.Ok?
    ensures MatchFullMethodRef(ref).None? ==> r.value == refmap
    ensures MatchFullMethodRef(ref).Some? ==> ref in r.value && r.value == refmap[ref := r.value[ref]]
  {
    match MatchOwnerWithSemicolon(ref)
    case None => Ok(refmap)
    case Some((o, n, d)) => Ok(refmap[ref := AtEntry(m, o, n, d)])
  }

  /** The entry recorded for the cuts (owner, name, descriptor) of an `@At` target. */
  function AtEntry(m: ClassMapping, o: string, n: string, d: string): string
    requires |n| > 0 && |d| > 0
  {
    var entry := GetClass(m, o);
    var ownerTo := if entry.Some? then entry.value.nameTo else o;
    var nameTo := if entry.Some? then NameTo(entry.value, n, d) else None;
    Entry(m, ownerTo, Shown(nameTo), d)
  }

  /**
   * The owner is looked up with its `;`, which no class name ends with; the
   * target is then recorded as `<owner>;;null<desc>`.
   */
  lemma SemicolonOwnerMissed(m: ClassMapping, refmap: Refmap, ref: string)
    requires MatchFullMethodRef(ref).Some?
    requires GetClass(m, MatchFullMethodRef(ref).value.0 + ";").None?
    ensures
      var (o, _, d) := MatchFullMethodRef(ref).value;
      AtTargetStep(m, refmap, ref) == Ok(refmap[ref := o + ";;null" + RemapDesc(m, d)])
  {
    var (o, _, d) := MatchFullMethodRef(ref).value;
    assert Entry(m, o + ";", "null", d) == o + ";;null" + RemapDesc(m, d);
  }

  /** The `@At` targets never throw, and only add entries. */
  lemma {:induction false} AtTargetsNeverThrow(m: ClassMapping, st: Refmap, targets: seq<string>)
    ensures Fold(AtTargets(m), st, targets).Ok?
    ensures st.Keys <= Fold(AtTargets(m), st, targets).value.Keys
    decreases |targets|
  {
    if |targets| > 0 {
      AtTargetsNeverThrow(m, st, targets[..|targets| - 1]);
    }
  }

  // ---- one injector handler ------------------------------------------------------

  /** `visitArray<AnnotationNode>("at")` filtered to `@At`: the annotations of every `at` array, in order. */
  function AtAnnotations(values: seq<Pair>): (r: seq<Annotation>)
    ensures forall a :: a in r ==> a.desc == Refmaps.AT
  {
    if |values| == 0 then []
    else
      var head := if values[0].name == "at" && values[0].value.Array? then NestedItems(values[0].value.items, Refmaps.AT) else [];
      head + AtAnnotations(values[1..])
  }

  /** One `@At`: its `target` strings, unless it says `remap = false`. */
  function AtStep(m: ClassMapping, refmap: Refmap, at: Annotation): (r: Result<Refmap>)
    ensures r.Ok? && refmap.Keys <= r.value.Keys
    ensures !BoolValue(at.values, "remap", true) ==> r == Ok(refmap)
  {
    if BoolValue(at.values, "remap", true) then
      AtTargetsNeverThrow(m, refmap, StringValues(at.values, "target"));
      Fold(AtTargets(m), refmap, StringValues(at.values, "target"))
    else Ok(refmap)
  }

  lemma {:induction false} AtsNeverThrow(m: ClassMapping, st: Refmap, ats: seq<Annotation>)
    ensures Fold(Ats(m), st, ats).Ok?
    decreases |ats|
  {
    if |ats| > 0 {
      AtsNeverThrow(m, st, ats[..|ats| - 1]);
    }
  }

  /**
   * One method of the mixin in `mapMethods`: without an injector annotation
   * it is passed over; otherwise its method references unless `remap =
   * false`, then each of its `@At` annotations. Only the method references
   * can throw.
   */
  function HandlerStep(m: ClassMapping, order: Class -> seq<Method>, target: string, c: Class,
                       refmap: Refmap, node: MethodNode): (r: Result<Refmap>)
    ensures FindAnyAnnotation(node.annotations, Refmaps.INJECTORS).None? ==> r == Ok(refmap)
    ensures var ann := FindAnyAnnotation(node.annotations, Refmaps.INJECTORS);
      ann.Some? && !BoolValue(ann.value.values, "remap", true) ==> r.Ok?
  {
    match FindAnyAnnotation(node.annotations, Refmaps.INJECTORS)
    case None => Ok(refmap)
    case Some(ann) =>
      var afterMethods :=
        if BoolValue(ann.values, "remap", true) then
          Fold(MethodRefs(m, order, target, c), refmap, StringArray(ann.values, "method"))
        else Ok(refmap);
      match afterMethods
      case Err(e) => Err(e)
      case Ok(st) =>
        AtsNeverThrow(m, st, AtAnnotations(ann.values));
        Fold(Ats(m), st, AtAnnotations(ann.values))
  }

  // ---- @Invoker and @Accessor --------------------------------------------------------

  /** The name after the first prefix it starts with, as the earlier invoker rule takes it: not lowercased. */
  function Stripped(name: string, prefixes: seq<string>): (r: Option<string>)
    ensures r.None? <==> forall i :: 0 <= i < |prefixes| ==> !StartsWith(name, prefixes[i])
    ensures r.Some? ==>
      exists i :: 0 <= i < |prefixes| && StartsWith(name, prefixes[i]) && r.value == name[|prefixes[i]|..]
  {
    if |prefixes| == 0 then None
    else if StartsWith(name, prefixes[0]) then Some(name[|prefixes[0]|..])
    else
      var r := Stripped(name, prefixes[1..]);
      assert forall i :: 0 <= i < |prefixes| - 1 ==> prefixes[1..][i] == prefixes[i + 1];
      r
  }

  /** The current rule lowers the first letter of what the earlier one strips. */
  lemma {:induction false} DerivedLowersStripped(name: string, prefixes: seq<string>)
    ensures Refmaps.Derived(name, prefixes) ==
      match Stripped(name, prefixes)
      case None => None
      case Some(s) => Some(Refmaps.LowerFirst(s))
    decreases |prefixes|
  {
    if |prefixes| > 0 && !StartsWith(name, prefixes[0]) {
      DerivedLowersStripped(name, prefixes[1..]);
    }
  }

  /**
   * The flat `values` walk of the earlier stage, as written: it reads
   * `annotation.values.size` without a null check, and ASM leaves `values`
   * null on an annotation without elements.
   */
  function AsWrittenNameValue(values: seq<Pair>): (r: Result<Option<string>>)
    ensures |values| == 0 ==> r.Err?
    ensures |values| > 0 ==> r == Refmaps.InvokerValue(values)
  {
    if |values| == 0 then Err("NullPointerException") else Refmaps.InvokerValue(values)
  }

  /**
   * An `@Invoker` once its `value` has been read: the given name, else the
   * handler's name without `invoke`/`call`; recorded under the handler's own
   * name, and passed over when the target class does not map that method.
   */
  function InvokerEntry(m: ClassMapping, c: Class, refmap: Refmap, node: MethodNode,
                        given: Result<Option<string>>): (r: Result<Refmap>)
    ensures r.Ok? ==> r.value == refmap || (node.name in r.value && r.value == refmap[node.name := r.value[node.name]])
  {
    match given
    case Err(e) => Err(e)
    case Ok(v) =>
      var nameFrom := if v.Some? then v else Stripped(node.name, ["invoke", "call"]);
      if nameFrom.None? then Err("Cannot find name for invoker " + node.name)
      else
        match MethodNameTo(c.methods, nameFrom.value, node.desc)
        case Err(e) => Err(e)
        case Ok(None) => Ok(refmap)
        case Ok(Some(t)) => Ok(refmap[node.name := t + RemapDesc(m, node.desc)])
  }

  /** One method of the mixin in `mapAccessors`' invoker loop, with an element-less annotation read as having no `value`. */
  function InvokerStep(m: ClassMapping, c: Class, refmap: Refmap, node: MethodNode): (r: Result<Refmap>)
    ensures FindAnnotation(node.annotations, Refmaps.INVOKER).None? ==> r == Ok(refmap)
  {
    match FindAnnotation(node.annotations, Refmaps.INVOKER)
    case None => Ok(refmap)
    case Some(inv) => InvokerEntry(m, c, refmap, node, Refmaps.InvokerValue(inv.values))
  }

  /**
   * An `@Accessor` once its `value` has been read: the given name, else the
   * name without `get`/`set`, first letter lowered; recorded under the
   * annotated member's name as `<nameTo>:<classTo>`, and passed over when the
   * target class does not map that field.
   */
  function AccessorEntry(c: Class, refmap: Refmap, name: string, given: Result<Option<string>>): (r: Result<Refmap>)
    ensures r.Ok? ==> r.value == refmap || (name in r.value && r.value == refmap[name := r.value[name]])
  {
    match given
    case Err(e) => Err(e)
    case Ok(v) =>
      var nameFrom := if v.Some? then v else Refmaps.Derived(name, ["get", "set"]);
      if nameFrom.None? then Err("Cannot find name for accessor " + name)
      else
        match FieldNameTo(c.fields, nameFrom.value)
        case None => Ok(refmap)
        case Some(t) => Ok(refmap[name := t + ":" + c.nameTo])
  }

  /** One field of the mixin in `mapAccessors`' accessor loop, which walks the fields, not the methods. */
  function AccessorStep(c: Class, refmap: Refmap, field: FieldNode): (r: Result<Refmap>)
    ensures FindAnnotation(field.annotations, Refmaps.ACCESSOR).None? ==> r == Ok(refmap)
  {
    match FindAnnotation(field.annotations, Refmaps.ACCESSOR)
    case None => Ok(refmap)
    case Some(acc) => AccessorEntry(c, refmap, field.name, Refmaps.InvokerValue(acc.values))
  }

  /** As written, an `@Invoker` or `@Accessor` without elements throws before its name is derived. */
  lemma ElementlessAnnotationThrows(m: ClassMapping, c: Class, refmap: Refmap, node: MethodNode, field: FieldNode)
    ensures InvokerEntry(m, c, refmap, node, AsWrittenNameValue([])).Err?
    ensures AccessorEntry(c, refmap, field.name, AsWrittenNameValue([])).Err?
  {
  }

  /** Read as having no `value`, an element-less `@Invoker` on `invoke<rest>` maps the method `<rest>`. */
  lemma ElementlessInvokerDerived(m: ClassMapping, c: Class, refmap: Refmap, node: MethodNode, rest: string, t: string)
    requires FindAnnotation(node.annotations, Refmaps.INVOKER) == Some(Annotation(Refmaps.INVOKER, []))
    requires node.name == "invoke" + rest && MethodNameTo(c.methods, rest, node.desc) == Ok(Some(t))
    ensures InvokerStep(m, c, refmap, node) == Ok(refmap[node.name := t + RemapDesc(m, node.desc)])
  {
    assert node.name[..6] == "invoke" && node.name[6..] == rest;
  }

  /** Read as having no `value`, an element-less `@Accessor` on `get<Rest>` maps the field `<rest>`. */
  lemma ElementlessAccessorDerived(c: Class, refmap: Refmap, field: FieldNode, rest: string, t: string)
    requires FindAnnotation(field.annotations, Refmaps.ACCESSOR) == Some(Annotation(Refmaps.ACCESSOR, []))
    requires |rest| > 0 && field.name == "get" + rest && FieldNameTo(c.fields, Refmaps.LowerFirst(rest)) == Some(t)
    ensures AccessorStep(c, refmap, field) == Ok(refmap[field.name := t + ":" + c.nameTo])
  {
    Refmaps.DerivedNames(rest);
  }

  // ---- one target class, one mixin class ------------------------------------------------

  /** The work for one target class: its entry must exist; then the handlers, the invokers and the accessors. */
  function TargetStep(m: ClassMapping, order: Class -> seq<Method>, node: ClassNode,
                      refmap: Refmap, target: string): (r: Result<Refmap>)
    ensures GetClass(m, target).None? ==> r.Err?
    ensures GetClass(m, target).Some? && node.methods == [] && node.fields == [] ==> r == Ok(refmap)
  {
    match GetClass(m, target)
    case None => Err("Cannot find mapping for target class " + target + " at " + node.name)
    case Some(c) =>
      match Fold(Handlers(m, order, target, c), refmap, node.methods)
      case Err(e) => Err(e)
      case Ok(s1) =>
        match Fold(Invokers(m, c), s1, node.methods)
        case Err(e) => Err(e)
        case Ok(s2) => Fold(Accessors(c), s2, node.fields)
  }

  /** `Type.getClassName`: the internal name with `/` written as `.`. */
  function ClassName(internalName: string): (r: string)
    ensures |r| == |internalName|
    ensures forall i :: 0 <= i < |r| ==> r[i] == (if internalName[i] == '/' then '.' else internalName[i])
  {
    seq(|internalName|, i requires 0 <= i < |internalName| => if internalName[i] == '/' then '.' else internalName[i])
  }

  function ClassNames(names: seq<string>): (r: seq<string>)
    ensures |r| == |names| && forall i :: 0 <= i < |names| ==> r[i] == ClassName(names[i])
  {
    seq(|names|, i requires 0 <= i < |names| => ClassName(names[i]))
  }

  /** The target classes as written: the `value` types by their dotted class name, then the `targets` strings. */
  function AsWrittenTargetClasses(ann: Annotation): (r: seq<string>)
    ensures r == ClassNames(TypeArray(ann.values, "value")) + StringArray(ann.values, "targets")
  {
    ClassNames(TypeArray(ann.values, "value")) + StringArray(ann.values, "targets")
  }

  /** The refmap of one mixin over the given target classes: empty when it says `remap = false`. */
  function MixinRefmap(m: ClassMapping, order: Class -> seq<Method>, node: ClassNode, ann: Annotation,
                       targets: seq<string>): (r: Result<Refmap>)
    ensures !BoolValue(ann.values, "remap", true) ==> r == Ok(map[])
    ensures BoolValue(ann.values, "remap", true) && (exists i :: 0 <= i < |targets| && GetClass(m, targets[i]).None?) ==> r.Err?
  {
    if !BoolValue(ann.values, "remap", true) then Ok(map[])
    else
      var r := Fold(Targets(m, order, node), map[], targets);
      if exists i :: 0 <= i < |targets| && GetClass(m, targets[i]).None? then
        var i :| 0 <= i < |targets| && GetClass(m, targets[i]).None?;
        FoldFailsAt(Targets(m, order, node), map[], targets, i);
        r
      else r
  }

  /**
   * One class of the jar: a mixin gets a refmap over its target classes by
   * internal name, and a second mixin of the same name throws.
   */
  function ClassStep(m: ClassMapping, order: Class -> seq<Method>, refmaps: map<string, Refmap>,
                     node: ClassNode): (r: Result<map<string, Refmap>>)
    ensures FindMixinAnnotation(node).None? ==> r == Ok(refmaps)
    ensures FindMixinAnnotation(node).Some? && node.name in refmaps ==> r.Err?
    ensures r.Ok? ==> r.value.Keys == refmaps.Keys + (if IsMixin(node) then {node.name} else {})
    ensures r.Ok? ==> forall k :: k in refmaps ==> r.value[k] == refmaps[k]
  {
    match FindMixinAnnotation(node)
    case None => Ok(refmaps)
    case Some(ann) =>
      if node.name in refmaps then Err("Duplicate mixin class " + node.name)
      else
        match MixinRefmap(m, order, node, ann, Refmaps.TargetClasses(ann))
        case Err(e) => Err(e)
        case Ok(rm) => Ok(refmaps[node.name := rm])
  }

  /** The refmaps the earlier stage builds, keyed by mixin class name. */
  function RefmapsOf(m: ClassMapping, order: Class -> seq<Method>, classes: seq<ClassNode>): Result<map<string, Refmap>> {
    Fold(Classes(m, order), map[], classes)
  }

  /**
   * As written, a `value` class is looked up under its dotted name: a mixin
   * of a class the mapping holds only under its internal name throws.
   */
  lemma DottedValueTargetThrows(m: ClassMapping, order: Class -> seq<Method>, node: ClassNode, ann: Annotation, t: string)
    requires BoolValue(ann.values, "remap", true) && t in TypeArray(ann.values, "value")
    requires GetClass(m, ClassName(t)).None?
    ensures MixinRefmap(m, order, node, ann, AsWrittenTargetClasses(ann)).Err?
  {
    var types := TypeArray(ann.values, "value");
    var i :| 0 <= i < |types| && types[i] == t;
    assert AsWrittenTargetClasses(ann)[i] == ClassName(t);
  }

  /** By internal name, a `@Mixin(B.class)` whose class is mapped reaches its members. */
  lemma InternalNameTargetFound(m: ClassMapping, order: Class -> seq<Method>, node: ClassNode, t: string)
    requires GetClass(m, t).Some? && node.methods == [] && node.fields == []
    ensures
      var ann := Annotation(MIXIN, [Pair("value", Array([TypeRef(t)]))]);
      MixinRefmap(m, order, node, ann, Refmaps.TargetClasses(ann)) == Ok(map[])
  {
    var ann := Annotation(MIXIN, [Pair("value", Array([TypeRef(t)]))]);
    assert Types([TypeRef(t)]) == [t] by {
      assert [TypeRef(t)][1..] == [];
    }
    assert TypeArray(ann.values, "value") == [t] by {
      assert ann.values[1..] == [];
    }
    assert StringArray(ann.values, "targets") == [] by {
      assert ann.values[1..] == [];
    }
    assert Refmaps.TargetClasses(ann) == [t];
    var step := Targets(m, order, node);
    assert [t][..0] == [];
    assert Fold(step, map[], [t]) == step(map[], t);
  }

  // ---- the steps as values, for the walks ------------------------------------------------

  function MethodRefs(m: ClassMapping, order: Class -> seq<Method>, target: string, c: Class): (Refmap, string) -> Result<Refmap> {
    (st, ref) => MethodRefStep(m, order, target, c, st, ref)
  }

  function AtTargets(m: ClassMapping): (Refmap, string) -> Result<Refmap> {
    (st, ref) => AtTargetStep(m, st, ref)
  }

  function Ats(m: ClassMapping): (Refmap, Annotation) -> Result<Refmap> {
    (st, at) => AtStep(m, st, at)
  }

  function Handlers(m: ClassMapping, order: Class -> seq<Method>, target: string, c: Class): (Refmap, MethodNode) -> Result<Refmap> {
    (st, mn) => HandlerStep(m, order, target, c, st, mn)
  }

  function Invokers(m: ClassMapping, c: Class): (Refmap, MethodNode) -> Result<Refmap> {
    (st, mn) => InvokerStep(m, c, st, mn)
  }

  function Accessors(c: Class): (Refmap, FieldNode) -> Result<Refmap> {
    (st, f) => AccessorStep(c, st, f)
  }

  function Targets(m: ClassMapping, order: Class -> seq<Method>, node: ClassNode): (Refmap, string) -> Result<Refmap> {
    (st, t) => TargetStep(m, order, node, st, t)
  }

  function Classes(m: ClassMapping, order: Class -> seq<Method>): (map<string, Refmap>, ClassNode) -> Result<map<string, Refmap>> {
    (st, node) => ClassStep(m, order, st, node)
  }

  // ---- the class loop, as the stage runs it -----------------------------------------------

  /** The class loop of `run`. */
  method GenerateRefmaps(m: ClassMapping, order: Class -> seq<Method>, classes: seq<ClassNode>)
    returns (r: Result<map<string, Refmap>>)
    ensures r == RefmapsOf(m, order, classes)
  {
    var refmaps: map<string, Refmap> := map[];
    for i := 0 to |classes|
      invariant Fold(Classes(m, order), map[], classes[..i]) == Ok(refmaps)
    {
      var step := Classes(m, order);
      FoldNext(step, map[], classes, i, refmaps);
      var next := ClassStep(m, order, refmaps, classes[i]);
      if next.Err? {
        FoldStops(step, map[], classes, i, refmaps);
        return Err(next.msg);
      }
      refmaps := next.value;
    }
    assert classes[..|classes|] == classes;
    r := Ok(refmaps);
  }
}
