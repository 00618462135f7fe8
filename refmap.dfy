/**
 * The refmap stage of the current generation: every string reference in the
 * injector, `@At`, `@Invoker` and `@Accessor` annotations of a mixin class is
 * resolved against the class mapping of its target classes, and the mapped
 * form is recorded in that mixin's refmap under the reference as written.
 * A thrown exception is an `Err` that ends the stage.
 */
module Refmaps {
  import opened Wrappers
  import opened Jvm
  import opened Text
  import opened Mappings
  import opened Descriptors
  import opened Asm
  import opened Folds
  import opened Patterns

  /** One mixin class's refmap: each reference as written, and what it maps to. */
  type Refmap = map<string, string>

  const INJECT := "Lorg/spongepowered/asm/mixin/injection/Inject;"
  const INJECTORS: set<string> := {
    INJECT,
    "Lorg/spongepowered/asm/mixin/injection/ModifyArg;",
    "Lorg/spongepowered/asm/mixin/injection/ModifyArgs;",
    "Lorg/spongepowered/asm/mixin/injection/ModifyConstant;",
    "Lorg/spongepowered/asm/mixin/injection/ModifyVariable;",
    "Lorg/spongepowered/asm/mixin/injection/Redirect;"
  }
  const AT := "Lorg/spongepowered/asm/mixin/injection/At;"
  const INVOKER := "Lorg/spongepowered/asm/mixin/gen/Invoker;"
  const ACCESSOR := "Lorg/spongepowered/asm/mixin/gen/Accessor;"

  /** `isInitMethod`: a constructor or a static initialiser. */
  predicate IsInitMethod(name: string) { name == "<init>" || name == "<clinit>" }

  /** The form every resolved method reference takes: `L<owner>;<name><desc>`. */
  function MethodTarget(m: ClassMapping, ownerTo: string, nameTo: string, descFrom: string): string {
    "L" + ownerTo + ";" + nameTo + RemapDesc(m, descFrom)
  }

  // ---- mapMethodRef ----------------------------------------------------------------

  /** An entry of the given name whose descriptor ends with the return type. */
  predicate Candidate(e: Method, name: string, returnType: string) {
    e.nameFrom == name && EndsWith(e.desc, returnType)
  }

  /** The `backingMap.filter { … }` of the `()` fallback, by fingerprint. */
  function Candidates(t: Table<Method>, name: string, returnType: string): set<U64> {
    set h | h in t && Candidate(t[h], name, returnType)
  }

  lemma SingletonMembers<E>(s: set<E>)
    requires |s| == 1
    ensures forall a, b :: a in s && b in s ==> a == b
  {
    forall a, b | a in s && b in s ensures a == b {
      var rest := s - {a};
      assert |rest| == 0;
    }
  }

  /** `candidates[0]` when `candidates.size == 1`. */
  function OnlyCandidate(t: Table<Method>, name: string, returnType: string): (r: Option<Method>)
    ensures r.Some? <==> |Candidates(t, name, returnType)| == 1
    ensures r.Some? ==> exists h :: Candidates(t, name, returnType) == {h} && r.value == t[h]
  {
    var cs := Candidates(t, name, returnType);
    if |cs| == 1 then
      SingletonMembers(cs);
      var h :| h in cs;
      assert cs == {h};
      Some(t[h])
    else None
  }

  /**
   * One lookup pass of `mapMethodRef`: the entry under (name, desc); on a miss
   * with a `()` descriptor, the one entry of that name whose descriptor ends
   * with the return type, if there is exactly one. The answer is the mapped
   * name and the descriptor the reference is then taken to have.
   */
  function Pass(c: Class, name: string, desc: string): (r: Result<Option<(string, string)>>)
    ensures r.Err? <==> |name| == 0 || |desc| == 0
    ensures r.Ok? && MethodHash(name, desc).value in c.methods ==>
      r.value == Some((c.methods[MethodHash(name, desc).value].nameTo, desc))
    ensures r.Ok? && MethodHash(name, desc).value !in c.methods ==>
      (r.value.Some? <==> StartsWith(desc, "()") && |Candidates(c.methods, name, desc[2..])| == 1)
    ensures r.Ok? && MethodHash(name, desc).value !in c.methods && r.value.Some? ==>
      exists h :: Candidates(c.methods, name, desc[2..]) == {h} && r.value.value == (c.methods[h].nameTo, c.methods[h].desc)
  {
    match MethodNameTo(c.methods, name, desc)
    case Err(e) => Err(e)
    case Ok(Some(t)) => Ok(Some((t, desc)))
    case Ok(None) =>
      if StartsWith(desc, "()") then
        match OnlyCandidate(c.methods, name, desc[2..])
        case None => Ok(None)
        case Some(e) => Ok(Some((e.nameTo, e.desc)))
      else Ok(None)
  }

  /** Both passes: the descriptor as written, then with boxed `java/lang` types as primitives. */
  function Resolve(c: Class, name: string, desc: string): (r: Result<Option<(string, string)>>)
    ensures IsInitMethod(name) ==> r == Ok(Some((name, desc)))
    ensures !IsInitMethod(name) && Pass(c, name, desc).Ok? && Pass(c, name, desc).value.Some? ==> r == Pass(c, name, desc)
    ensures !IsInitMethod(name) && Pass(c, name, desc) == Ok(None) ==> r == Pass(c, name, MapToPrimitive(desc))
  {
    if IsInitMethod(name) then Ok(Some((name, desc)))
    else
      match Pass(c, name, desc)
      case Err(e) => Err(e)
      case Ok(Some(p)) => Ok(Some(p))
      case Ok(None) => Pass(c, name, MapToPrimitive(desc))
  }

  /**
   * `mapMethodRef`: records `ref` as `L<classTo>;<nameTo><remapped desc>`, or
   * throws when neither pass resolves it.
   */
  function MapMethodRef(m: ClassMapping, target: string, c: Class, refmap: Refmap,
                        ref: string, name: string, desc: string): (r: Result<Refmap>)
    ensures r.Ok? <==> Resolve(c, name, desc).Ok? && Resolve(c, name, desc).value.Some?
    ensures r.Ok? ==>
      var p := Resolve(c, name, desc).value.value;
      r.value == refmap[ref := MethodTarget(m, c.nameTo, p.0, p.1)]
  {
    match Resolve(c, name, desc)
    case Err(e) => Err(e)
    case Ok(None) => Err("Cannot find mapping for method " + ref + " in " + target)
    case Ok(Some(p)) => Ok(refmap[ref := MethodTarget(m, c.nameTo, p.0, p.1)])
  }

  /** `<init>` and `<clinit>` map to themselves whatever the method table holds. */
  lemma InitMapsToItself(m: ClassMapping, target: string, c: Class, refmap: Refmap, ref: string, name: string, desc: string)
    requires IsInitMethod(name)
    ensures MapMethodRef(m, target, c, refmap, ref, name, desc) == Ok(refmap[ref := MethodTarget(m, c.nameTo, name, desc)])
    ensures forall c': Class :: c'.nameTo == c.nameTo ==> MapMethodRef(m, target, c', refmap, ref, name, desc) == MapMethodRef(m, target, c, refmap, ref, name, desc)
  {
  }

  /** The exact entry wins over every fallback. */
  lemma ExactEntryWins(m: ClassMapping, target: string, c: Class, refmap: Refmap, ref: string, name: string, desc: string)
    requires !IsInitMethod(name) && |name| > 0 && |desc| > 0
    requires MethodHash(name, desc).value in c.methods
    ensures MapMethodRef(m, target, c, refmap, ref, name, desc) ==
      Ok(refmap[ref := MethodTarget(m, c.nameTo, c.methods[MethodHash(name, desc).value].nameTo, desc)])
  {
  }

  /** A `()` reference that misses takes the one entry with that name and return type, and its descriptor. */
  lemma UniqueCandidateUsed(m: ClassMapping, target: string, c: Class, refmap: Refmap,
                            ref: string, name: string, ret: string, h: U64)
    requires !IsInitMethod(name) && |name| > 0 && |ret| > 0
    requires MethodHash(name, "()" + ret).value !in c.methods
    requires Candidates(c.methods, name, ret) == {h}
    ensures MapMethodRef(m, target, c, refmap, ref, name, "()" + ret) ==
      Ok(refmap[ref := MethodTarget(m, c.nameTo, c.methods[h].nameTo, c.methods[h].desc)])
  {
    var desc := "()" + ret;
    assert desc[..2] == "()" && desc[2..] == ret;
    var r := Pass(c, name, desc);
    assert r.value.Some?;
  }

  /** Two or more candidates (or none) are no answer: the primitive pass decides. */
  lemma AmbiguousFallsThrough(c: Class, name: string, ret: string)
    requires !IsInitMethod(name) && |name| > 0 && |ret| > 0
    requires MethodHash(name, "()" + ret).value !in c.methods
    requires |Candidates(c.methods, name, ret)| != 1
    ensures Resolve(c, name, "()" + ret) == Pass(c, name, MapToPrimitive("()" + ret))
  {
    var desc := "()" + ret;
    assert desc[..2] == "()" && desc[2..] == ret;
  }

  /** Nothing in either pass: the reference throws. */
  lemma UnresolvedThrows(m: ClassMapping, target: string, c: Class, refmap: Refmap, ref: string, name: string, desc: string)
    requires !IsInitMethod(name) && Pass(c, name, desc) == Ok(None) && Pass(c, name, MapToPrimitive(desc)) == Ok(None)
    ensures MapMethodRef(m, target, c, refmap, ref, name, desc).Err?
  {
  }

  // ---- findDesc ------------------------------------------------------------------------

  /** The return type `findDesc` reads from a generic signature: `CallbackInfoReturnable<T>`'s T without type arguments, else `V`. */
  function ReturnFromSignature(signature: Option<string>): (r: string)
    ensures signature.None? ==> r == "V"
    ensures signature.Some? && MatchReturnable(signature.value).None? ==> r == "V"
    ensures signature.Some? && MatchReturnable(signature.value).Some? ==> r == StripTypeParams(MatchReturnable(signature.value).value)
  {
    match signature
    case None => "V"
    case Some(s) =>
      match MatchReturnable(s)
      case None => "V"
      case Some(t) => StripTypeParams(t)
  }

  /** `findDesc`: the target's descriptor, rebuilt from a callback handler's descriptor and signature. */
  function FindDesc(node: MethodNode): (r: Option<string>)
    ensures r.Some? <==> exists k :: CallbackAt(node.desc, k)
    ensures r.Some? ==>
      exists k :: CallbackAt(node.desc, k) && (forall j :: k < j ==> !CallbackAt(node.desc, j)) &&
        r.value == "(" + node.desc[1..k] + ")" + ReturnFromSignature(node.signature)
  {
    match MatchCallbackParams(node.desc)
    case None => None
    case Some(params) => Some("(" + params + ")" + ReturnFromSignature(node.signature))
  }

  /** No later `L` can begin another `CallbackInfo` before the string runs out. */
  lemma CallbackTail(s: string, k: int)
    requires CallbackAt(s, k) && s[k + |CALLBACK_INFO|..] == ";)V"
    ensures forall j :: k < j ==> !CallbackAt(s, j)
  {
    assert s[k..k + |CALLBACK_INFO|] == CALLBACK_INFO;
    forall j | k < j ensures !CallbackAt(s, j) {
    }
  }

  /** The last `CallbackInfo` that matches fixes the parameters. */
  lemma CallbackParamsOf(s: string, k: int)
    requires CallbackAt(s, k) && forall j :: k < j ==> !CallbackAt(s, j)
    ensures MatchCallbackParams(s) == Some(s[1..k])
  {
  }

  /** `(<params>CallbackInfo;)V` matches with the parameters `params`. */
  lemma VoidHandlerMatches(params: string)
    requires AllDot(params)
    ensures CallbackAt("(" + params + CALLBACK_INFO + ";)V", |params| + 1)
    ensures ("(" + params + CALLBACK_INFO + ";)V")[|params| + 1 + |CALLBACK_INFO|..] == ";)V"
    ensures ("(" + params + CALLBACK_INFO + ";)V")[1..|params| + 1] == params
  {
    var s := "(" + params + CALLBACK_INFO + ";)V";
    var k := |params| + 1;
    var pre := "(" + params + CALLBACK_INFO;
    assert s == pre + ";)V";
    assert s[1..k] == params;
    assert s[k..k + |CALLBACK_INFO|] == CALLBACK_INFO;
    var t := s[|pre|..];
    assert t == ";)V";
    assert t[0] == ';' && t[1] == ')';
  }

  /** A void `@Inject` handler `(<params>CallbackInfo;)V` without a signature targets `(<params>)V`. */
  lemma FindDescOfVoidHandler(params: string, name: string)
    requires AllDot(params)
    ensures FindDesc(MethodNode(name, "(" + params + CALLBACK_INFO + ";)V", None, [])) == Some("(" + params + ")V")
  {
    var s := "(" + params + CALLBACK_INFO + ";)V";
    var k := |params| + 1;
    VoidHandlerMatches(params);
    CallbackTail(s, k);
    CallbackParamsOf(s, k);
    var node := MethodNode(name, s, None, []);
    assert MatchCallbackParams(node.desc) == Some(params);
    assert ReturnFromSignature(node.signature) == "V";
    assert "(" + params + ")" + "V" == "(" + params + ")V";
  }

  // ---- the method references of one handler ------------------------------------------

  /** `backingMap.find { it.nameFrom == name }` over the entries in iteration order. */
  function FirstNamed(entries: seq<Method>, name: string): (r: Option<Method>)
    ensures r.Some? <==> exists i :: 0 <= i < |entries| && entries[i].nameFrom == name
    ensures r.Some? ==>
      exists i :: 0 <= i < |entries| && entries[i] == r.value && r.value.nameFrom == name &&
        forall j :: 0 <= j < i ==> entries[j].nameFrom != name
  {
    if |entries| == 0 then None
    else if entries[0].nameFrom == name then Some(entries[0])
    else
      var r := FirstNamed(entries[1..], name);
      assert forall i :: 0 <= i < |entries| - 1 ==> entries[1..][i] == entries[i + 1];
      r
  }

  /**
   * One string of an injector's `method` array. `order(c)` is the iteration
   * order of `c`'s method table, which a bare name's `find` depends on.
   */
  function MethodRefStep(m: ClassMapping, order: Class -> seq<Method>, target: string, c: Class,
                         annDesc: string, node: MethodNode, refmap: Refmap, ref: string): (r: Result<Refmap>)
    ensures IsInitMethod(ref) ==> r == MapMethodRef(m, target, c, refmap, ref, ref, "")
    ensures !IsInitMethod(ref) && MatchMethodRef(ref).Some? ==>
      r == MapMethodRef(m, target, c, refmap, ref, MatchMethodRef(ref).value.0, MatchMethodRef(ref).value.1)
    ensures !IsInitMethod(ref) && MatchMethodRef(ref).None? && Wildcard(ref) && annDesc != INJECT ==> r.Err?
    ensures !IsInitMethod(ref) && MatchMethodRef(ref).None? && annDesc == INJECT && FindDesc(node).None? ==> r.Err?
    ensures !IsInitMethod(ref) && MatchMethodRef(ref).None? && !Wildcard(ref) && annDesc != INJECT ==>
      (r.Ok? ==> FirstNamed(order(c), RemoveStar(ref)).Some?)
    ensures r.Ok? ==> refmap.Keys <= r.value.Keys
  {
    if IsInitMethod(ref) then MapMethodRef(m, target, c, refmap, ref, ref, "")
    else
      match MatchMethodRef(ref)
      case Some((name, desc)) => MapMethodRef(m, target, c, refmap, ref, name, desc)
      case None =>
        if Wildcard(ref) || annDesc == INJECT then
          if annDesc != INJECT then Err("Wildcard method reference is only allowed for @Inject")
          else
            match FindDesc(node)
            case None => Err("Cannot find desc for method " + node.name + " at " + target)
            case Some(desc) => MapMethodRef(m, target, c, refmap, ref, RemoveStar(ref), desc)
        else
          match FirstNamed(order(c), RemoveStar(ref))
          case None => Err("Cannot find mapping for method " + ref + " in " + target)
          case Some(e) => MapMethodRef(m, target, c, refmap, ref, e.nameFrom, e.desc)
  }

  // ---- @At targets -------------------------------------------------------------------

  /** `ref.replace('.', '/')`. */
  function DotsToSlashes(s: string): (r: string)
    ensures |r| == |s| && forall i :: 0 <= i < |s| ==> r[i] == (if s[i] == '.' then '/' else s[i])
  {
    seq(|s|, i requires 0 <= i < |s| => if s[i] == '.' then '/' else s[i])
  }

  /**
   * One `@At` target: a full method reference, else a full field reference,
   * both resolved in their owner's entry; else a class name, recorded only
   * when mapped.
   */
  function AtTargetStep(m: ClassMapping, target: string, refmap: Refmap, ref: string): (r: Result<Refmap>)
    ensures MatchFullMethodRef(ref).Some? ==>
      var (o, n, d) := MatchFullMethodRef(ref).value;
      (r.Ok? <==> GetClass(m, o).Some? && MethodNameTo(GetClass(m, o).value.methods, n, d).Ok? &&
                  MethodNameTo(GetClass(m, o).value.methods, n, d).value.Some?) &&
      (r.Ok? ==> r.value == refmap[ref := MethodTarget(m, GetClass(m, o).value.nameTo,
                                                       MethodNameTo(GetClass(m, o).value.methods, n, d).value.value, d)])
    ensures MatchFullMethodRef(ref).None? && MatchFullFieldRef(ref).Some? ==>
      var (o, n, d) := MatchFullFieldRef(ref).value;
      (r.Ok? <==> GetClass(m, o).Some? && FieldNameTo(GetClass(m, o).value.fields, n).Some?) &&
      (r.Ok? ==> r.value == refmap[ref := "L" + GetClass(m, o).value.nameTo + ";" +
                                          FieldNameTo(GetClass(m, o).value.fields, n).value + ":" + RemapDesc(m, d)])
    ensures MatchFullMethodRef(ref).None? && MatchFullFieldRef(ref).None? ==>
      r == Ok(match ClassNameTo(m, DotsToSlashes(ref))
              case Some(t) => refmap[ref := t]
              case None => refmap)
  {
    match MatchFullMethodRef(ref)
    case Some((o, n, d)) =>
      (match GetClass(m, o)
       case None => Err("Cannot find mapping for target class " + o + " at " + target)
       case Some(tc) =>
         match MethodNameTo(tc.methods, n, d)
         case Err(e) => Err(e)
         case Ok(None) => Err("Cannot find mapping for method " + n + d + " in " + target)
         case Ok(Some(t)) => Ok(refmap[ref := MethodTarget(m, tc.nameTo, t, d)]))
    case None =>
      match MatchFullFieldRef(ref)
      case Some((o, n, d)) =>
        (match GetClass(m, o)
         case None => Err("Cannot find mapping for target class " + o + " at " + target)
         case Some(tc) =>
           match FieldNameTo(tc.fields, n)
           case None => Err("Cannot find mapping for field " + n + " in " + target)
           case Some(t) => Ok(refmap[ref := "L" + tc.nameTo + ";" + t + ":" + RemapDesc(m, d)]))
      case None =>
        match ClassNameTo(m, DotsToSlashes(ref))
        case Some(t) => Ok(refmap[ref := t])
        case None => Ok(refmap)
  }

  /** A plain class name in dotted form is recorded under its slashed mapping, and nothing else changes. */
  lemma DottedClassTarget(m: ClassMapping, target: string, refmap: Refmap, ref: string)
    requires ref != [] && ref[0] != 'L'
    requires ClassNameTo(m, DotsToSlashes(ref)).Some?
    ensures AtTargetStep(m, target, refmap, ref) == Ok(refmap[ref := ClassNameTo(m, DotsToSlashes(ref)).value])
  {
  }

  // ---- one injector handler ------------------------------------------------------

  /** The values of every `@At` of the handler, in order. */
  function AtValues(ats: seq<Annotation>): seq<Pair> {
    if |ats| == 0 then [] else AtValues(ats[..|ats| - 1]) + ats[|ats| - 1].values
  }

  /** The handler's reading of its injector annotation: the `method` references and the `@At` targets, each with its `remap` flag. */
  datatype Handler = Handler(remapMethods: bool, methods: seq<string>, remapTargets: bool, targets: seq<string>)

  function ReadHandler(ann: Annotation): (r: Handler)
    ensures r.methods == StringArray(ann.values, "method")
    ensures (forall i :: 0 <= i < |ann.values| ==> ann.values[i].name != "remap") ==> r.remapMethods
  {
    var ats := AtValues(NestedAnnotations(ann.values, "at", AT));
    Handler(BoolValue(ann.values, "remap", true), StringArray(ann.values, "method"),
            BoolValue(ats, "remap", true), StringValues(ats, "target"))
  }

  /**
   * One method of the mixin in `mapMethods`: methods without an injector
   * annotation are passed over; otherwise its method references, then its
   * `@At` targets, each unless switched off by `remap = false`.
   */
  function HandlerStep(m: ClassMapping, order: Class -> seq<Method>, target: string, c: Class,
                       refmap: Refmap, node: MethodNode): (r: Result<Refmap>)
    ensures FindAnyAnnotation(node.annotations, INJECTORS).None? ==> r == Ok(refmap)
  {
    match FindAnyAnnotation(node.annotations, INJECTORS)
    case None => Ok(refmap)
    case Some(ann) =>
      var h := ReadHandler(ann);
      var afterMethods :=
        if h.remapMethods then
          Fold(MethodRefs(m, order, target, c, ann.desc, node), refmap, h.methods)
        else Ok(refmap);
      match afterMethods
      case Err(e) => Err(e)
      case Ok(st) =>
        if h.remapTargets then Fold(AtTargets(m, target), st, h.targets)
        else Ok(st)
  }

  // ---- @Invoker and @Accessor --------------------------------------------------------

  /** `replaceFirstChar(Char::lowercaseChar)`. */
  function LowerFirst(s: string): (r: string)
    ensures |s| > 0 ==> |r| == |s| && r[0] == LowerChar(s[0]) && r[1..] == s[1..]
  {
    if |s| == 0 then s else [LowerChar(s[0])] + s[1..]
  }

  /** The flat `values` walk of an invoker: the last `"value"` element, which must be a string. */
  function InvokerValue(values: seq<Pair>): (r: Result<Option<string>>)
    ensures (forall i :: 0 <= i < |values| ==> values[i].name != "value") ==> r == Ok(None)
    decreases |values|
  {
    if |values| == 0 then Ok(None)
    else
      match InvokerValue(values[..|values| - 1])
      case Err(e) => Err(e)
      case Ok(prev) =>
        var p := values[|values| - 1];
        if p.name != "value" then Ok(prev)
        else if p.value.Str? then Ok(Some(p.value.s))
        else Err("ClassCastException")
  }

  /** The name a prefix-named handler stands for: the rest after `prefix`, first letter lowered. */
  function Derived(name: string, prefixes: seq<string>): Option<string> {
    if |prefixes| == 0 then None
    else if StartsWith(name, prefixes[0]) then Some(LowerFirst(name[|prefixes[0]|..]))
    else Derived(name, prefixes[1..])
  }

  /** The accessor's field type: the sole parameter type of a setter, else a getter's return type. */
  function AccessorDesc(desc: string): Option<string> {
    match MatchParams(desc)
    case Some(p) => Some(p)
    case None => MatchReturn(desc)
  }

  /**
   * One method of the mixin in `mapAccessors`. An `@Invoker` is recorded
   * under the invoked method's name, unless that method is not mapped; an
   * `@Accessor` under the field's name, unless `remap = false`, and an
   * unmapped field throws.
   */
  function AccessorStep(m: ClassMapping, c: Class, refmap: Refmap, node: MethodNode): (r: Result<Refmap>)
    ensures FindAnnotation(node.annotations, INVOKER).None? && FindAnnotation(node.annotations, ACCESSOR).None? ==> r == Ok(refmap)
    ensures r.Ok? ==> refmap.Keys <= r.value.Keys
  {
    match FindAnnotation(node.annotations, INVOKER)
    case Some(inv) =>
      (match InvokerValue(inv.values)
       case Err(e) => Err(e)
       case Ok(given) =>
         var nameFrom := if given.Some? then Some(given.value) else Derived(node.name, ["invoke", "call"]);
         if nameFrom.None? then Err("Cannot find name for invoker " + node.name)
         else
           match MethodNameTo(c.methods, nameFrom.value, node.desc)
           case Err(e) => Err(e)
           case Ok(None) => Ok(refmap)
           case Ok(Some(t)) => Ok(refmap[nameFrom.value := t + RemapDesc(m, node.desc)]))
    case None =>
      match FindAnnotation(node.annotations, ACCESSOR)
      case None => Ok(refmap)
      case Some(acc) =>
        if !BoolValue(acc.values, "remap", true) then Ok(refmap)
        else
          var given := StringValue(acc.values, "value");
          var nameFrom := if given.Some? then given else Derived(node.name, ["get", "set"]);
          if nameFrom.None? then Err("Cannot find name for accessor " + node.name)
          else
            match AccessorDesc(node.desc)
            case None => Err("NullPointerException")
            case Some(d) =>
              match FieldNameTo(c.fields, nameFrom.value)
              case None => Err("Cannot find mapping for accessor " + node.name)
              case Some(t) => Ok(refmap[nameFrom.value := t + ":" + RemapDesc(m, d)])
  }

  /** `getFoo`/`setFoo` without a value name the field `foo`; `invokeBar`/`callBar` the method `bar`. */
  lemma DerivedNames(rest: string)
    requires |rest| > 0
    ensures Derived("get" + rest, ["get", "set"]) == Some(LowerFirst(rest))
    ensures Derived("set" + rest, ["get", "set"]) == Some(LowerFirst(rest))
    ensures Derived("invoke" + rest, ["invoke", "call"]) == Some(LowerFirst(rest))
    ensures Derived("call" + rest, ["invoke", "call"]) == Some(LowerFirst(rest))
  {
    PrefixRest("get", rest);
    PrefixRest("set", rest);
    PrefixRest("invoke", rest);
    PrefixRest("call", rest);
    assert !StartsWith("call" + rest, "invoke") by {
      assert ("call" + rest)[0] == 'c';
    }
    assert !StartsWith("set" + rest, "get") by {
      assert ("set" + rest)[0] == 's';
    }
  }

  lemma PrefixRest(p: string, rest: string)
    ensures StartsWith(p + rest, p) && (p + rest)[|p|..] == rest
  {
    assert (p + rest)[..|p|] == p;
  }

  /** A setter `(T)V` accesses a field of type T; a getter `()T` one of type T. */
  lemma AccessorDescs(t: string)
    requires |t| > 0 && AllDot(t) && ')' !in t
    ensures AccessorDesc("(" + t + ")V") == Some(t)
    ensures AccessorDesc("()" + t) == Some(t)
  {
    var s := "(" + t + ")V";
    assert s[1..|t| + 1] == t;
    assert s[1..] == t + ")V";
    assert ParamsAt(s, |t| + 1);
    var g := "()" + t;
    assert forall p :: !ParamsAt(g, p);
    assert g[..2] == "()" && g[2..] == t;
  }

  // ---- one target class, one mixin class ------------------------------------------------

  /** The work for one target class: its entry must exist; then the handlers, then the accessors, over the mixin's methods. */
  function TargetStep(m: ClassMapping, order: Class -> seq<Method>, node: ClassNode,
                      refmap: Refmap, target: string): (r: Result<Refmap>)
    ensures GetClass(m, target).None? ==> r.Err?
  {
    match GetClass(m, target)
    case None => Err("Cannot find mapping for target class " + target + " at " + node.name)
    case Some(c) =>
      match Fold(Handlers(m, order, target, c), refmap, node.methods)
      case Err(e) => Err(e)
      case Ok(st) => Fold(Accessors(m, c), st, node.methods)
  }

  /** The target classes of a mixin: the `value` types by internal name, then the `targets` strings. */
  function TargetClasses(ann: Annotation): seq<string> {
    TypeArray(ann.values, "value") + StringArray(ann.values, "targets")
  }

  /**
   * One class of the jar: a mixin gets a refmap, empty when it says
   * `remap = false`, and a second mixin of the same name throws.
   */
  function ClassStep(m: ClassMapping, order: Class -> seq<Method>, refmaps: map<string, Refmap>,
                     node: ClassNode): (r: Result<map<string, Refmap>>)
    ensures FindMixinAnnotation(node).None? ==> r == Ok(refmaps)
    ensures FindMixinAnnotation(node).Some? && node.name in refmaps ==> r.Err?
    ensures r.Ok? ==> r.value.Keys == refmaps.Keys + (if IsMixin(node) then {node.name} else {})
    ensures r.Ok? ==> forall k :: k in refmaps ==> r.value[k] == refmaps[k]
  {
    match FindMixinAnnotation(node)
    case None => Ok(refmaps)
    case Some(ann) =>
      if node.name in refmaps then Err("Duplicate mixin class " + node.name)
      else if !BoolValue(ann.values, "remap", true) then Ok(refmaps[node.name := map[]])
      else
        match Fold(Targets(m, order, node), map[], TargetClasses(ann))
        case Err(e) => Err(e)
        case Ok(rm) => Ok(refmaps[node.name := rm])
  }

  /** The refmaps of all classes of the jar, keyed by mixin class name. */
  function Refmaps(m: ClassMapping, order: Class -> seq<Method>, classes: seq<ClassNode>): Result<map<string, Refmap>> {
    Fold(Classes(m, order), map[], classes)
  }

  /** Two mixins of one name make the stage throw, wherever they stand. */
  lemma DuplicateMixinThrows(m: ClassMapping, order: Class -> seq<Method>, classes: seq<ClassNode>, i: nat, j: nat)
    requires i < j < |classes| && IsMixin(classes[i]) && IsMixin(classes[j]) && classes[i].name == classes[j].name
    ensures Refmaps(m, order, classes).Err?
  {
    var step := Classes(m, order);
    assert classes == classes[..j] + classes[j..];
    FoldConcat(step, map[], classes[..j], classes[j..]);
    match Fold(step, map[], classes[..j])
    case Err(_) =>
    case Ok(s) =>
      MixinNameKept(m, order, classes[..j], i);
      assert classes[j..][0] == classes[j];
      FoldStops(step, s, classes[j..], 0, s);
  }

  /** Once a mixin has been walked its name stays among the keys, unless the walk has thrown. */
  lemma {:induction false} MixinNameKept(m: ClassMapping, order: Class -> seq<Method>, pre: seq<ClassNode>, i: nat)
    requires i < |pre| && IsMixin(pre[i])
    ensures Refmaps(m, order, pre).Ok? ==> pre[i].name in Refmaps(m, order, pre).value
    decreases |pre|
  {
    var last := |pre| - 1;
    if i < last {
      MixinNameKept(m, order, pre[..last], i);
    } else {
      assert pre[..last] == pre[..i];
    }
  }

  // ---- the steps as values, for the walks ------------------------------------------------

  function MethodRefs(m: ClassMapping, order: Class -> seq<Method>, target: string, c: Class,
                      annDesc: string, node: MethodNode): (Refmap, string) -> Result<Refmap> {
    (st, ref) => MethodRefStep(m, order, target, c, annDesc, node, st, ref)
  }

  function AtTargets(m: ClassMapping, target: string): (Refmap, string) -> Result<Refmap> {
    (st, ref) => AtTargetStep(m, target, st, ref)
  }

  function Handlers(m: ClassMapping, order: Class -> seq<Method>, target: string, c: Class): (Refmap, MethodNode) -> Result<Refmap> {
    (st, mn) => HandlerStep(m, order, target, c, st, mn)
  }

  function Accessors(m: ClassMapping, c: Class): (Refmap, MethodNode) -> Result<Refmap> {
    (st, mn) => AccessorStep(m, c, st, mn)
  }

  function Targets(m: ClassMapping, order: Class -> seq<Method>, node: ClassNode): (Refmap, string) -> Result<Refmap> {
    (st, t) => TargetStep(m, order, node, st, t)
  }

  function Classes(m: ClassMapping, order: Class -> seq<Method>): (map<string, Refmap>, ClassNode) -> Result<map<string, Refmap>> {
    (st, node) => ClassStep(m, order, st, node)
  }

  // ---- the loops, as the stage runs them ------------------------------------------------

  /** `mapMethods` followed by `mapAccessors` for one target class. */
  method MapTarget(m: ClassMapping, order: Class -> seq<Method>, node: ClassNode,
                   refmap: Refmap, target: string) returns (r: Result<Refmap>)
    ensures r == TargetStep(m, order, node, refmap, target)
  {
    var c := GetClass(m, target);
    if c.None? {
      return Err("Cannot find mapping for target class " + target + " at " + node.name);
    }
    var cls := c.value;
    var handled := Walk(Handlers(m, order, target, cls), refmap, node.methods);
    if handled.Err? {
      return Err(handled.msg);
    }
    r := Walk(Accessors(m, cls), handled.value, node.methods);
  }

  /** The class loop of `run`: each mixin's refmap, its target classes one after another. */
  method GenerateRefmaps(m: ClassMapping, order: Class -> seq<Method>, classes: seq<ClassNode>)
    returns (r: Result<map<string, Refmap>>)
    ensures r == Refmaps(m, order, classes)
  {
    var refmaps: map<string, Refmap> := map[];
    for i := 0 to |classes|
      invariant Fold(Classes(m, order), map[], classes[..i]) == Ok(refmaps)
    {
      var step := Classes(m, order);
      FoldNext(step, map[], classes, i, refmaps);
      var next := ClassStep(m, order, refmaps, classes[i]);
      if next.Err? {
        FoldStops(step, map[], classes, i, refmaps);
        return Err(next.msg);
      }
      refmaps := next.value;
    }
    assert classes[..|classes|] == classes;
    r := Ok(refmaps);
  }
}
