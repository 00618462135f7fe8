/**
 * The fixed regular expressions of the refmap stages, each written out as a
 * matcher. A pattern's match is stated as a predicate on the cut points of
 * its groups; Java's backtracking gives a greedy group the longest extent for
 * which the rest still matches (a lazy one the shortest), so each matcher
 * returns the largest (or smallest) cut points for which the predicate
 * holds, earlier groups taking precedence. `.` is any character but a line
 * terminator.
 */
module Patterns {
  import opened Wrappers
  import opened Text

  /** Java's `.`: anything but `\n`, `\r`, U+0085, U+2028 and U+2029. */
  predicate Dot(c: char) { c != '\n' && c != '\r' && c != '\U{0085}' && c != '\U{2028}' && c != '\U{2029}' }
  predicate AllDot(s: string) { forall k :: 0 <= k < |s| ==> Dot(s[k]) }

  lemma AllDotAppend(a: string, b: string)
    requires AllDot(a) && AllDot(b)
    ensures AllDot(a + b)
  {
    assert forall k :: 0 <= k < |b| ==> (a + b)[|a| + k] == b[k];
  }

  /** `[^;/\s\n]`, with `\s` the ASCII white space. */
  predicate NameChar(c: char) {
    c != ';' && c != '/' && c != ' ' && c != '\t' && c != '\n' && c != '\U{000B}' && c != '\U{000C}' && c != '\r'
  }
  predicate AllName(s: string) { forall k :: 0 <= k < |s| ==> NameChar(s[k]) }

  /** The largest `i` in `[lo, hi)` with `p(i)`. */
  function Largest(lo: int, hi: int, p: int -> bool): (r: Option<int>)
    ensures r.Some? ==> lo <= r.value < hi && p(r.value) && forall j :: r.value < j < hi ==> !p(j)
    ensures r.None? ==> forall j :: lo <= j < hi ==> !p(j)
    decreases hi - lo
  {
    if hi <= lo then None
    else if p(hi - 1) then Some(hi - 1)
    else Largest(lo, hi - 1, p)
  }

  /** The smallest `i` in `[lo, hi)` with `p(i)`. */
  function Smallest(lo: int, hi: int, p: int -> bool): (r: Option<int>)
    ensures r.Some? ==> lo <= r.value < hi && p(r.value) && forall j :: lo <= j < r.value ==> !p(j)
    ensures r.None? ==> forall j :: lo <= j < hi ==> !p(j)
    decreases hi - lo
  {
    if hi <= lo then None
    else if p(lo) then Some(lo)
    else Smallest(lo + 1, hi, p)
  }

  // ---- method references -----------------------------------------------------------

  /** `\(.*\).+`, the whole of `t`. */
  predicate DescTail(t: string) {
    |t| >= 3 && t[0] == '(' && AllDot(t[1..]) && exists q :: 1 <= q < |t| - 1 && t[q] == ')'
  }

  /** `([^;/\s\n]+)(\(.*\).+)` matching `s` with the first group `s[..i]`. */
  predicate MethodRefAt(s: string, i: int) {
    1 <= i < |s| && AllName(s[..i]) && DescTail(s[i..])
  }

  /** `methodRefRegex.matchEntire(s)`: name and descriptor, the name as long as a match allows. */
  function MatchMethodRef(s: string): (r: Option<(string, string)>)
    ensures r.Some? <==> exists i :: MethodRefAt(s, i)
    ensures r.Some? ==>
      exists i :: MethodRefAt(s, i) && r.value == (s[..i], s[i..]) &&
        forall j :: i < j ==> !MethodRefAt(s, j)
  {
    var p := i => MethodRefAt(s, i);
    assert forall i :: p(i) == MethodRefAt(s, i);
    match Largest(1, |s|, p)
    case None => None
    case Some(i) => Some((s[..i], s[i..]))
  }

  /** `([^;/\s\n]+)\*`, the whole of `s`. */
  predicate Wildcard(s: string) {
    |s| >= 2 && s[|s| - 1] == '*' && AllName(s[..|s| - 1])
  }

  /** `removeSuffix("*")`. */
  function RemoveStar(s: string): (r: string)
    ensures EndsWith(s, "*") ==> r + "*" == s
    ensures !EndsWith(s, "*") ==> r == s
  {
    if |s| > 0 && s[|s| - 1] == '*' then s[..|s| - 1] else s
  }

  /** `L(.+);(.+)(\(.*\).+)` with the owner `s[1..a]`, the `;` at `a`, the name `s[a + 1..b]`. */
  predicate FullMethodAt(s: string, a: int, b: int) {
    2 <= a && a + 2 <= b < |s| && s[0] == 'L' && s[a] == ';' &&
    AllDot(s[1..a]) && AllDot(s[a + 1..b]) && DescTail(s[b..])
  }

  /** Some name cut completes a match for the owner cut `a`. */
  predicate FullMethodOwner(s: string, a: int) {
    exists b :: a + 2 <= b < |s| && FullMethodAt(s, a, b)
  }

  /** `fullMethodRefRegex.matchEntire(s)`: the cut points `(a, b)`, the owner cut the largest, then the name cut. */
  function FullMethodCuts(s: string): (r: Option<(int, int)>)
    ensures r.Some? <==> exists a, b :: FullMethodAt(s, a, b)
    ensures r.Some? ==> FullMethodAt(s, r.value.0, r.value.1)
  {
    FullMethodCutsFacts(s);
    match Largest(2, |s|, MethodOwners(s))
    case None => None
    case Some(a) => Some((a, Largest(a + 2, |s|, MethodNames(s, a)).value))
  }

  function MethodOwners(s: string): int -> bool { a => FullMethodOwner(s, a) }

  function MethodNames(s: string, a: int): int -> bool { b => FullMethodAt(s, a, b) }

  /** The searches behind the cuts: an owner cut with a match, then a name cut for it. */
  lemma FullMethodCutsFacts(s: string)
    ensures forall a :: MethodOwners(s)(a) == FullMethodOwner(s, a)
    ensures forall a, b :: MethodNames(s, a)(b) == FullMethodAt(s, a, b)
    ensures forall a, b :: FullMethodAt(s, a, b) ==> FullMethodOwner(s, a)
  {
  }

  /** The owner cut is the last one that has a match, and the name cut the last one for it. */
  lemma FullMethodCutsGreedy(s: string)
    ensures FullMethodCuts(s).Some? ==> forall a, b :: FullMethodCuts(s).value.0 < a ==> !FullMethodAt(s, a, b)
    ensures FullMethodCuts(s).Some? ==> forall b :: FullMethodCuts(s).value.1 < b ==> !FullMethodAt(s, FullMethodCuts(s).value.0, b)
  {
    FullMethodCutsFacts(s);
  }

  /** `fullMethodRefRegex` of the current stage: owner, name and descriptor. */
  function MatchFullMethodRef(s: string): (r: Option<(string, string, string)>)
    ensures r.Some? <==> exists a, b :: FullMethodAt(s, a, b)
    ensures r.Some? ==>
      exists a, b :: FullMethodAt(s, a, b) && r.value == (s[1..a], s[a + 1..b], s[b..])
  {
    match FullMethodCuts(s)
    case None => None
    case Some((a, b)) => Some((s[1..a], s[a + 1..b], s[b..]))
  }

  /** One array dimension `[` after another, then `L.+;` or a primitive letter: `\[*(?:L.+;|[BCDFIJSZ])`. */
  predicate FieldType(t: string) {
    exists k :: 0 <= k < |t| && (forall j :: 0 <= j < k ==> t[j] == '[') && ElementType(t[k..])
  }

  predicate ElementType(u: string) {
    (|u| == 1 && u[0] in "BCDFIJSZ") || (|u| >= 3 && u[0] == 'L' && u[|u| - 1] == ';' && AllDot(u[1..|u| - 1]))
  }

  /** `L(.+);(.+):(\[*(?:L.+;|[BCDFIJSZ]))` with the owner `s[1..a]` and the name `s[a + 1..c]`. */
  predicate FullFieldAt(s: string, a: int, c: int) {
    2 <= a && a + 2 <= c < |s| && s[0] == 'L' && s[a] == ';' && s[c] == ':' &&
    AllDot(s[1..a]) && AllDot(s[a + 1..c]) && FieldType(s[c + 1..])
  }

  predicate FullFieldOwner(s: string, a: int) {
    exists c :: a + 2 <= c < |s| && FullFieldAt(s, a, c)
  }

  /** The cut points `(a, c)` of `fullFieldRefRegex`, the owner cut the largest, then the name cut. */
  function FullFieldCuts(s: string): (r: Option<(int, int)>)
    ensures r.Some? <==> exists a, c :: FullFieldAt(s, a, c)
    ensures r.Some? ==> FullFieldAt(s, r.value.0, r.value.1)
  {
    FullFieldCutsFacts(s);
    match Largest(2, |s|, FieldOwners(s))
    case None => None
    case Some(a) => Some((a, Largest(a + 2, |s|, FieldNames(s, a)).value))
  }

  function FieldOwners(s: string): int -> bool { a => FullFieldOwner(s, a) }

  function FieldNames(s: string, a: int): int -> bool { c => FullFieldAt(s, a, c) }

  /** The searches behind the cuts: an owner cut with a match, then a name cut for it. */
  lemma FullFieldCutsFacts(s: string)
    ensures forall a :: FieldOwners(s)(a) == FullFieldOwner(s, a)
    ensures forall a, c :: FieldNames(s, a)(c) == FullFieldAt(s, a, c)
    ensures forall a, c :: FullFieldAt(s, a, c) ==> FullFieldOwner(s, a)
  {
  }

  /** The owner cut is the last one that has a match, and the name cut the last one for it. */
  lemma FullFieldCutsGreedy(s: string)
    ensures FullFieldCuts(s).Some? ==> forall a, c :: FullFieldCuts(s).value.0 < a ==> !FullFieldAt(s, a, c)
    ensures FullFieldCuts(s).Some? ==> forall c :: FullFieldCuts(s).value.1 < c ==> !FullFieldAt(s, FullFieldCuts(s).value.0, c)
  {
    FullFieldCutsFacts(s);
  }

  /** `fullFieldRefRegex.matchEntire(s)`: owner, name and field type. */
  function MatchFullFieldRef(s: string): (r: Option<(string, string, string)>)
    ensures r.Some? <==> exists a, c :: FullFieldAt(s, a, c)
    ensures r.Some? ==>
      exists a, c :: FullFieldAt(s, a, c) && r.value == (s[1..a], s[a + 1..c], s[c + 1..])
  {
    match FullFieldCuts(s)
    case None => None
    case Some((a, c)) =>
      assert FullFieldAt(s, a, c);
      Some((s[1..a], s[a + 1..c], s[c + 1..]))
  }

  // ---- descriptors -------------------------------------------------------------------

  /** `\((.+)\).+` with the group `s[1..p]`. */
  predicate ParamsAt(s: string, p: int) {
    2 <= p < |s| - 1 && s[0] == '(' && s[p] == ')' && AllDot(s[1..])
  }

  /** `paramerterTypeDescRegex.matchEntire(desc)`: what the parentheses hold, up to the last `)` that leaves a return type. */
  function MatchParams(s: string): (r: Option<string>)
    ensures r.Some? <==> exists p :: ParamsAt(s, p)
    ensures r.Some? ==>
      exists p :: ParamsAt(s, p) && r.value == s[1..p] && forall q :: p < q ==> !ParamsAt(s, q)
  {
    var f := p => ParamsAt(s, p);
    assert forall p :: f(p) == ParamsAt(s, p);
    match Largest(2, |s| - 1, f)
    case None => None
    case Some(p) => Some(s[1..p])
  }

  /** `returnTypeDescRegex.matchEntire(desc)`, `\(\)(.+)`: the return type of a method without parameters. */
  function MatchReturn(s: string): (r: Option<string>)
    ensures r.Some? <==> |s| >= 3 && s[..2] == "()" && AllDot(s[2..])
    ensures r.Some? ==> "()" + r.value == s
  {
    if |s| >= 3 && s[..2] == "()" && AllDot(s[2..]) then Some(s[2..]) else None
  }

  const CALLBACK_INFO := "Lorg/spongepowered/asm/mixin/injection/callback/CallbackInfo"
  const CALLBACK_INFO_RETURNABLE := "Lorg/spongepowered/asm/mixin/injection/callback/CallbackInfoReturnable<"

  /** Some `;` then a later `)` with a character after it: `.*?;.*\).+` once all characters are `.`. */
  predicate SemiThenClose(t: string) {
    exists p, q :: 0 <= p < q < |t| - 1 && t[p] == ';' && t[q] == ')'
  }

  /** `descParamExtractRegex` with the group `s[1..k]` and `CallbackInfo` at `k`. */
  predicate CallbackAt(s: string, k: int) {
    1 <= k && k + |CALLBACK_INFO| <= |s| && s[0] == '(' && AllDot(s[1..k]) &&
    s[k..k + |CALLBACK_INFO|] == CALLBACK_INFO && AllDot(s[k + |CALLBACK_INFO|..]) && SemiThenClose(s[k + |CALLBACK_INFO|..])
  }

  /** `descParamExtractRegex.matchEntire(desc)`: the parameters before the last `CallbackInfo` that still matches. */
  function MatchCallbackParams(s: string): (r: Option<string>)
    ensures r.Some? <==> exists k :: CallbackAt(s, k)
    ensures r.Some? ==>
      exists k :: CallbackAt(s, k) && r.value == s[1..k] && forall j :: k < j ==> !CallbackAt(s, j)
  {
    var p := k => CallbackAt(s, k);
    assert forall k :: p(k) == CallbackAt(s, k);
    match Largest(1, |s|, p)
    case None => None
    case Some(k) => Some(s[1..k])
  }

  /**
   * `descReturnExtractRegex` with `CallbackInfoReturnable<` at `k` and the
   * group `(L.+;)` ending at `e`, followed by `>;`, a `)` and one more character.
   */
  predicate ReturnableAt(s: string, k: int, e: int) {
    var g := k + |CALLBACK_INFO_RETURNABLE|;
    1 <= k && g + 3 <= e && e + 2 <= |s| && s[0] == '(' && AllDot(s[1..k]) && AllDot(s[g..]) &&
    s[k..g] == CALLBACK_INFO_RETURNABLE && s[g] == 'L' && s[e - 1] == ';' && s[e..e + 2] == ">;" &&
    exists q :: e + 2 <= q < |s| - 1 && s[q] == ')'
  }

  predicate ReturnableStart(s: string, k: int) {
    exists e :: k < e < |s| && ReturnableAt(s, k, e)
  }

  /** `descReturnExtractRegex.matchEntire(signature)`: the type argument of the last `CallbackInfoReturnable` that matches, as long as it can be. */
  function MatchReturnable(s: string): (r: Option<string>)
    ensures r.Some? <==> exists k, e :: ReturnableAt(s, k, e)
    ensures r.Some? ==>
      exists k, e :: ReturnableAt(s, k, e) && r.value == s[k + |CALLBACK_INFO_RETURNABLE|..e] &&
        (forall k', e' :: k < k' ==> !ReturnableAt(s, k', e')) && (forall e' :: e < e' ==> !ReturnableAt(s, k, e'))
  {
    var p := k => ReturnableStart(s, k);
    assert forall k :: p(k) == ReturnableStart(s, k);
    assert forall k, e :: ReturnableAt(s, k, e) ==> ReturnableStart(s, k);
    match Largest(1, |s|, p)
    case None => None
    case Some(k) =>
      var q := e => ReturnableAt(s, k, e);
      assert forall e :: q(e) == ReturnableAt(s, k, e);
      var e := Largest(k + |CALLBACK_INFO_RETURNABLE| + 3, |s| - 1, q).value;
      Some(s[k + |CALLBACK_INFO_RETURNABLE|..e])
  }

  /** A `<` at the head of `s` closed by the `>` at `j`, as `<.+>` reads it. */
  predicate TypeParamsTo(s: string, j: int) {
    2 <= j < |s| && s[0] == '<' && s[j] == '>' && AllDot(s[1..j])
  }

  /** Where a `<.+>` match at the head of `s` ends: the last `>` it can reach. */
  function TypeParamsEnd(s: string): (r: Option<int>)
    ensures r.Some? <==> exists j :: TypeParamsTo(s, j)
    ensures r.Some? ==> TypeParamsTo(s, r.value) && forall j :: r.value < j ==> !TypeParamsTo(s, j)
  {
    var p := j => TypeParamsTo(s, j);
    assert forall j :: p(j) == TypeParamsTo(s, j);
    Largest(2, |s|, p)
  }

  /** `replace(typeParameterRegex, "")` with `<.+>`: every match, from the left, removed. */
  function StripTypeParams(s: string): (r: string)
    ensures |r| <= |s|
    decreases |s|
  {
    if |s| == 0 then ""
    else
      match TypeParamsEnd(s)
      case Some(j) => StripTypeParams(s[j + 1..])
      case None => [s[0]] + StripTypeParams(s[1..])
  }

  /** Text without `<` is left as it is. */
  lemma {:induction false} StripNoAngle(s: string)
    requires '<' !in s
    ensures StripTypeParams(s) == s
    decreases |s|
  {
    if |s| > 0 {
      assert s[0] != '<';
      assert '<' !in s[1..];
      StripNoAngle(s[1..]);
    }
  }

  /** A first character other than `<` starts no match and is kept. */
  lemma StripPlainHead(s: string)
    requires |s| > 0 && s[0] != '<'
    ensures StripTypeParams(s) == [s[0]] + StripTypeParams(s[1..])
  {
    assert TypeParamsEnd(s).None?;
  }

  lemma Regroup(x: string, y: string, z: string)
    ensures x + (y + z) == (x + y) + z
  {
  }

  /** Characters before the first `<` pass through. */
  lemma {:induction false} StripFrom(a: string, b: string)
    requires '<' !in a
    ensures StripTypeParams(a + b) == a + StripTypeParams(b)
    decreases |a|
  {
    if |a| > 0 {
      var s := a + b;
      assert s[0] == a[0];
      assert s[1..] == a[1..] + b;
      assert '<' !in a[1..];
      StripPlainHead(s);
      StripFrom(a[1..], b);
      assert a == [a[0]] + a[1..];
      Regroup([a[0]], a[1..], StripTypeParams(b));
    } else {
      assert a + b == b;
    }
  }

  /** One type-argument list without nested `>`: `<args>;` becomes `;`. */
  lemma StripList(args: string)
    requires '>' !in args && |args| >= 1 && AllDot(args)
    ensures StripTypeParams("<" + args + ">;") == ";"
  {
    var t := "<" + args + ">;";
    assert t[1..|args| + 1] == args;
    assert TypeParamsTo(t, |args| + 1);
    assert !TypeParamsTo(t, |args| + 2);
    assert TypeParamsEnd(t) == Some(|args| + 1);
    assert t[|args| + 2..] == ";";
    StripNoAngle(";");
  }

  /** A generic class type with one argument list, `Lname<args>;`, loses the list: `Lname;`. */
  lemma StripOneList(name: string, args: string)
    requires '<' !in name && '>' !in args && |args| >= 1 && AllDot(args)
    ensures StripTypeParams(name + "<" + args + ">;") == name + ";"
  {
    var tail := "<" + args + ">;";
    assert name + "<" + args + ">;" == name + tail;
    StripFrom(name, tail);
    StripList(args);
    assert StripTypeParams(tail) == ";";
  }

  // ---- mapToPrimitive -----------------------------------------------------------------

  const JAVA_LANG := "Ljava/lang/"

  /** The primitive of a boxed `java/lang` class, or `whole` (the matched text) for any other class. */
  function Primitive(boxed: string, whole: string): string {
    match boxed
    case "Byte" => "B"
    case "Character" => "C"
    case "Double" => "D"
    case "Float" => "F"
    case "Integer" => "I"
    case "Long" => "J"
    case "Short" => "S"
    case "Boolean" => "Z"
    case _ => whole
  }

  predicate Boxed(n: string) {
    n in ["Byte", "Character", "Double", "Float", "Integer", "Long", "Short", "Boolean"]
  }

  /** `Ljava/lang/(.+?);` matching at the head of `s` with the `;` at `e`. */
  predicate JavaLangTo(s: string, e: int) {
    |JAVA_LANG| + 1 <= e < |s| && s[..|JAVA_LANG|] == JAVA_LANG && s[e] == ';' && AllDot(s[|JAVA_LANG|..e])
  }

  /** Where a `Ljava/lang/(.+?);` match at the head of `s` ends: the first `;` it can reach. */
  function JavaLangEnd(s: string): (r: Option<int>)
    ensures r.Some? <==> exists e :: JavaLangTo(s, e)
    ensures r.Some? ==> JavaLangTo(s, r.value) && forall e :: e < r.value ==> !JavaLangTo(s, e)
  {
    var p := e => JavaLangTo(s, e);
    assert forall e :: p(e) == JavaLangTo(s, e);
    Smallest(|JAVA_LANG| + 1, |s|, p)
  }

  /**
   * `desc.replace(javaLangRegex) { … }`: from the left, each `Ljava/lang/X;`
   * (X as short as a match allows) becomes the primitive letter of a boxed X
   * and stays as it is for any other X.
   */
  function MapToPrimitive(s: string): (r: string)
    decreases |s|
  {
    if |s| == 0 then ""
    else
      match JavaLangEnd(s)
      case Some(e) => Primitive(s[|JAVA_LANG|..e], s[..e + 1]) + MapToPrimitive(s[e + 1..])
      case None => [s[0]] + MapToPrimitive(s[1..])
  }

  lemma JavaLangHead(n: string, rest: string)
    requires |n| >= 1 && ';' !in n && AllDot(n)
    ensures var s := JAVA_LANG + n + ";" + rest;
      MapToPrimitive(s) == Primitive(n, JAVA_LANG + n + ";") + MapToPrimitive(rest)
  {
    var s := JAVA_LANG + n + ";" + rest;
    var e := |JAVA_LANG| + |n|;
    assert s[|JAVA_LANG|..e] == n;
    assert s[..|JAVA_LANG|] == JAVA_LANG;
    assert JavaLangTo(s, e);
    forall e' | e' < e ensures !JavaLangTo(s, e') {
      if |JAVA_LANG| + 1 <= e' {
        assert s[e'] == n[e' - |JAVA_LANG|];
      }
    }
    assert JavaLangEnd(s) == Some(e);
    assert s[..e + 1] == JAVA_LANG + n + ";";
    assert s[e + 1..] == rest;
  }

  /** A boxed type becomes its primitive letter. */
  lemma BoxedToPrimitive(n: string, rest: string)
    requires Boxed(n)
    ensures MapToPrimitive(JAVA_LANG + n + ";" + rest) == Primitive(n, "") + MapToPrimitive(rest)
    ensures |Primitive(n, "")| == 1
  {
    JavaLangHead(n, rest);
  }

  /** Any other `java/lang` class is kept, `;` included. */
  lemma OtherJavaLangKept(n: string, rest: string)
    requires !Boxed(n) && |n| >= 1 && ';' !in n && AllDot(n)
    ensures MapToPrimitive(JAVA_LANG + n + ";" + rest) == JAVA_LANG + n + ";" + MapToPrimitive(rest)
  {
    JavaLangHead(n, rest);
  }

  /** A character that does not start `Ljava/lang/` passes through. */
  lemma PlainChar(c: char, rest: string)
    requires c != 'L'
    ensures MapToPrimitive([c] + rest) == [c] + MapToPrimitive(rest)
  {
    var s := [c] + rest;
    assert s[0] == c;
    assert JavaLangEnd(s).None?;
    assert s[1..] == rest;
  }

  /** `Ljava/lang/` starting at index `i` of `s`. */
  predicate JavaLangAt(s: string, i: int) {
    0 <= i && i + |JAVA_LANG| <= |s| && s[i..i + |JAVA_LANG|] == JAVA_LANG
  }

  /** Without `Ljava/lang/` anywhere a descriptor is unchanged. */
  lemma {:induction false} NoJavaLangUnchanged(s: string)
    requires forall i :: !JavaLangAt(s, i)
    ensures MapToPrimitive(s) == s
    decreases |s|
  {
    if |s| > 0 {
      assert !JavaLangAt(s, 0);
      assert JavaLangEnd(s).None?;
      var t := s[1..];
      forall i ensures !JavaLangAt(t, i) {
        assert !JavaLangAt(s, i + 1);
      }
      NoJavaLangUnchanged(t);
      assert s == [s[0]] + t;
    }
  }
}
