/**
 * The Kotlin string operations the parsers and printers use: `split` on one
 * character (which keeps empty pieces), `ifEmpty`, `startsWith`,
 * `substringBefore`, `substringAfterLast`, `File.extension`, and decimal
 * `Int.toString` / `String.toInt`.
 */
module Text {
  import opened Wrappers
  import opened Jvm

  /** Index of the first `d` in `s`, or `|s|` when there is none. */
  function IndexOf(s: string, d: char): (i: nat)
    ensures i <= |s|
    ensures i < |s| ==> s[i] == d
    ensures forall k :: 0 <= k < i ==> s[k] != d
  {
    if |s| == 0 then 0 else if s[0] == d then 0 else 1 + IndexOf(s[1..], d)
  }

  /** Kotlin `s.split(d)`: every occurrence of `d` separates two pieces, empty pieces included. */
  function Split(s: string, d: char): (r: seq<string>)
    ensures |r| >= 1
    ensures forall k :: 0 <= k < |r| ==> d !in r[k]
    decreases |s|
  {
    var i := IndexOf(s, d);
    if i == |s| then [s] else [s[..i]] + Split(s[i + 1..], d)
  }

  /** Kotlin `parts.joinToString(d)`. */
  function Join(parts: seq<string>, d: char): string
    requires |parts| >= 1
  {
    if |parts| == 1 then parts[0] else parts[0] + [d] + Join(parts[1..], d)
  }

  lemma JoinTwo(a: string, b: string, d: char)
    ensures Join([a, b], d) == a + [d] + b
  {
    assert [a, b][1..] == [b];
  }

  lemma JoinThree(a: string, b: string, c: string, d: char)
    ensures Join([a, b, c], d) == a + [d] + b + [d] + c
  {
    assert [a, b, c][1..] == [b, c];
    JoinTwo(b, c, d);
  }

  lemma JoinFour(a: string, b: string, c: string, e: string, d: char)
    ensures Join([a, b, c, e], d) == a + [d] + b + [d] + c + [d] + e
  {
    assert [a, b, c, e][1..] == [b, c, e];
    JoinThree(b, c, e, d);
  }

  lemma JoinFive(a: string, b: string, c: string, e: string, g: string, d: char)
    ensures Join([a, b, c, e, g], d) == a + [d] + b + [d] + c + [d] + e + [d] + g
  {
    assert [a, b, c, e, g][1..] == [b, c, e, g];
    JoinFour(b, c, e, g, d);
  }

  lemma {:induction false} JoinSplit(s: string, d: char)
    ensures Join(Split(s, d), d) == s
    decreases |s|
  {
    var i := IndexOf(s, d);
    if i < |s| {
      JoinSplit(s[i + 1..], d);
      assert s == s[..i] + [d] + s[i + 1..];
    }
  }

  lemma IndexOfPrefix(a: string, d: char, b: string)
    requires d !in a
    ensures IndexOf(a + [d] + b, d) == |a|
  {
    assert (a + [d] + b)[|a|] == d;
  }

  lemma IndexOfNone(a: string, d: char)
    requires d !in a
    ensures IndexOf(a, d) == |a|
  {
  }

  /** Splitting undoes joining when no piece contains the separator. */
  lemma {:induction false} SplitJoin(parts: seq<string>, d: char)
    requires |parts| >= 1
    requires forall k :: 0 <= k < |parts| ==> d !in parts[k]
    ensures Split(Join(parts, d), d) == parts
    decreases |parts|
  {
    if |parts| == 1 {
      IndexOfNone(parts[0], d);
    } else {
      SplitCons(parts[0], d, Join(parts[1..], d));
      SplitJoin(parts[1..], d);
      assert parts == [parts[0]] + parts[1..];
    }
  }

  /** A first piece without the separator splits off whole. */
  lemma SplitCons(a: string, d: char, rest: string)
    requires d !in a
    ensures Split(a + [d] + rest, d) == [a] + Split(rest, d)
  {
    IndexOfPrefix(a, d, rest);
    var s := a + [d] + rest;
    assert s[..|a|] == a;
    assert s[|a| + 1..] == rest;
  }

  /** Space-separated columns without spaces split back into those columns. */
  lemma SplitThree(x: string, y: string, z: string)
    requires ' ' !in x && ' ' !in y && ' ' !in z
    ensures Split(x + " " + y + " " + z, ' ') == [x, y, z]
  {
    JoinThree(x, y, z, ' ');
    SplitJoin([x, y, z], ' ');
  }

  lemma SplitFour(w: string, x: string, y: string, z: string)
    requires ' ' !in w && ' ' !in x && ' ' !in y && ' ' !in z
    ensures Split(w + " " + x + " " + y + " " + z, ' ') == [w, x, y, z]
  {
    JoinFour(w, x, y, z, ' ');
    SplitJoin([w, x, y, z], ' ');
  }

  lemma SplitTwo(x: string, y: string)
    requires ' ' !in x && ' ' !in y
    ensures Split(x + " " + y, ' ') == [x, y]
  {
    JoinTwo(x, y, ' ');
    SplitJoin([x, y], ' ');
  }

  /** A line terminator of `BufferedReader.readLine`: line feed or carriage return. */
  predicate Breaks(c: char) { c == '\n' || c == '\r' }

  /** Index of the first line terminator in `s`, or `|s|` when there is none. */
  function LineEnd(s: string): (i: nat)
    ensures i <= |s|
    ensures i < |s| ==> Breaks(s[i])
    ensures forall k :: 0 <= k < i ==> !Breaks(s[k])
  {
    if |s| == 0 then 0 else if Breaks(s[0]) then 0 else 1 + LineEnd(s[1..])
  }

  /**
   * Kotlin `Reader.useLines`: the lines `BufferedReader.readLine` returns one
   * after another. A line ends at `\n`, at `\r` or at `\r\n`; the text after the
   * last terminator is one more line when it is not empty.
   */
  function Lines(s: string): (r: seq<string>)
    ensures forall j :: 0 <= j < |r| ==> '\n' !in r[j] && '\r' !in r[j]
    decreases |s|
  {
    if |s| == 0 then []
    else
      var i := LineEnd(s);
      if i == |s| then [s]
      else
        var next := if s[i] == '\r' && i + 1 < |s| && s[i + 1] == '\n' then i + 2 else i + 1;
        [s[..i]] + Lines(s[next..])
  }

  /** A line free of terminators, followed by `\n`, is read as that line and then the rest. */
  lemma LinesCons(a: string, rest: string)
    requires '\n' !in a && '\r' !in a
    ensures Lines(a + "\n" + rest) == [a] + Lines(rest)
  {
    var s := a + "\n" + rest;
    LineEndPrefix(a, rest);
    assert s[..|a|] == a;
    assert s[|a| + 1..] == rest;
  }

  lemma {:induction false} LineEndPrefix(a: string, rest: string)
    requires '\n' !in a && '\r' !in a
    ensures LineEnd(a + "\n" + rest) == |a|
    decreases |a|
  {
    if |a| > 0 {
      assert (a + "\n" + rest)[1..] == a[1..] + "\n" + rest;
      LineEndPrefix(a[1..], rest);
    }
  }

  /**
   * Kotlin `Char.lowercaseChar()`, and `lowercase()` character by character,
   * on the ASCII letters `A`-`Z`; every other character is kept.
   */
  function LowerChar(c: char): char {
    if 'A' <= c <= 'Z' then (c as int + 32) as char else c
  }

  /** Kotlin `s.ifEmpty { alt }`. */
  function IfEmpty(s: string, alt: string): string { if |s| == 0 then alt else s }

  predicate StartsWith(s: string, p: string) { |p| <= |s| && s[..|p|] == p }

  predicate EndsWith(s: string, p: string) { |p| <= |s| && s[|s| - |p|..] == p }

  /** Kotlin `s.substringBefore(d)`: the text before the first `d`, or all of `s`. */
  function SubstringBefore(s: string, d: char): (r: string)
    ensures d !in r
    ensures r == s || (r + [d] <= s)
  {
    var i := IndexOf(s, d);
    if i == |s| then s
    else
      assert s[..i + 1] == s[..i] + [d];
      s[..i]
  }

  /** Index of the last `d` in `s`, or `|s|` when there is none. */
  function LastIndexOf(s: string, d: char): (i: nat)
    ensures i <= |s|
    ensures i < |s| ==> s[i] == d && forall k :: i < k < |s| ==> s[k] != d
    ensures i == |s| ==> d !in s
    decreases |s|
  {
    if |s| == 0 then 0
    else if s[|s| - 1] == d then |s| - 1
    else
      var j := LastIndexOf(s[..|s| - 1], d);
      if j == |s| - 1 then |s| else j
  }

  /** Kotlin `s.substringAfterLast(d, missing)`: the text after the last `d`, or `missing` when there is none. */
  function SubstringAfterLast(s: string, d: char, missing: string): (r: string)
    ensures d !in s ==> r == missing
    ensures d in s ==> d !in r && |r| < |s| && s[|s| - |r| - 1] == d && s[|s| - |r|..] == r
  {
    var i := LastIndexOf(s, d);
    if i == |s| then missing else s[i + 1..]
  }

  /** `File.name` on a path with `/` separators: the part after the last separator. */
  function FileName(path: string): string {
    SubstringAfterLast(path, '/', path)
  }

  /** Kotlin `File.extension`: the file name after its last dot, or "" when it has none. */
  function Extension(path: string): string {
    SubstringAfterLast(FileName(path), '.', "")
  }

  /** When `s` ends in `d` followed by a `d`-free `t`, the text after the last `d` is `t`. */
  lemma AfterLastSuffix(s: string, d: char, t: string, missing: string)
    requires d !in t && |t| < |s| && s[|s| - |t| - 1] == d && s[|s| - |t|..] == t
    ensures SubstringAfterLast(s, d, missing) == t
  {
    var i := LastIndexOf(s, d);
    var j := |s| - |t| - 1;
    assert s[j] == d;
    assert i >= j;
    assert forall k :: j < k < |s| ==> s[k] == t[k - j - 1];
    assert forall k :: j < k < |s| ==> s[k] != d;
    assert i == j;
  }

  /** A path ending in `.ext` has extension `ext`, whatever comes before. */
  lemma ExtensionOfSuffix(stem: string, ext: string)
    requires '.' !in ext && '/' !in ext
    ensures Extension(stem + "." + ext) == ext
  {
    var path := stem + "." + ext;
    var tail := "." + ext;
    assert path[|path| - |tail|..] == tail;
    assert forall k :: |path| - |tail| <= k < |path| ==> path[k] == tail[k - (|path| - |tail|)];
    assert forall k :: |path| - |tail| <= k < |path| ==> path[k] != '/';
    var name := FileName(path);
    assert |name| > |ext| && name[|name| - |ext| - 1] == '.' && name[|name| - |ext|..] == ext by {
      if '/' in path {
        assert path[|path| - |name| - 1] == '/';
        assert |name| >= |tail|;
        assert name[|name| - |tail|..] == path[|path| - |tail|..];
      }
    }
    AfterLastSuffix(name, '.', ext, "");
  }

  /** A file name without a dot has no extension. */
  lemma NoDotNoExtension(name: string)
    requires '.' !in name && '/' !in name
    ensures Extension(name) == ""
  {
  }

  // ---- decimal numbers ----------------------------------------------------

  function DigitChar(n: nat): char
    requires n < 10
  {
    "0123456789"[n]
  }

  predicate IsDigit(c: char) { '0' <= c <= '9' }

  function DigitValue(c: char): nat
    requires IsDigit(c)
  {
    (c as int) - ('0' as int)
  }

  /** The decimal digits of a natural number, as Kotlin prints it. */
  function NatToString(n: nat): (r: string)
    ensures |r| >= 1
    ensures forall k :: 0 <= k < |r| ==> IsDigit(r[k])
    decreases n
  {
    if n < 10 then [DigitChar(n)] else NatToString(n / 10) + [DigitChar(n % 10)]
  }

  /** Kotlin `Int.toString()`. */
  function IntToString(n: int): string
  {
    if n < 0 then "-" + NatToString(-n) else NatToString(n)
  }

  /** Value of a nonempty run of decimal digits. */
  function DigitsValue(s: string): nat
    requires forall k :: 0 <= k < |s| ==> IsDigit(s[k])
    decreases |s|
  {
    if |s| == 0 then 0 else 10 * DigitsValue(s[..|s| - 1]) + DigitValue(s[|s| - 1])
  }

  predicate AllDigits(s: string) { |s| >= 1 && forall k :: 0 <= k < |s| ==> IsDigit(s[k]) }

  /**
   * Kotlin `String.toInt()` over ASCII digits: an optional sign and at least one
   * digit, with the value in `Int` range. `None` is the NumberFormatException.
   */
  function ParseInt(s: string): (r: Option<I32>)
    ensures r.Some? ==> |s| >= 1
  {
    if |s| >= 1 && (s[0] == '-' || s[0] == '+') then
      if AllDigits(s[1..]) then
        var v: int := if s[0] == '-' then -(DigitsValue(s[1..]) as int) else DigitsValue(s[1..]);
        if -0x8000_0000 <= v < 0x8000_0000 then Some(v) else None
      else None
    else if AllDigits(s) then
      var v := DigitsValue(s);
      if v < 0x8000_0000 then Some(v) else None
    else None
  }

  lemma {:induction false} DigitsOfNat(n: nat)
    ensures DigitsValue(NatToString(n)) == n
    decreases n
  {
    if n >= 10 {
      DigitsOfNat(n / 10);
      var s := NatToString(n);
      assert s[..|s| - 1] == NatToString(n / 10);
    }
  }

  /** Printing then parsing an `Int` gives it back. */
  lemma ParseIntToString(n: I32)
    ensures ParseInt(IntToString(n)) == Some(n)
  {
    var m: nat := if n < 0 then -(n as int) else n;
    DigitsOfNat(m);
    if n < 0 {
      assert IntToString(n)[1..] == NatToString(m);
    }
  }

  /** Canonical decimals: no leading zero unless the number is zero itself. */
  predicate Canonical(s: string)
  {
    AllDigits(s) && (s[0] != '0' || |s| == 1)
  }

  lemma {:induction false} NatToStringOfDigits(s: string)
    requires Canonical(s)
    ensures NatToString(DigitsValue(s)) == s
    decreases |s|
  {
    var p := s[..|s| - 1];
    var c := s[|s| - 1];
    if |s| >= 2 {
      assert Canonical(p) by {
        assert p[0] == s[0];
      }
      NatToStringOfDigits(p);
      LeadingDigitPositive(p);
      var n := DigitsValue(s);
      assert n == 10 * DigitsValue(p) + DigitValue(c);
      assert n / 10 == DigitsValue(p) && n % 10 == DigitValue(c);
      assert DigitChar(DigitValue(c)) == c;
      assert s == p + [c];
    } else {
      assert DigitChar(DigitValue(c)) == c;
      assert s == [c];
    }
  }

  lemma LeadingDigitPositive(s: string)
    requires Canonical(s) && |s| >= 1 && s[0] != '0'
    ensures DigitsValue(s) >= 1
    decreases |s|
  {
    if |s| >= 2 {
      var p := s[..|s| - 1];
      assert p[0] == s[0];
      LeadingDigitPositive(p);
    }
  }

  // ---- java.lang.Appendable -----------------------------------------------

  /** The `Appendable`/`StringBuilder` the printers write into. */
  class StringBuilder {
    var text: string

    constructor()
      ensures text == ""
    {
      text := "";
    }

    method Append(c: char)
      modifies this
      ensures text == old(text) + [c]
    {
      text := text + [c];
    }

    method AppendString(s: string)
      modifies this
      ensures text == old(text) + s
    {
      text := text + s;
    }
  }
}
