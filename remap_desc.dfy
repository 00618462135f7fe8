/**
 * `ClassMapping.remapDesc`: every class name inside a field or method
 * descriptor (section 4.3 of The Java Virtual Machine Specification) is
 * replaced by its target name. The source finds the names with the pattern
 * `(?<=L)[^;]+(?=;)`; this module writes that matcher out by hand.
 */
module Descriptors {
  import opened Wrappers
  import opened Jvm
  import opened Text
  import opened Mappings

  /** `getNameTo(name) ?: name`. */
  function MapName(m: ClassMapping, name: string): string {
    match ClassNameTo(m, name)
    case Some(t) => t
    case None => name
  }

  /** The first `;` at or after `i`, or `|s|` when there is none. */
  function NextSemi(s: string, i: nat): (j: nat)
    requires i <= |s|
    ensures i <= j <= |s|
    ensures j < |s| ==> s[j] == ';'
    ensures forall k :: i <= k < j ==> s[k] != ';'
    decreases |s| - i
  {
    if i == |s| then |s| else if s[i] == ';' then i else NextSemi(s, i + 1)
  }

  /**
   * A match of `(?<=L)[^;]+(?=;)` starts at `i`: the character before is `L`,
   * and the greedy run of non-`;` characters from `i` is non-empty and is
   * followed by a `;`. The match ends at that `;`.
   */
  predicate MatchAt(s: string, i: nat) {
    0 < i < |s| && s[i - 1] == 'L' && s[i] != ';' && NextSemi(s, i) < |s|
  }

  /**
   * `Regex.replace` from position `i` on: a match is replaced and the search
   * resumes after it, any other character is copied. The lookbehind reads the
   * original text.
   */
  function Scan(f: string -> string, s: string, i: nat): string
    requires i <= |s|
    decreases |s| - i
  {
    if i == |s| then ""
    else if MatchAt(s, i) then
      var j := NextSemi(s, i);
      f(s[i..j]) + Scan(f, s, j)
    else [s[i]] + Scan(f, s, i + 1)
  }

  /** The replacement the source passes to `Regex.replace`: `getNameTo(name) ?: name`. */
  function Namer(m: ClassMapping): string -> string {
    name => MapName(m, name)
  }

  /** `remapDesc(desc)`. */
  function RemapDesc(m: ClassMapping, desc: string): string {
    Scan(Namer(m), desc, 0)
  }

  /** Every name the mapping knows maps to itself. */
  ghost predicate FixesNames(m: ClassMapping) {
    forall x: string {:trigger ClassNameTo(m, x)} :: ClassNameTo(m, x).Some? ==> ClassNameTo(m, x).value == x
  }

  lemma {:induction false} ScanFixed(f: string -> string, s: string, i: nat)
    requires (forall x :: f(x) == x) && i <= |s|
    ensures Scan(f, s, i) == s[i..]
    decreases |s| - i
  {
    if i < |s| {
      if MatchAt(s, i) {
        var j := NextSemi(s, i);
        ScanFixed(f, s, j);
        ScanMatchAt(f, s, i, j, s[i..j]);
        SplitAt(s, i, j);
      } else {
        ScanFixed(f, s, i + 1);
        ScanCopy(f, s, i);
        SplitAt(s, i, i + 1);
      }
    }
  }

  lemma SplitAt(s: string, i: nat, j: nat)
    requires i <= j <= |s|
    ensures s[i..] == s[i..j] + s[j..]
    ensures j == i + 1 ==> s[i..j] == [s[i]]
  {
  }

  /** A mapping that renames nothing leaves every descriptor as it is. */
  lemma RemapDescIdentity(m: ClassMapping, desc: string)
    requires FixesNames(m)
    ensures RemapDesc(m, desc) == desc
  {
    forall x ensures Namer(m)(x) == x {
      assert ClassNameTo(m, x).Some? ==> ClassNameTo(m, x).value == x;
    }
    ScanFixed(Namer(m), desc, 0);
  }

  /** In particular the empty mapping is the identity. */
  lemma RemapDescEmpty(desc: string)
    ensures RemapDesc(map[], desc) == desc
  {
    RemapDescIdentity(map[], desc);
  }

  lemma {:induction false} ScanNoRefs(f: string -> string, s: string, i: nat)
    requires 'L' !in s && i <= |s|
    ensures Scan(f, s, i) == s[i..]
    decreases |s| - i
  {
    if i < |s| {
      assert !MatchAt(s, i) by {
        if i > 0 {
          assert s[i - 1] in s;
        }
      }
      ScanNoRefs(f, s, i + 1);
      assert s[i..] == [s[i]] + s[i + 1..];
    }
  }

  /** A descriptor without object types (no `L`) is unchanged whatever the mapping. */
  lemma RemapDescPrimitive(m: ClassMapping, desc: string)
    requires 'L' !in desc
    ensures RemapDesc(m, desc) == desc
  {
    ScanNoRefs(Namer(m), desc, 0);
  }

  /** An object type `L<name>;` becomes `L<nameTo>;`, or stays when the class is unmapped. */
  lemma RemapObjectType(m: ClassMapping, name: string)
    requires |name| > 0 && ';' !in name
    ensures RemapDesc(m, "L" + name + ";") == "L" + MapName(m, name) + ";"
  {
    ScanObjectType(Namer(m), name);
  }

  lemma ScanObjectType(f: string -> string, name: string)
    requires |name| > 0 && ';' !in name
    ensures Scan(f, "L" + name + ";", 0) == "L" + f(name) + ";"
  {
    var s := "L" + name + ";";
    ObjectTypeShape(name, s);
    ScanThreeParts(f, s, name);
  }

  lemma ObjectTypeShape(name: string, s: string)
    requires |name| > 0 && ';' !in name && s == "L" + name + ";"
    ensures |s| >= 3 && s[0] == 'L' && s[|s| - 1] == ';' && s[1..|s| - 1] == name
    ensures NextSemi(s, 1) == |s| - 1 && MatchAt(s, 1)
  {
    forall k | 1 <= k < |s| - 1 ensures s[k] != ';' {
      assert s[k] == name[k - 1];
    }
  }

  /** `L<name>;` scans as its three parts. */
  lemma ScanThreeParts(f: string -> string, s: string, name: string)
    requires |s| >= 3 && s[|s| - 1] == ';' && s[1..|s| - 1] == name
    requires NextSemi(s, 1) == |s| - 1 && MatchAt(s, 1)
    ensures Scan(f, s, 0) == [s[0]] + f(name) + [s[|s| - 1]]
  {
    var n := |s|;
    ScanCopy(f, s, n - 1);
    ScanMatchAt(f, s, 1, n - 1, name);
    ScanCopy(f, s, 0);
  }

  /**
   * `a` closes every reference it opens: it does not end in `L`, and each
   * `L` followed by a name has its `;` inside `a`.
   */
  predicate Closed(a: string) {
    && (|a| == 0 || a[|a| - 1] != 'L')
    && forall i :: 0 < i < |a| && a[i - 1] == 'L' && a[i] != ';' ==> NextSemi(a, i) < |a|
  }

  lemma {:induction false} NextSemiShift(a: string, b: string, k: nat)
    requires k <= |b|
    ensures NextSemi(a + b, |a| + k) == |a| + NextSemi(b, k)
    decreases |b| - k
  {
    if k < |b| {
      assert (a + b)[|a| + k] == b[k];
      NextSemiShift(a, b, k + 1);
    }
  }

  lemma {:induction false} NextSemiPrefix(a: string, b: string, i: nat)
    requires i <= |a| && NextSemi(a, i) < |a|
    ensures NextSemi(a + b, i) == NextSemi(a, i)
    decreases |a| - i
  {
    assert (a + b)[i] == a[i];
    if a[i] != ';' {
      NextSemiPrefix(a, b, i + 1);
    }
  }

  lemma MatchShift(a: string, b: string, k: nat)
    requires k < |b|
    requires k > 0 || |a| == 0 || a[|a| - 1] != 'L'
    ensures MatchAt(a + b, |a| + k) <==> MatchAt(b, k)
    ensures NextSemi(a + b, |a| + k) == |a| + NextSemi(b, k)
  {
    var s := a + b;
    assert s[|a| + k] == b[k];
    assert k > 0 ==> s[|a| + k - 1] == b[k - 1];
    NextSemiShift(a, b, k);
  }

  /** One step of the scan at a match. */
  lemma ScanMatch(f: string -> string, s: string, i: nat)
    requires i < |s| && MatchAt(s, i)
    ensures Scan(f, s, i) == f(s[i..NextSemi(s, i)]) + Scan(f, s, NextSemi(s, i))
  {
  }

  /** One step of the scan at a copied character. */
  lemma ScanCopy(f: string -> string, s: string, i: nat)
    requires i < |s| && !MatchAt(s, i)
    ensures Scan(f, s, i) == [s[i]] + Scan(f, s, i + 1)
  {
  }

  lemma SliceShift(a: string, b: string, k: nat, j: nat)
    requires k <= j <= |b|
    ensures (a + b)[|a| + k..|a| + j] == b[k..j]
  {
  }

  lemma {:induction false} ScanSuffix(f: string -> string, a: string, b: string, k: nat)
    requires k <= |b|
    requires k > 0 || |a| == 0 || a[|a| - 1] != 'L'
    ensures Scan(f, a + b, |a| + k) == Scan(f, b, k)
    decreases |b| - k
  {
    if k == |b| {
      assert |a| + k == |a + b|;
    } else if MatchAt(b, k) {
      var j := NextSemi(b, k);
      ScanSuffix(f, a, b, j);
      SuffixMatchStep(f, a, b, k, j);
    } else {
      ScanSuffix(f, a, b, k + 1);
      SuffixCopyStep(f, a, b, k);
    }
  }

  lemma SuffixMatchStep(f: string -> string, a: string, b: string, k: nat, j: nat)
    requires k < |b| && MatchAt(b, k) && j == NextSemi(b, k)
    requires Scan(f, a + b, |a| + j) == Scan(f, b, j)
    ensures Scan(f, a + b, |a| + k) == Scan(f, b, k)
  {
    ShiftedMatch(f, a, b, k, j);
    ScanMatchAt(f, b, k, j, b[k..j]);
  }

  /** A match in `b` is a match in `a + b`, with the same name and end. */
  lemma ShiftedMatch(f: string -> string, a: string, b: string, k: nat, j: nat)
    requires k < |b| && MatchAt(b, k) && j == NextSemi(b, k)
    ensures Scan(f, a + b, |a| + k) == f(b[k..j]) + Scan(f, a + b, |a| + j)
  {
    MatchShift(a, b, k);
    SliceShift(a, b, k, j);
    ScanMatchAt(f, a + b, |a| + k, |a| + j, b[k..j]);
  }

  lemma ScanMatchAt(f: string -> string, s: string, i: nat, j: nat, name: string)
    requires i < |s| && MatchAt(s, i) && NextSemi(s, i) == j && s[i..j] == name
    ensures Scan(f, s, i) == f(name) + Scan(f, s, j)
  {
    ScanMatch(f, s, i);
  }

  lemma SuffixCopyStep(f: string -> string, a: string, b: string, k: nat)
    requires k < |b| && !MatchAt(b, k)
    requires k > 0 || |a| == 0 || a[|a| - 1] != 'L'
    requires Scan(f, a + b, |a| + k + 1) == Scan(f, b, k + 1)
    ensures Scan(f, a + b, |a| + k) == Scan(f, b, k)
  {
    var s, i := a + b, |a| + k;
    MatchShift(a, b, k);
    assert s[i] == b[k];
    ScanCopy(f, s, i);
    ScanCopy(f, b, k);
  }

  lemma {:induction false} ScanConcat(f: string -> string, a: string, b: string, i: nat)
    requires Closed(a) && i <= |a|
    ensures Scan(f, a + b, i) == Scan(f, a, i) + Scan(f, b, 0)
    decreases |a| - i
  {
    var s := a + b;
    if i == |a| {
      ScanSuffix(f, a, b, 0);
    } else {
      assert s[i] == a[i];
      assert i > 0 ==> s[i - 1] == a[i - 1];
      if 0 < i && a[i - 1] == 'L' && a[i] != ';' {
        NextSemiPrefix(a, b, i);
        var j := NextSemi(a, i);
        assert s[i..j] == a[i..j];
        ScanConcat(f, a, b, j);
      } else {
        ScanConcat(f, a, b, i + 1);
      }
    }
  }

  /** Descriptors remap piece by piece when the first piece closes its references. */
  lemma RemapDescConcat(m: ClassMapping, a: string, b: string)
    requires Closed(a)
    ensures RemapDesc(m, a + b) == RemapDesc(m, a) + RemapDesc(m, b)
  {
    ScanConcat(Namer(m), a, b, 0);
  }

  /** Object types close their reference, and so do strings without `L`; closed pieces compose. */
  lemma ClosedPieces(name: string, p: string, a: string, b: string)
    requires |name| > 0 && ';' !in name
    ensures Closed("L" + name + ";")
    ensures 'L' !in p ==> Closed(p)
    ensures Closed(a) && Closed(b) ==> Closed(a + b)
  {
    var s := "L" + name + ";";
    forall i | 0 < i < |s| && s[i - 1] == 'L' && s[i] != ';'
      ensures NextSemi(s, i) < |s|
    {
      assert s[|s| - 1] == ';';
    }
    if 'L' !in p && |p| > 0 {
      assert p[|p| - 1] in p;
    }
    if Closed(a) && Closed(b) {
      var t := a + b;
      forall i | 0 < i < |t| && t[i - 1] == 'L' && t[i] != ';'
        ensures NextSemi(t, i) < |t|
      {
        if i < |a| {
          NextSemiPrefix(a, b, i);
        } else if i > |a| {
          assert b[i - |a| - 1] == t[i - 1] && b[i - |a|] == t[i];
          NextSemiShift(a, b, i - |a|);
        }
      }
    }
  }
}
