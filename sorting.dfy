/**
 * `Array.sort()` on entries, as the printers call it through `sortedArray`.
 * The JDK sort of objects is stable and orders by `compareTo`; it is modelled
 * here by a stable insertion sort, which has the same result.
 */
module Sorting {
  /** `compareTo` is consistent: swapping the operands negates the result. */
  ghost predicate Antisymmetric<E(!new)>(cmp: (E, E) -> int) {
    forall a, b :: cmp(a, b) == -cmp(b, a)
  }

  /** Every element is at most its successor. */
  predicate Sorted<E>(s: seq<E>, cmp: (E, E) -> int) {
    forall i :: 0 < i < |s| ==> cmp(s[i - 1], s[i]) <= 0
  }

  /** Inserts `x` after every element it does not precede, which keeps equal elements in arrival order. */
  function Insert<E(!new)>(s: seq<E>, x: E, cmp: (E, E) -> int): (r: seq<E>)
    ensures multiset(r) == multiset(s) + multiset{x} && |r| == |s| + 1
    ensures r[0] == x || (|s| > 0 && r[0] == s[0])
    ensures Antisymmetric(cmp) && Sorted(s, cmp) ==> Sorted(r, cmp)
  {
    if |s| == 0 then [x]
    else if cmp(x, s[0]) < 0 then [x] + s
    else
      assert s == [s[0]] + s[1..];
      [s[0]] + Insert(s[1..], x, cmp)
  }

  /** Sorts by inserting the elements one after another in their original order. */
  function Sort<E(!new)>(s: seq<E>, cmp: (E, E) -> int): (r: seq<E>)
    ensures multiset(r) == multiset(s) && |r| == |s|
    ensures Antisymmetric(cmp) ==> Sorted(r, cmp)
  {
    if |s| == 0 then []
    else
      assert s == s[..|s| - 1] + [s[|s| - 1]];
      Insert(Sort(s[..|s| - 1], cmp), s[|s| - 1], cmp)
  }

  /** The image of a sequence under `f`, element by element. */
  function MapSeq<P, E>(s: seq<P>, f: P -> E): (r: seq<E>)
    ensures |r| == |s| && forall i :: 0 <= i < |s| ==> r[i] == f(s[i])
  {
    seq(|s|, i requires 0 <= i < |s| => f(s[i]))
  }

  /** Comparing elements by their images under `f`. */
  function By<P, E>(f: P -> E, cmp: (E, E) -> int): (P, P) -> int {
    (p: P, q: P) => cmp(f(p), f(q))
  }

  lemma {:induction false} InsertMap<P(!new), E(!new)>(s: seq<P>, x: P, f: P -> E, cmp: (E, E) -> int)
    ensures MapSeq(Insert(s, x, By(f, cmp)), f) == Insert(MapSeq(s, f), f(x), cmp)
    decreases |s|
  {
    var g := By(f, cmp);
    var fs := MapSeq(s, f);
    if |s| == 0 {
      assert MapSeq([x], f) == [f(x)];
    } else {
      assert g(x, s[0]) == cmp(f(x), fs[0]);
      if g(x, s[0]) < 0 {
        assert MapSeq([x] + s, f) == [f(x)] + fs;
      } else {
        var r := Insert(s[1..], x, g);
        InsertMap(s[1..], x, f, cmp);
        assert fs[1..] == MapSeq(s[1..], f);
        assert MapSeq([s[0]] + r, f) == [f(s[0])] + MapSeq(r, f);
      }
    }
  }

  /** Sorting carries companions along: sorting by images then projecting equals projecting then sorting. */
  lemma {:induction false} SortMap<P(!new), E(!new)>(s: seq<P>, f: P -> E, cmp: (E, E) -> int)
    ensures MapSeq(Sort(s, By(f, cmp)), f) == Sort(MapSeq(s, f), cmp)
    decreases |s|
  {
    if |s| > 0 {
      var p := s[..|s| - 1];
      SortMap(p, f, cmp);
      InsertMap(Sort(p, By(f, cmp)), s[|s| - 1], f, cmp);
      assert MapSeq(s, f)[..|s| - 1] == MapSeq(p, f);
    }
  }
}
