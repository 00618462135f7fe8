/**
 * `xs.forEach { … }` with a state the body updates: the elements (the lines
 * of a file, the methods of a class, the references of an annotation) are
 * taken one after another, and the first exception thrown ends the walk.
 */
module Folds {
  import opened Wrappers

  function Fold<S, T>(step: (S, T) -> Result<S>, st: S, xs: seq<T>): Result<S>
    decreases |xs|
  {
    if |xs| == 0 then Ok(st)
    else
      match Fold(step, st, xs[..|xs| - 1])
      case Err(e) => Err(e)
      case Ok(s) => step(s, xs[|xs| - 1])
  }

  /** Walking `a + b` walks `a`, then `b` from where `a` left off. */
  lemma {:induction false} FoldConcat<S, T>(step: (S, T) -> Result<S>, st: S, a: seq<T>, b: seq<T>)
    ensures Fold(step, st, a + b) == match Fold(step, st, a)
      case Err(e) => Err(e)
      case Ok(s) => Fold(step, s, b)
    decreases |b|
  {
    if |b| == 0 {
      assert a + b == a;
    } else {
      var b0 := b[..|b| - 1];
      assert (a + b)[..|a + b| - 1] == a + b0;
      FoldConcat(step, st, a, b0);
    }
  }

  /** One more element continues from the state the earlier elements reached. */
  lemma FoldNext<S, T>(step: (S, T) -> Result<S>, st: S, xs: seq<T>, i: nat, s: S)
    requires i < |xs| && Fold(step, st, xs[..i]) == Ok(s)
    ensures Fold(step, st, xs[..i + 1]) == step(s, xs[i])
  {
    assert xs[..i + 1][..i] == xs[..i];
  }

  /** An exception at element `i` is the result of the whole walk. */
  lemma FoldStops<S, T>(step: (S, T) -> Result<S>, st: S, xs: seq<T>, i: nat, s: S)
    requires i < |xs| && Fold(step, st, xs[..i]) == Ok(s) && step(s, xs[i]).Err?
    ensures Fold(step, st, xs) == step(s, xs[i])
  {
    FoldNext(step, st, xs, i, s);
    assert xs == xs[..i + 1] + xs[i + 1..];
    FoldConcat(step, st, xs[..i + 1], xs[i + 1..]);
  }

  /** An element the body throws on from every state makes the whole walk throw. */
  lemma {:induction false} FoldFailsAt<S, T>(step: (S, T) -> Result<S>, st: S, xs: seq<T>, i: nat)
    requires i < |xs| && forall s :: step(s, xs[i]).Err?
    ensures Fold(step, st, xs).Err?
    decreases |xs|
  {
    var last := |xs| - 1;
    if i < last {
      assert xs[..last][i] == xs[i];
      FoldFailsAt(step, st, xs[..last], i);
    }
  }

  /** An element the body returns from at once can be dropped. */
  lemma FoldSkip<S, T>(step: (S, T) -> Result<S>, st: S, a: seq<T>, x: T, b: seq<T>)
    requires forall s :: Fold(step, st, a) == Ok(s) ==> step(s, x) == Ok(s)
    ensures Fold(step, st, a + [x] + b) == Fold(step, st, a + b)
  {
    FoldConcat(step, st, a + [x], b);
    FoldConcat(step, st, a, [x]);
    FoldConcat(step, st, a, b);
    match Fold(step, st, a)
    case Err(_) =>
    case Ok(s) =>
      assert [x][..0] == [];
  }

  /**
   * The walk as the source writes it: a loop over the elements that keeps the
   * state in a variable and returns at the first exception.
   */
  method Walk<S, T>(step: (S, T) -> Result<S>, st: S, xs: seq<T>) returns (r: Result<S>)
    ensures r == Fold(step, st, xs)
  {
    var s := st;
    for i := 0 to |xs|
      invariant Fold(step, st, xs[..i]) == Ok(s)
    {
      FoldNext(step, st, xs, i, s);
      match step(s, xs[i])
      case Err(e) =>
        FoldStops(step, st, xs, i, s);
        return Err(e);
      case Ok(next) =>
        s := next;
    }
    assert xs[..|xs|] == xs;
    r := Ok(s);
  }

  /**
   * The order a hash table's `forEach` visits it in: every key once. The slot
   * order is not modelled, so this is any order.
   */
  method WalkOrder<K, E>(t: map<K, E>) returns (ks: seq<K>)
    ensures forall j :: 0 <= j < |ks| ==> ks[j] in t
    ensures forall k :: k in t ==> k in ks
    ensures forall i, j :: 0 <= i < j < |ks| ==> ks[i] != ks[j]
    ensures |ks| == |t|
  {
    ks := [];
    var todo := t.Keys;
    while todo != {}
      invariant todo <= t.Keys
      invariant |ks| + |todo| == |t.Keys|
      invariant forall j :: 0 <= j < |ks| ==> ks[j] in t && ks[j] !in todo
      invariant forall i, j :: 0 <= i < j < |ks| ==> ks[i] != ks[j]
      invariant forall k :: k in t ==> k in ks || k in todo
      decreases |todo|
    {
      var k :| k in todo;
      ks := ks + [k];
      todo := todo - {k};
    }
  }
}
