/**
 * `WrappedBackingMap`: the same collection interface over a general map from
 * fingerprint to entry (the delegate `Long2ObjectOpenHashMap`). Unlike the
 * two-bucket table, `add` replaces an entry with the same fingerprint, and
 * `contains` also compares the stored entry with the element.
 */
module WrappedBackingMaps {
  import opened Wrappers
  import opened Jvm
  import opened BackingMaps
  import opened BackingMapTables

  class WrappedBackingMap<T(==)> {
    const hs: Hashing<T>
    var delegate: map<U64, T>

    constructor(hs: Hashing<T>)
      ensures this.hs == hs && delegate == map[]
    {
      this.hs := hs;
      delegate := map[];
    }

    /** `size`. */
    function Size(): (r: nat)
      reads this
      ensures r == |delegate.Keys|
    {
      |delegate|
    }

    /** `isEmpty`. */
    function IsEmpty(): (r: bool)
      reads this
      ensures r <==> Size() == 0
    {
      delegate == map[]
    }

    /** `get(hashCode)`. */
    function Get(h: U64): (r: Option<T>)
      reads this
      ensures r.Some? <==> h in delegate
      ensures r.Some? ==> r.value == delegate[h]
    {
      if h in delegate then Some(delegate[h]) else None
    }

    /** `contains`: the entry stored under the element's fingerprint is the element. */
    function Contains(e: T): (r: bool)
      reads this
      ensures r <==> Get(hs.hashOf(e)) == Some(e)
    {
      hs.hashOf(e) in delegate && delegate[hs.hashOf(e)] == e
    }

    /** `add`: `put` replaces; true when nothing was stored under the fingerprint. */
    method Add(e: T) returns (r: bool)
      modifies this
      ensures r <==> hs.hashOf(e) !in old(delegate)
      ensures delegate == old(delegate)[hs.hashOf(e) := e]
    {
      r := hs.hashOf(e) !in delegate;
      delegate := delegate[hs.hashOf(e) := e];
    }

    /** `remove`: by fingerprint; true when something was stored under it. */
    method Remove(e: T) returns (r: bool)
      modifies this
      ensures r <==> hs.hashOf(e) in old(delegate)
      ensures delegate == old(delegate) - {hs.hashOf(e)}
    {
      r := hs.hashOf(e) in delegate;
      delegate := delegate - {hs.hashOf(e)};
    }

    /** `clear`. */
    method Clear()
      modifies this
      ensures delegate == map[]
    {
      delegate := map[];
    }

    /** `addAll(elements)`: `result = add(entry) || result` for each element in order. */
    method AddAll(elements: seq<T>) returns (r: bool)
      modifies this
      ensures delegate == PutAll(old(delegate), hs, elements)
      ensures r <==> exists x :: x in elements && hs.hashOf(x) !in old(delegate)
    {
      r := false;
      ghost var d0 := delegate;
      for i := 0 to |elements|
        invariant delegate == PutAll(d0, hs, elements[..i])
        invariant r <==> exists x :: x in elements[..i] && hs.hashOf(x) !in d0
      {
        PutAllStep(d0, hs, elements, i);
        var added := Add(elements[i]);
        r := added || r;
      }
      assert elements[..|elements|] == elements;
    }

    /** `addAll(other)`: `putAll`, the other map's entries replacing. */
    method AddAllFrom(other: WrappedBackingMap<T>)
      modifies this
      ensures delegate == old(delegate) + old(other.delegate)
    {
      delegate := delegate + other.delegate;
    }

    /** `containsAll`: stops at the first element not contained. */
    method ContainsAll(elements: seq<T>) returns (r: bool)
      ensures r <==> forall x :: x in elements ==> Contains(x)
    {
      for i := 0 to |elements|
        invariant forall j :: 0 <= j < i ==> Contains(elements[j])
      {
        if !Contains(elements[i]) {
          return false;
        }
      }
      return true;
    }

    /** `removeAll`: `result = remove(entry) || result` for each element in order. */
    method RemoveAll(elements: seq<T>) returns (r: bool)
      modifies this
      ensures delegate == Without(old(delegate), Hashes(hs, elements))
      ensures r <==> AnyIn(hs, elements, old(delegate))
    {
      r := false;
      ghost var d0 := delegate;
      for i := 0 to |elements|
        invariant delegate == Without(d0, Hashes(hs, elements[..i]))
        invariant r <==> AnyIn(hs, elements[..i], d0)
      {
        RemoveAllStep(d0, hs, elements, i);
        var removed := Remove(elements[i]);
        r := removed || r;
      }
      assert elements[..|elements|] == elements;
    }

    /**
     * `retainAll`: walk the entries with the iterator, in an order the map
     * chooses, removing each that the predicate (the other collection's
     * `contains`) rejects. The result says whether anything was removed.
     */
    method RetainAll(keep: T -> bool) returns (r: bool)
      modifies this
      ensures delegate == Retained(old(delegate), keep)
      ensures r <==> exists h :: h in old(delegate) && !keep(old(delegate)[h])
    {
      r := false;
      ghost var d0 := delegate;
      var todo := delegate.Keys;
      while todo != {}
        invariant todo <= d0.Keys
        invariant delegate == Visited(d0, keep, todo)
        invariant r <==> RejectedOutside(d0, keep, todo)
        decreases |todo|
      {
        var h :| h in todo;
        VisitStep(d0, keep, todo, h);
        if !keep(delegate[h]) {
          delegate := delegate - {h};
          r := true;
        }
        todo := todo - {h};
      }
      assert Visited(d0, keep, {}) == Retained(d0, keep);
    }
  }

  /** The map while `retainAll` is under way: entries not yet visited, and the visited ones kept. */
  ghost function Visited<T>(d0: map<U64, T>, keep: T -> bool, todo: set<U64>): map<U64, T> {
    map h | h in d0 && (h in todo || keep(d0[h])) :: d0[h]
  }

  /** Some visited entry was rejected. */
  ghost predicate RejectedOutside<T>(d0: map<U64, T>, keep: T -> bool, todo: set<U64>) {
    exists h :: h in d0 && h !in todo && !keep(d0[h])
  }

  lemma VisitStep<T>(d0: map<U64, T>, keep: T -> bool, todo: set<U64>, h: U64)
    requires h in todo && todo <= d0.Keys
    ensures h in Visited(d0, keep, todo) && Visited(d0, keep, todo)[h] == d0[h]
    ensures Visited(d0, keep, todo - {h}) ==
      if keep(d0[h]) then Visited(d0, keep, todo) else Visited(d0, keep, todo) - {h}
    ensures RejectedOutside(d0, keep, todo - {h}) <==> RejectedOutside(d0, keep, todo) || !keep(d0[h])
  {
    if RejectedOutside(d0, keep, todo - {h}) {
      var k :| k in d0 && k !in todo - {h} && !keep(d0[k]);
      if k != h {
        assert RejectedOutside(d0, keep, todo);
      }
    }
  }

  /** The map after `put` of each element in order: the last entry per fingerprint wins. */
  ghost function PutAll<T>(d: map<U64, T>, hs: Hashing<T>, es: seq<T>): map<U64, T>
    decreases |es|
  {
    if |es| == 0 then d else PutAll(d, hs, es[..|es| - 1])[hs.hashOf(es[|es| - 1]) := es[|es| - 1]]
  }

  lemma PutAllStep<T>(d0: map<U64, T>, hs: Hashing<T>, es: seq<T>, i: nat)
    requires i < |es|
    ensures PutAll(d0, hs, es[..i + 1]) == PutAll(d0, hs, es[..i])[hs.hashOf(es[i]) := es[i]]
    ensures (exists x :: x in es[..i + 1] && hs.hashOf(x) !in d0) <==>
      (exists x :: x in es[..i] && hs.hashOf(x) !in d0) || hs.hashOf(es[i]) !in PutAll(d0, hs, es[..i])
  {
    assert es[..i + 1][..i] == es[..i];
    PutAllKeys(d0, hs, es[..i]);
    HashesSnoc(hs, es, i);
    if hs.hashOf(es[i]) !in d0 && hs.hashOf(es[i]) in PutAll(d0, hs, es[..i]) {
      var x :| x in es[..i] && hs.hashOf(x) == hs.hashOf(es[i]);
    }
    assert es[i] in es[..i + 1];
  }

  /** Putting every element keeps the old keys and adds the elements' fingerprints, each holding the last such element. */
  lemma {:induction false} PutAllKeys<T>(d: map<U64, T>, hs: Hashing<T>, es: seq<T>)
    ensures PutAll(d, hs, es).Keys == d.Keys + Hashes(hs, es)
    ensures forall h :: h in d && h !in Hashes(hs, es) ==> PutAll(d, hs, es)[h] == d[h]
    ensures forall h :: h in Hashes(hs, es) ==> PutAll(d, hs, es)[h] in es && hs.hashOf(PutAll(d, hs, es)[h]) == h
    decreases |es|
  {
    if |es| > 0 {
      var n := |es| - 1;
      PutAllKeys(d, hs, es[..n]);
      HashesSnoc(hs, es, n);
      assert es[..n + 1] == es;
    }
  }

  /**
   * The two `addAll(other)`s differ only in which entry wins on a shared
   * fingerprint: the two-bucket table keeps its own, the wrapped map takes the
   * other's. On disjoint fingerprints they agree.
   */
  lemma MergeVersusPutAll<T>(c: map<U64, T>, d: map<U64, T>)
    ensures Merge(c, d) == d + c
    ensures c.Keys !! d.Keys ==> Merge(c, d) == c + d
  {
  }
}
