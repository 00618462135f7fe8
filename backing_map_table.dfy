/**
 * The `BackingMap` class: two bucket arrays written in place, with the
 * capacity, mask, bits, resize threshold and size fields beside them. The
 * ghost field `contents` is the abstract view, a map from fingerprint to the
 * stored entry; `Valid()` ties it to the arrays through the probe invariant of
 * module `BackingMaps`.
 *
 * `rehash`, `remove` and `retainAll` are modelled as corrected (see the
 * as-written members in module `BackingMapFindings`): a rehash adds `shift` to
 * `bits`, and a removal rebuilds the table so that no probe chain is broken.
 * Running out of `Int` range for the capacity, where the JVM throws, is the
 * `ok == false` outcome.
 */
module BackingMapTables {
  import opened Wrappers
  import opened Bits
  import opened Jvm
  import opened BackingMaps

  class BackingMap<T> {
    const hs: Hashing<T>
    var bucketA: array<Option<T>>
    var bucketB: array<Option<T>>
    var capacity: nat
    var mask: nat
    var bits: nat
    var rehashSize: nat
    var size0: nat
    ghost var contents: map<U64, T>

    /** The shape of the fields for a given number of bits. */
    ghost predicate Shape()
      reads this
    {
      4 <= bits <= 30 && capacity == Pow2(bits) && mask == capacity - 1 && rehashSize == capacity / 2
    }

    ghost predicate Valid()
      reads this, bucketA, bucketB
    {
      && Shape()
      && bucketA != bucketB
      && bucketA.Length == capacity && bucketB.Length == capacity
      && size0 == |contents|
      && Inv(bucketA[..], bucketB[..], hs, 64 - bits, contents)
    }

    /** A fresh table: 16 slots per bucket, 4 bits, threshold 8, empty. */
    constructor(hs: Hashing<T>)
      ensures Valid() && fresh(bucketA) && fresh(bucketB)
      ensures this.hs == hs && contents == map[]
      ensures capacity == 16 && bits == 4 && rehashSize == 8 && size0 == 0
    {
      this.hs := hs;
      Pow2Four();
      bucketA := new Option<T>[16](_ => None);
      bucketB := new Option<T>[16](_ => None);
      capacity := 16;
      mask := 15;
      bits := 4;
      rehashSize := 8;
      size0 := 0;
      contents := map[];
      new;
      EmptyInv(bucketA[..], bucketB[..], hs, 60);
    }

    /** `size`. */
    function Size(): (r: nat)
      reads this, bucketA, bucketB
      requires Valid()
      ensures r == |contents|
    {
      size0
    }

    /** `isEmpty`. */
    function IsEmpty(): (r: bool)
      reads this, bucketA, bucketB
      requires Valid()
      ensures r <==> contents == map[]
    {
      size0 == 0
    }

    /** `get(hashCode)`: the entry stored under the fingerprint, if any. */
    function Get(h: U64): (r: Option<T>)
      reads this, bucketA, bucketB
      requires Valid()
      ensures r.Some? <==> h in contents
      ensures r.Some? ==> r.value == contents[h] && hs.hashOf(r.value) == h
    {
      FoundMatches(bucketA[..], bucketB[..], hs, 64 - bits, contents, h);
      var p := Lookup(bucketA[..], bucketB[..], hs, 64 - bits, h);
      if p.Match? then Some(p.entry) else None
    }

    /** `contains`: whether an entry with the element's fingerprint is stored. */
    function Contains(e: T): (r: bool)
      reads this, bucketA, bucketB
      requires Valid()
      ensures r <==> hs.hashOf(e) in contents
    {
      Get(hs.hashOf(e)).Some?
    }

    /** `internalFind`: the slot code of the entry with the fingerprint, or -1. */
    function Find(h: U64): (r: I32)
      reads this, bucketA, bucketB
      requires Valid()
      ensures r == -1 <==> h !in contents
      ensures r != -1 ==>
        var bk := Ushr32(Wrap32(r), 31);
        var i := And(Wrap32(r), TWO31 - 1);
        && bk < 2 && i < capacity && Slot(bucketA[..], bucketB[..], bk, i) == Some(contents[h])
        && Lookup(bucketA[..], bucketB[..], hs, 64 - bits, h) == Match(bk, i, contents[h])
    {
      FoundMatches(bucketA[..], bucketB[..], hs, 64 - bits, contents, h);
      var p := Lookup(bucketA[..], bucketB[..], hs, 64 - bits, h);
      if p.Match? then
        SlotBound(bits, p.index);
        FindCodeDecode(p.bucket, p.index);
        FindCode(p.bucket, p.index)
      else -1
    }

    /** `forEach`/`forEachFast`: slot i of bucket A, then slot i of bucket B, for every i. */
    function Iteration(): (r: seq<T>)
      reads this, bucketA, bucketB
      requires Valid()
      ensures |r| == |contents|
      ensures forall x :: x in r ==> hs.hashOf(x) in contents && contents[hs.hashOf(x)] == x
      ensures forall h :: h in contents ==> contents[h] in r && hs.hashOf(contents[h]) == h
    {
      IterationIsContents(bucketA[..], bucketB[..], hs, 64 - bits, contents);
      Interleave(bucketA[..], bucketB[..], capacity)
    }

    /** Storing e in the empty slot where its probe stopped. */
    method Place(e: T, p: Probe<T>)
      requires Valid()
      requires p == Lookup(bucketA[..], bucketB[..], hs, 64 - bits, hs.hashOf(e)) && p.Empty?
      modifies this, bucketA, bucketB
      ensures Valid()
      ensures hs.hashOf(e) !in old(contents) && contents == old(contents)[hs.hashOf(e) := e]
      ensures bucketA == old(bucketA) && bucketB == old(bucketB) && bits == old(bits)
      ensures capacity == old(capacity) && rehashSize == old(rehashSize)
    {
      ghost var a, b := bucketA[..], bucketB[..];
      InsertKeepsInv(a, b, hs, 64 - bits, contents, e);
      if p.bucket == 0 {
        bucketA[p.index] := Some(e);
      } else {
        bucketB[p.index] := Some(e);
      }
      assert (bucketA[..], bucketB[..]) == Put(a, b, p.bucket, p.index, Some(e));
      size0 := size0 + 1;
      contents := contents[hs.hashOf(e) := e];
    }

    /**
     * `rehashAdd`: the probe of `internalAdd` into the table being rebuilt; an
     * exhausted probe is the `RehashException` (`ok == false`).
     */
    method RehashAdd(e: T) returns (ok: bool)
      requires Valid()
      modifies this, bucketA, bucketB
      ensures bucketA == old(bucketA) && bucketB == old(bucketB) && bits == old(bits)
      ensures capacity == old(capacity) && rehashSize == old(rehashSize)
      ensures ok ==> Valid()
      ensures ok ==> contents == if hs.hashOf(e) in old(contents) then old(contents) else old(contents)[hs.hashOf(e) := e]
      ensures !ok ==> unchanged(this, bucketA, bucketB)
    {
      FoundMatches(bucketA[..], bucketB[..], hs, 64 - bits, contents, hs.hashOf(e));
      var p := Lookup(bucketA[..], bucketB[..], hs, 64 - bits, hs.hashOf(e));
      if p.Empty? {
        Place(e, p);
        ok := true;
      } else {
        ok := p.Match?;
      }
    }

    /**
     * The reinsertion loop of `rehash`: fresh buckets of the current capacity,
     * then every occupied old slot, A before B, re-added. `target` is what the
     * old slots hold; (wa, wb) are buckets in which each key of `target` is
     * found at a slot of the old arrays that still holds it.
     */
    method Rebuild(oldA: array<Option<T>>, oldB: array<Option<T>>, ghost sa: Bucket<T>, ghost sb: Bucket<T>,
                   ghost target: map<U64, T>, ghost wa: Bucket<T>, ghost wb: Bucket<T>, ghost wbudget: nat)
      returns (ok: bool)
      requires Shape() && oldA[..] == sa && oldB[..] == sb
      requires Rebuildable(sa, sb, hs, target, wa, wb, wbudget)
      modifies this
      ensures Shape() && bits == old(bits) && capacity == old(capacity)
      ensures fresh(bucketA) && fresh(bucketB)
      ensures ok ==> Valid() && contents == target
    {
      Reallocate();
      ok := ReinsertAll(oldA, oldB, sa, sb, target);
      if ok {
        PlacedAll(wa, wb, sa, sb, hs, wbudget, contents, target);
      }
    }

    /** Two new empty buckets of the current capacity. */
    method Reallocate()
      requires Shape()
      modifies this
      ensures Valid() && bits == old(bits) && capacity == old(capacity)
      ensures fresh(bucketA) && fresh(bucketB) && contents == map[]
    {
      var na := EmptyBucket<T>(capacity);
      var nb := EmptyBucket<T>(capacity);
      CapacityFits(bits, capacity);
      EmptyInv(na[..], nb[..], hs, 64 - bits);
      bucketA, bucketB := na, nb;
      size0 := 0;
      contents := map[];
    }

    /** The reinsertion loop: every entry of the old slots, slot by slot. */
    method ReinsertAll(oldA: array<Option<T>>, oldB: array<Option<T>>, ghost sa: Bucket<T>, ghost sb: Bucket<T>,
                       ghost target: map<U64, T>)
      returns (ok: bool)
      requires Valid() && contents == map[] && oldA[..] == sa && oldB[..] == sb && |sa| == |sb|
      requires Holds(sa, sb, hs, target)
      requires oldA != bucketA && oldA != bucketB && oldB != bucketA && oldB != bucketB
      modifies this, bucketA, bucketB
      ensures bucketA == old(bucketA) && bucketB == old(bucketB) && bits == old(bits) && capacity == old(capacity)
      ensures rehashSize == old(rehashSize) && mask == old(mask)
      ensures ok ==> Valid() && SubMap(contents, target) && PlacedBelow(sa, sb, hs, contents, |sa|)
    {
      ok := true;
      for i := 0 to oldA.Length
        invariant Valid() && bucketA == old(bucketA) && bucketB == old(bucketB)
        invariant bits == old(bits) && capacity == old(capacity)
        invariant rehashSize == old(rehashSize) && mask == old(mask)
        invariant oldA[..] == sa && oldB[..] == sb
        invariant SubMap(contents, target) && PlacedBelow(sa, sb, hs, contents, i)
      {
        ghost var before := contents;
        var x, y := oldA[i], oldB[i];
        SlotsAt(sa, sb, hs, target, i, x, y);
        ok := ReinsertPair(x, y, target);
        if !ok {
          return;
        }
        PlacedGrow(sa, sb, hs, before, contents, i);
        PlacedStep(sa, sb, hs, contents, i);
      }
    }

    /** One iteration of the reinsertion loop: slot i of the old bucket A, then of the old bucket B. */
    method ReinsertPair(x: Option<T>, y: Option<T>, ghost target: map<U64, T>) returns (ok: bool)
      requires Valid() && SubMap(contents, target)
      requires x.Some? ==> hs.hashOf(x.value) in target && target[hs.hashOf(x.value)] == x.value
      requires y.Some? ==> hs.hashOf(y.value) in target && target[hs.hashOf(y.value)] == y.value
      modifies this, bucketA, bucketB
      ensures bucketA == old(bucketA) && bucketB == old(bucketB) && bits == old(bits)
      ensures capacity == old(capacity) && rehashSize == old(rehashSize) && mask == old(mask)
      ensures ok ==> Valid() && SubMap(contents, target) && old(contents).Keys <= contents.Keys
      ensures ok ==> (x.Some? ==> hs.hashOf(x.value) in contents) && (y.Some? ==> hs.hashOf(y.value) in contents)
    {
      ok := true;
      if x.Some? {
        ok := RehashAdd(x.value);
        if !ok {
          return;
        }
      }
      ghost var mid := contents;
      if y.Some? {
        ok := RehashAdd(y.value);
      }
    }

    /**
     * `rehash(shift)`, corrected: the table grows by `shift` bits and every
     * entry is re-added; while a re-add runs out of probe steps the table
     * doubles again. The contents and the size are unchanged.
     */
    method Rehash(shift: nat) returns (ok: bool)
      requires Valid()
      modifies this, bucketA, bucketB
      ensures ok ==> Valid() && contents == old(contents)
      ensures Shape() && (ok ==> bits >= old(bits) + shift)
      ensures !ok ==> bits == 30 || (bits == old(bits) && old(bits) + shift > 30)
      ensures (bucketA == old(bucketA) && bucketB == old(bucketB)) || (fresh(bucketA) && fresh(bucketB))
    {
      var oldA, oldB := bucketA, bucketB;
      ghost var target, wa, wb, wbudget := contents, bucketA[..], bucketB[..], 64 - bits;
      RehashSource(wa, wb, hs, wbudget, target);
      if bits + shift > 30 {
        return false;
      }
      Resize(bits + shift);
      ok := Regrow(oldA, oldB, wa, wb, target, wa, wb, wbudget);
    }

    /**
     * The body of `rehash` after the header fields are set: rebuild from the
     * old arrays, doubling the table again each time a re-add runs out of
     * probe steps (the `RehashException` loop).
     */
    method Regrow(oldA: array<Option<T>>, oldB: array<Option<T>>, ghost sa: Bucket<T>, ghost sb: Bucket<T>,
                  ghost target: map<U64, T>, ghost wa: Bucket<T>, ghost wb: Bucket<T>, ghost wbudget: nat)
      returns (ok: bool)
      requires Shape() && oldA[..] == sa && oldB[..] == sb
      requires Rebuildable(sa, sb, hs, target, wa, wb, wbudget)
      modifies this
      ensures Shape() && bits >= old(bits) && fresh(bucketA) && fresh(bucketB)
      ensures ok ==> Valid() && contents == target
      ensures !ok ==> bits == 30
    {
      ok := Rebuild(oldA, oldB, sa, sb, target, wa, wb, wbudget);
      while !ok
        invariant Shape() && bits >= old(bits)
        invariant fresh(bucketA) && fresh(bucketB) && oldA[..] == sa && oldB[..] == sb
        invariant ok ==> Valid() && contents == target
        decreases 30 - bits
      {
        if bits == 30 {
          return;
        }
        Resize(bits + 1);
        ok := Rebuild(oldA, oldB, sa, sb, target, wa, wb, wbudget);
      }
    }

    /** The header fields of a table of 2^n slots: capacity, mask and threshold. */
    method Resize(n: nat)
      requires 4 <= n <= 30
      modifies this
      ensures Shape() && bits == n
      ensures bucketA == old(bucketA) && bucketB == old(bucketB)
      ensures size0 == old(size0) && contents == old(contents)
    {
      Pow2Monotone(4, n);
      capacity := Pow2(n);
      mask := capacity - 1;
      bits := n;
      rehashSize := capacity / 2;
    }

    /**
     * `internalAdd`, corrected: an entry with a new fingerprint goes into the
     * empty slot its probe stops at; when the probe runs out of steps the table
     * grows by one bit and the add is retried, and the result is true exactly
     * when the entry was stored. An entry whose fingerprint is present is not
     * stored (the first entry stays).
     */
    method InternalAdd(e: T) returns (r: bool, ok: bool)
      requires Valid()
      modifies this, bucketA, bucketB
      ensures ok ==> Valid() && (r <==> hs.hashOf(e) !in old(contents))
      ensures ok ==> contents == if r then old(contents)[hs.hashOf(e) := e] else old(contents)
      ensures !ok ==> bits == 30
      ensures (bucketA == old(bucketA) && bucketB == old(bucketB)) || (fresh(bucketA) && fresh(bucketB))
      decreases 30 - bits
    {
      FoundMatches(bucketA[..], bucketB[..], hs, 64 - bits, contents, hs.hashOf(e));
      var p := Lookup(bucketA[..], bucketB[..], hs, 64 - bits, hs.hashOf(e));
      ok := true;
      r := false;
      if p.Empty? {
        Place(e, p);
        r := true;
      } else if p.Exhausted? {
        ok := Rehash(1);
        if ok {
          r, ok := InternalAdd(e);
        }
      }
    }

    /** `add`: grow by one bit first when the size has reached the threshold, then `internalAdd`. */
    method Add(e: T) returns (r: bool, ok: bool)
      requires Valid()
      modifies this, bucketA, bucketB
      ensures ok ==> Valid() && (r <==> hs.hashOf(e) !in old(contents))
      ensures ok ==> contents == if r then old(contents)[hs.hashOf(e) := e] else old(contents)
      ensures !ok ==> bits == 30
      ensures (bucketA == old(bucketA) && bucketB == old(bucketB)) || (fresh(bucketA) && fresh(bucketB))
    {
      ok := true;
      r := false;
      if size0 >= rehashSize {
        ok := Rehash(1);
        if !ok {
          return;
        }
      }
      r, ok := InternalAdd(e);
    }

    /**
     * `ensureCapacity(n)`: when n exceeds the threshold, grow to the least
     * number of bits whose table has n slots (`resizeShift(n) - bits` more).
     */
    method EnsureCapacity(n: I32) returns (ok: bool)
      requires Valid()
      modifies this, bucketA, bucketB
      ensures ok ==> Valid() && contents == old(contents) && bits >= old(bits)
      ensures ok ==> n <= capacity
      ensures n <= old(rehashSize) ==> ok && unchanged(this)
      ensures !ok ==> n > 0x4000_0000 || bits == 30
      ensures (bucketA == old(bucketA) && bucketB == old(bucketB)) || (fresh(bucketA) && fresh(bucketB))
    {
      ok := true;
      if n > rehashSize {
        ResizeShiftIs(n);
        var m := ResizeShift(n);
        GrowthShift(n, bits);
        ok := Rehash(m - bits);
        GrowthFits(n, m, bits, ok);
      }
    }

    /**
     * `remove`, corrected: the slot decoded from `internalFind` is emptied, the
     * size drops by one, and the table is rebuilt at its size so that no probe
     * chain passes an emptied slot. The result says whether an entry with the
     * element's fingerprint was there.
     */
    method Remove(e: T) returns (r: bool, ok: bool)
      requires Valid()
      modifies this, bucketA, bucketB
      ensures r <==> hs.hashOf(e) in old(contents)
      ensures !r ==> ok && unchanged(this, old(bucketA), old(bucketB))
      ensures ok ==> Valid() && contents == old(contents) - {hs.hashOf(e)} && bits >= old(bits)
      ensures !ok ==> bits == 30
      ensures (bucketA == old(bucketA) && bucketB == old(bucketB)) || (fresh(bucketA) && fresh(bucketB))
    {
      var h := hs.hashOf(e);
      var code := Find(h);
      if code == -1 {
        return false, true;
      }
      var bk, i := Ushr32(Wrap32(code), 31), And(Wrap32(code), TWO31 - 1);
      ghost var wa, wb, wbudget := bucketA[..], bucketB[..], 64 - bits;
      RemoveSource(wa, wb, hs, wbudget, contents, h, bk, i);
      if bk == 0 {
        bucketA[i] := None;
      } else {
        bucketB[i] := None;
      }
      assert (bucketA[..], bucketB[..]) == Put(wa, wb, bk, i, None);
      r := true;
      size0 := size0 - 1;
      ghost var target := contents - {h};
      contents := target;
      ok := Regrow(bucketA, bucketB, bucketA[..], bucketB[..], target, wa, wb, wbudget);
    }

    /** `clear`: size zero and every slot emptied, keeping the capacity. */
    method Clear()
      requires Valid()
      modifies this, bucketA, bucketB
      ensures Valid() && contents == map[]
      ensures bucketA == old(bucketA) && bucketB == old(bucketB) && bits == old(bits) && capacity == old(capacity)
    {
      size0 := 0;
      forall i | 0 <= i < bucketA.Length {
        bucketA[i] := None;
      }
      forall i | 0 <= i < bucketB.Length {
        bucketB[i] := None;
      }
      contents := map[];
      EmptyInv(bucketA[..], bucketB[..], hs, 64 - bits);
    }

    /** The add loop of both `addAll`s: `result = add(entry) || result` for each entry in order. */
    method AddEach(elements: seq<T>) returns (r: bool, ok: bool)
      requires Valid()
      modifies this, bucketA, bucketB
      ensures ok ==> Valid() && contents == InsertAll(old(contents), hs, elements)
      ensures ok ==> (r <==> contents != old(contents))
      ensures !ok ==> bits == 30
    {
      r, ok := false, true;
      ghost var c0 := contents;
      ghost var a0, b0 := bucketA, bucketB;
      for i := 0 to |elements|
        invariant Valid() && contents == InsertAll(c0, hs, elements[..i]) && SubMap(c0, contents)
        invariant r <==> contents != c0
        invariant (bucketA == a0 && bucketB == b0) || (fresh(bucketA) && fresh(bucketB))
      {
        assert elements[..i + 1][..i] == elements[..i];
        ghost var before := contents;
        var added;
        added, ok := Add(elements[i]);
        if !ok {
          return;
        }
        r := added || r;
      }
      assert elements[..|elements|] == elements;
    }

    /**
     * `addAll(elements)`: make room for the size plus the number of elements
     * (an `Int` sum, which can wrap), then add each in order. The result says
     * whether the contents changed.
     */
    method AddAll(elements: seq<T>) returns (r: bool, ok: bool)
      requires Valid()
      modifies this, bucketA, bucketB
      ensures ok ==> Valid() && contents == InsertAll(old(contents), hs, elements)
      ensures ok ==> (r <==> contents != old(contents))
    {
      r := false;
      ok := EnsureCapacity(Signed32(Wrap32(size0 + |elements|)));
      if ok {
        r, ok := AddEach(elements);
      }
    }

    /**
     * `addAll(other)`: make room for both sizes, then add the entries of the
     * other table in its iteration order. The other table's entries are read
     * before this one grows, which gives the same result as reading them
     * after when the other table is this one (adding its own entries changes
     * nothing).
     */
    method AddAllFrom(other: BackingMap<T>) returns (ok: bool)
      requires Valid() && other.Valid() && other.hs == hs
      modifies this, bucketA, bucketB
      ensures ok ==> Valid() && contents == Merge(old(contents), old(other.contents))
    {
      var es := other.Iteration();
      ghost var d := other.contents;
      ok := EnsureCapacity(Signed32(Wrap32(size0 + other.size0)));
      if ok {
        var changed;
        changed, ok := AddEach(es);
        if ok {
          InsertAllOf(old(contents), hs, es, d);
        }
      }
    }

    /** `containsAll`: every element's fingerprint is stored; stops at the first that is not. */
    method ContainsAll(elements: seq<T>) returns (r: bool)
      requires Valid()
      ensures r <==> forall x :: x in elements ==> hs.hashOf(x) in contents
    {
      for i := 0 to |elements|
        invariant forall j :: 0 <= j < i ==> hs.hashOf(elements[j]) in contents
      {
        if !Contains(elements[i]) {
          return false;
        }
      }
      return true;
    }

    /** `removeAll`: `result = remove(entry) || result` for each element in order. */
    method RemoveAll(elements: seq<T>) returns (r: bool, ok: bool)
      requires Valid()
      modifies this, bucketA, bucketB
      ensures ok ==> Valid() && contents == Without(old(contents), Hashes(hs, elements))
      ensures ok ==> (r <==> AnyIn(hs, elements, old(contents)))
    {
      r, ok := false, true;
      ghost var c0 := contents;
      ghost var a0, b0 := bucketA, bucketB;
      for i := 0 to |elements|
        invariant Valid() && contents == Without(c0, Hashes(hs, elements[..i]))
        invariant r <==> AnyIn(hs, elements[..i], c0)
        invariant (bucketA == a0 && bucketB == b0) || (fresh(bucketA) && fresh(bucketB))
      {
        RemoveAllStep(c0, hs, elements, i);
        var removed;
        removed, ok := Remove(elements[i]);
        if !ok {
          return;
        }
        r := removed || r;
      }
      assert elements[..|elements|] == elements;
    }

    /**
     * `retainAll`, corrected: every entry the predicate rejects (the other
     * collection's `contains`) is taken out of its slot, then the table is
     * rebuilt at its size when anything was taken out. The result says
     * whether anything was.
     */
    method RetainAll(keep: T -> bool) returns (r: bool, ok: bool)
      requires Valid()
      modifies this, bucketA, bucketB
      ensures r <==> exists h :: h in old(contents) && !keep(old(contents)[h])
      ensures ok ==> Valid() && contents == Retained(old(contents), keep)
      ensures !ok ==> bits == 30
    {
      ghost var wa, wb, wbudget := bucketA[..], bucketB[..], 64 - bits;
      InvHolds(wa, wb, hs, wbudget, contents);
      r := DropRejected(keep);
      RetainSource(wa, wb, hs, wbudget, contents, keep);
      ok := true;
      if r {
        ghost var target := Retained(contents, keep);
        contents := target;
        ok := Regrow(bucketA, bucketB, bucketA[..], bucketB[..], target, wa, wb, wbudget);
      }
    }

    /** The slot loop of `retainAll`: empty every slot whose entry is rejected, bucket A before B. */
    method DropRejected(keep: T -> bool) returns (r: bool)
      requires bucketA.Length == bucketB.Length && bucketA != bucketB
      modifies bucketA, bucketB
      ensures bucketA[..] == Filtered(old(bucketA[..]), keep) && bucketB[..] == Filtered(old(bucketB[..]), keep)
      ensures r <==> Rejects(old(bucketA[..]), keep) || Rejects(old(bucketB[..]), keep)
    {
      ghost var a0, b0 := bucketA[..], bucketB[..];
      r := false;
      for i := 0 to bucketA.Length
        invariant forall j :: 0 <= j < i ==> bucketA[j] == KeepIf(a0[j], keep) && bucketB[j] == KeepIf(b0[j], keep)
        invariant forall j :: i <= j < bucketA.Length ==> bucketA[j] == a0[j] && bucketB[j] == b0[j]
        invariant r <==> Rejects(a0[..i], keep) || Rejects(b0[..i], keep)
      {
        assert a0[..i + 1] == a0[..i] + [a0[i]] && b0[..i + 1] == b0[..i] + [b0[i]];
        RejectsSnoc(a0[..i], a0[i], keep);
        RejectsSnoc(b0[..i], b0[i], keep);
        var a, b := bucketA[i], bucketB[i];
        if a.Some? && !keep(a.value) {
          bucketA[i] := None;
          r := true;
        }
        if b.Some? && !keep(b.value) {
          bucketB[i] := None;
          r := true;
        }
      }
      assert a0[..bucketA.Length] == a0 && b0[..bucketA.Length] == b0;
    }
  }


  // ---- the bulk operations' specifications ----

  /** The contents after adding es in order, each add keeping an entry already there. */
  ghost function InsertAll<T>(c: map<U64, T>, hs: Hashing<T>, es: seq<T>): map<U64, T>
    decreases |es|
  {
    if |es| == 0 then c
    else
      var d := InsertAll(c, hs, es[..|es| - 1]);
      var x := es[|es| - 1];
      if hs.hashOf(x) in d then d else d[hs.hashOf(x) := x]
  }

  /** The fingerprints of the elements. */
  ghost function Hashes<T>(hs: Hashing<T>, es: seq<T>): set<U64> {
    set x | x in es :: hs.hashOf(x)
  }

  /** c, then the entries of d under fingerprints c does not have. */
  ghost function Merge<T>(c: map<U64, T>, d: map<U64, T>): map<U64, T> {
    map h | h in c.Keys + d.Keys :: if h in c then c[h] else d[h]
  }

  /** c without the fingerprints in k. */
  ghost function Without<T>(c: map<U64, T>, k: set<U64>): map<U64, T> {
    map h | h in c && h !in k :: c[h]
  }

  /** The entries of c that the predicate keeps. */
  ghost function Retained<T>(c: map<U64, T>, keep: T -> bool): map<U64, T> {
    map h | h in c && keep(c[h]) :: c[h]
  }

  function KeepIf<T>(o: Option<T>, keep: T -> bool): Option<T> {
    if o.Some? && !keep(o.value) then None else o
  }

  /** A bucket with its rejected entries taken out. */
  function Filtered<T>(a: Bucket<T>, keep: T -> bool): (r: Bucket<T>)
    ensures |r| == |a|
  {
    seq(|a|, j requires 0 <= j < |a| => KeepIf(a[j], keep))
  }

  /** Some slot of the bucket holds an entry the predicate rejects. */
  ghost predicate Rejects<T>(a: Bucket<T>, keep: T -> bool) {
    exists j :: 0 <= j < |a| && a[j].Some? && !keep(a[j].value)
  }

  lemma RejectsSnoc<T>(a: Bucket<T>, o: Option<T>, keep: T -> bool)
    ensures Rejects(a + [o], keep) <==> Rejects(a, keep) || (o.Some? && !keep(o.value))
  {
    if Rejects(a + [o], keep) {
      var j :| 0 <= j < |a| + 1 && (a + [o])[j].Some? && !keep((a + [o])[j].value);
      if j < |a| {
        assert a[j] == (a + [o])[j];
      }
    }
    if Rejects(a, keep) {
      var j :| 0 <= j < |a| && a[j].Some? && !keep(a[j].value);
      assert (a + [o])[j] == a[j];
    }
    if o.Some? && !keep(o.value) {
      assert (a + [o])[|a|] == o;
    }
  }

  /** Some element has its fingerprint among the keys of c. */
  ghost predicate AnyIn<T>(hs: Hashing<T>, es: seq<T>, c: map<U64, T>) {
    exists x :: x in es && hs.hashOf(x) in c
  }

  /**
   * One step of `removeAll`: removing the next element's fingerprint, and
   * whether that removal or an earlier one found something.
   */
  lemma RemoveAllStep<T>(c0: map<U64, T>, hs: Hashing<T>, es: seq<T>, i: nat)
    requires i < |es|
    ensures Without(c0, Hashes(hs, es[..i + 1])) == Without(c0, Hashes(hs, es[..i])) - {hs.hashOf(es[i])}
    ensures AnyIn(hs, es[..i + 1], c0) <==>
      AnyIn(hs, es[..i], c0) || hs.hashOf(es[i]) in Without(c0, Hashes(hs, es[..i]))
  {
    HashesSnoc(hs, es, i);
    var h := hs.hashOf(es[i]);
    if h in c0 && h in Hashes(hs, es[..i]) {
      var x :| x in es[..i] && hs.hashOf(x) == h;
      assert AnyIn(hs, es[..i], c0);
    }
    if AnyIn(hs, es[..i + 1], c0) {
      var x :| x in es[..i + 1] && hs.hashOf(x) in c0;
      if x != es[i] {
        assert AnyIn(hs, es[..i], c0);
      }
    }
    if AnyIn(hs, es[..i], c0) {
      var x :| x in es[..i] && hs.hashOf(x) in c0;
      assert x in es[..i + 1];
    }
    if h in c0 {
      assert es[i] in es[..i + 1];
    }
  }

  lemma HashesSnoc<T>(hs: Hashing<T>, es: seq<T>, i: nat)
    requires i < |es|
    ensures Hashes(hs, es[..i + 1]) == Hashes(hs, es[..i]) + {hs.hashOf(es[i])}
    ensures forall x :: x in es[..i + 1] <==> x in es[..i] || x == es[i]
  {
    assert es[..i + 1] == es[..i] + [es[i]];
  }

  /**
   * Adding in order keeps every entry that was there and adds the first
   * element for each fingerprint not yet there: the keys are the old keys and
   * the elements' fingerprints.
   */
  lemma {:induction false} InsertAllKeys<T>(c: map<U64, T>, hs: Hashing<T>, es: seq<T>)
    ensures InsertAll(c, hs, es).Keys == c.Keys + Hashes(hs, es)
    ensures forall h :: h in c ==> InsertAll(c, hs, es)[h] == c[h]
    ensures forall h :: h in InsertAll(c, hs, es) && h !in c ==>
      InsertAll(c, hs, es)[h] in es && hs.hashOf(InsertAll(c, hs, es)[h]) == h
    decreases |es|
  {
    if |es| > 0 {
      var n := |es| - 1;
      InsertAllKeys(c, hs, es[..n]);
      HashesSnoc(hs, es, n);
      assert es[..n + 1] == es;
    }
  }

  /**
   * Adding the entries of a table d (each under its own fingerprint, each of
   * d's entries among them) merges d into c, the entries of c winning.
   */
  lemma InsertAllOf<T>(c: map<U64, T>, hs: Hashing<T>, es: seq<T>, d: map<U64, T>)
    requires forall x :: x in es ==> hs.hashOf(x) in d && d[hs.hashOf(x)] == x
    requires forall h :: h in d ==> d[h] in es && hs.hashOf(d[h]) == h
    ensures InsertAll(c, hs, es) == Merge(c, d)
  {
    InsertAllKeys(c, hs, es);
    var m := InsertAll(c, hs, es);
    assert Hashes(hs, es) == d.Keys by {
      forall h | h in d
        ensures h in Hashes(hs, es)
      {
        assert d[h] in es;
      }
    }
    forall h | h in m
      ensures m[h] == Merge(c, d)[h]
    {
      if h !in c {
        assert m[h] in es;
      }
    }
  }

  /**
   * After the slot loop of `retainAll` the filtered buckets hold exactly the
   * retained entries, reachable through the buckets before; the loop found a
   * rejected slot exactly when some entry is rejected, and otherwise nothing
   * changed.
   */
  lemma RetainSource<T>(a: Bucket<T>, b: Bucket<T>, hs: Hashing<T>, budget: nat, contents: map<U64, T>, keep: T -> bool)
    requires Inv(a, b, hs, budget, contents)
    ensures Rebuildable(Filtered(a, keep), Filtered(b, keep), hs, Retained(contents, keep), a, b, budget)
    ensures Rejects(a, keep) || Rejects(b, keep) <==> exists h :: h in contents && !keep(contents[h])
    ensures !(Rejects(a, keep) || Rejects(b, keep)) ==>
      Filtered(a, keep) == a && Filtered(b, keep) == b && Retained(contents, keep) == contents
  {
    InvHolds(a, b, hs, budget, contents);
    var fa, fb, target := Filtered(a, keep), Filtered(b, keep), Retained(contents, keep);
    forall bk: nat, i: nat | bk < 2 && i < |fa| && Slot(fa, fb, bk, i).Some?
      ensures hs.hashOf(Slot(fa, fb, bk, i).value) in target
      ensures target[hs.hashOf(Slot(fa, fb, bk, i).value)] == Slot(fa, fb, bk, i).value
    {
      assert Slot(a, b, bk, i) == Slot(fa, fb, bk, i);
    }
    forall h | h in target
      ensures Reaches(a, b, fa, fb, hs, budget, h, target[h])
    {
      FoundMatches(a, b, hs, budget, contents, h);
    }
    if exists h :: h in contents && !keep(contents[h]) {
      var h :| h in contents && !keep(contents[h]);
      FoundMatches(a, b, hs, budget, contents, h);
      var p := Lookup(a, b, hs, budget, h);
      assert Slot(a, b, p.bucket, p.index) == Some(contents[h]);
    }
    if Rejects(a, keep) {
      var j :| 0 <= j < |a| && a[j].Some? && !keep(a[j].value);
      assert Slot(a, b, 0, j) == a[j];
    }
    if Rejects(b, keep) {
      var j :| 0 <= j < |b| && b[j].Some? && !keep(b[j].value);
      assert Slot(a, b, 1, j) == b[j];
    }
    if !(Rejects(a, keep) || Rejects(b, keep)) {
      assert fa == a;
      assert fb == b;
    }
  }

  /**
   * `toTArray`: an array of `size` places filled in iteration order, slot i
   * of bucket A before slot i of bucket B.
   */
  /** A capacity of 2^bits with bits <= 30 is a positive count of at most 2^32 slots. */
  lemma CapacityFits(bits: nat, capacity: nat)
    requires 4 <= bits <= 30 && capacity == Pow2(bits)
    ensures 0 < capacity <= TWO32
  {
    Pow2Monotone(bits, 32);
    Pow2Word();
  }

  /** A new bucket array of n empty slots. */
  method EmptyBucket<T>(n: nat) returns (a: array<Option<T>>)
    ensures fresh(a) && a.Length == n
    ensures forall i :: 0 <= i < n ==> a[i].None?
  {
    a := new Option<T>[n](_ => None);
  }

  method ToTArray<T>(m: BackingMap<T>) returns (arr: array<Option<T>>)
    requires m.Valid()
    ensures fresh(arr) && arr.Length == |m.contents|
    ensures forall k :: 0 <= k < arr.Length ==> arr[k] == Some(m.Iteration()[k])
  {
    IterationIsContents(m.bucketA[..], m.bucketB[..], m.hs, 64 - m.bits, m.contents);
    arr := new Option<T>[m.size0](_ => None);
    Fill(arr, m.bucketA, m.bucketB);
  }

  /** The loop of `toTArray` over the two buckets. */
  method Fill<T>(arr: array<Option<T>>, bucketA: array<Option<T>>, bucketB: array<Option<T>>)
    requires bucketA.Length == bucketB.Length && arr != bucketA && arr != bucketB
    requires arr.Length == |Interleave(bucketA[..], bucketB[..], bucketA.Length)|
    modifies arr
    ensures forall k :: 0 <= k < arr.Length ==> arr[k] == Some(Interleave(bucketA[..], bucketB[..], bucketA.Length)[k])
  {
    ghost var a, b := bucketA[..], bucketB[..];
    var index := 0;
    for i := 0 to bucketA.Length
      invariant index == |Interleave(a, b, i)| <= arr.Length
      invariant forall k :: 0 <= k < index ==> arr[k] == Some(Interleave(a, b, i)[k])
    {
      InterleavePrefix(a, b, i + 1, bucketA.Length);
      ghost var before := Interleave(a, b, i);
      index := Push(arr, index, bucketA[i], before);
      index := Push(arr, index, bucketB[i], before + Opt(a[i]));
      assert Interleave(a, b, i + 1) == before + Opt(a[i]) + Opt(b[i]);
    }
  }

  /** `array[index++] = e` for an occupied slot; `done` is what the first `index` places hold. */
  method Push<T>(arr: array<Option<T>>, index: nat, o: Option<T>, ghost done: seq<T>) returns (next: nat)
    requires index == |done| && index + |Opt(o)| <= arr.Length
    requires forall k :: 0 <= k < index ==> arr[k] == Some(done[k])
    modifies arr
    ensures next == |done + Opt(o)|
    ensures forall k :: 0 <= k < next ==> arr[k] == Some((done + Opt(o))[k])
  {
    next := index;
    if o.Some? {
      arr[index] := o;
      next := index + 1;
    }
  }

  /** A request above the threshold 2^(bits-1) needs at least `bits` bits. */
  /** After growing to at least `m` bits the table has n slots; failing to grow means n is past 2^30. */
  lemma GrowthFits(n: nat, m: nat, bits: nat, ok: bool)
    requires 1 <= n && m == CeilLog2(n)
    requires ok ==> bits >= m
    ensures ok ==> n <= Pow2(bits)
    ensures m > 30 ==> n > 0x4000_0000
  {
    if ok {
      Pow2Monotone(m, bits);
    }
    if m > 30 {
      Pow2Monotone(30, m - 1);
      Pow2Thirty();
    }
  }

  lemma GrowthShift(n: nat, bits: nat)
    requires 1 <= bits && Pow2(bits) / 2 < n
    ensures CeilLog2(n) >= bits
  {
    var m := CeilLog2(n);
    if m < bits {
      Pow2Monotone(m, bits - 1);
    }
  }

  /**
   * Emptying the slot where the probe for h matches leaves buckets that are
   * rebuildable into the contents without h, witnessed by the buckets before.
   */
  lemma RemoveSource<T>(a: Bucket<T>, b: Bucket<T>, hs: Hashing<T>, budget: nat, contents: map<U64, T>, h: U64,
                        bk: nat, i: nat)
    requires Inv(a, b, hs, budget, contents) && h in contents
    requires Lookup(a, b, hs, budget, h) == Match(bk, i, contents[h])
    ensures var (a2, b2) := Put(a, b, bk, i, None);
      Rebuildable(a2, b2, hs, contents - {h}, a, b, budget)
  {
    InvHolds(a, b, hs, budget, contents);
    var (a2, b2) := Put(a, b, bk, i, None);
    var target := contents - {h};
    forall bk2: nat, i2: nat | bk2 < 2 && i2 < |a2| && Slot(a2, b2, bk2, i2).Some?
      ensures hs.hashOf(Slot(a2, b2, bk2, i2).value) in target
      ensures target[hs.hashOf(Slot(a2, b2, bk2, i2).value)] == Slot(a2, b2, bk2, i2).value
    {
      assert Slot(a, b, bk2, i2) == Slot(a2, b2, bk2, i2);
      if hs.hashOf(Slot(a, b, bk2, i2).value) == h {
        StoredMatches(a, b, hs, budget, contents, bk2, i2);
      }
    }
    forall h2 | h2 in target
      ensures Reaches(a, b, a2, b2, hs, budget, h2, target[h2])
    {
      FoundMatches(a, b, hs, budget, contents, h2);
    }
  }

  /**
   * What `Rebuild` needs of old buckets (a, b): every entry they hold is in
   * `target` under its fingerprint, and each key of `target` is found, in
   * buckets (wa, wb), at a slot of (a, b) holding its entry.
   */
  ghost predicate Rebuildable<T>(a: Bucket<T>, b: Bucket<T>, hs: Hashing<T>, target: map<U64, T>,
                                 wa: Bucket<T>, wb: Bucket<T>, budget: nat)
  {
    && 0 < |wa| == |wb| <= TWO32 && |a| == |b| == |wa|
    && Holds(a, b, hs, target)
    && forall h :: h in target ==> Reaches(wa, wb, a, b, hs, budget, h, target[h])
  }

  /** The buckets of a valid table are rebuildable from themselves. */
  lemma RehashSource<T>(a: Bucket<T>, b: Bucket<T>, hs: Hashing<T>, budget: nat, contents: map<U64, T>)
    requires Inv(a, b, hs, budget, contents)
    ensures Rebuildable(a, b, hs, contents, a, b, budget)
  {
    InvHolds(a, b, hs, budget, contents);
    forall h | h in contents
      ensures Reaches(a, b, a, b, hs, budget, h, contents[h])
    {
      FoundMatches(a, b, hs, budget, contents, h);
    }
  }

  lemma HoldsSlot<T>(a: Bucket<T>, b: Bucket<T>, hs: Hashing<T>, contents: map<U64, T>, bk: nat, i: nat)
    requires |a| == |b| && bk < 2 && i < |a| && Holds(a, b, hs, contents)
    ensures Slot(a, b, bk, i).Some? ==>
      hs.hashOf(Slot(a, b, bk, i).value) in contents && contents[hs.hashOf(Slot(a, b, bk, i).value)] == Slot(a, b, bk, i).value
  {
  }

  /** `c` agrees with `t` on every key of `c`. */
  ghost predicate SubMap<T>(c: map<U64, T>, t: map<U64, T>) {
    forall h :: h in c ==> h in t && c[h] == t[h]
  }

  /** The entries of slot i of both old buckets are the target's entries for their fingerprints. */
  lemma SlotsAt<T>(a: Bucket<T>, b: Bucket<T>, hs: Hashing<T>, target: map<U64, T>, i: nat, x: Option<T>, y: Option<T>)
    requires |a| == |b| && i < |a| && Holds(a, b, hs, target) && x == a[i] && y == b[i]
    ensures x.Some? ==> hs.hashOf(x.value) in target && target[hs.hashOf(x.value)] == x.value
    ensures y.Some? ==> hs.hashOf(y.value) in target && target[hs.hashOf(y.value)] == y.value
  {
    HoldsSlot(a, b, hs, target, 0, i);
    HoldsSlot(a, b, hs, target, 1, i);
  }

  /** The entry in slot (bk, j), if any, has its fingerprint among the keys of c. */
  ghost predicate PlacedAt<T>(a: Bucket<T>, b: Bucket<T>, hs: Hashing<T>, c: map<U64, T>, bk: nat, j: nat)
    requires |a| == |b| && bk < 2 && j < |a|
  {
    Slot(a, b, bk, j).Some? ==> hs.hashOf(Slot(a, b, bk, j).value) in c
  }

  /** The slots below n have all been re-added into c. */
  ghost predicate PlacedBelow<T>(a: Bucket<T>, b: Bucket<T>, hs: Hashing<T>, c: map<U64, T>, n: nat)
    requires n <= |a| == |b|
  {
    forall bk: nat, j: nat {:trigger PlacedAt(a, b, hs, c, bk, j)} :: bk < 2 && j < n ==> PlacedAt(a, b, hs, c, bk, j)
  }

  lemma PlacedGrow<T>(a: Bucket<T>, b: Bucket<T>, hs: Hashing<T>, c: map<U64, T>, c2: map<U64, T>, n: nat)
    requires n <= |a| == |b| && PlacedBelow(a, b, hs, c, n) && c.Keys <= c2.Keys
    ensures PlacedBelow(a, b, hs, c2, n)
  {
    forall bk: nat, j: nat | bk < 2 && j < n
      ensures PlacedAt(a, b, hs, c2, bk, j)
    {
      assert PlacedAt(a, b, hs, c, bk, j);
    }
  }

  lemma PlacedStep<T>(a: Bucket<T>, b: Bucket<T>, hs: Hashing<T>, c: map<U64, T>, n: nat)
    requires n < |a| == |b| && PlacedBelow(a, b, hs, c, n)
    requires PlacedAt(a, b, hs, c, 0, n) && PlacedAt(a, b, hs, c, 1, n)
    ensures PlacedBelow(a, b, hs, c, n + 1)
  {
    forall bk: nat, j: nat | bk < 2 && j < n + 1
      ensures PlacedAt(a, b, hs, c, bk, j)
    {
      if j < n {
        assert PlacedAt(a, b, hs, c, bk, j);
      }
    }
  }

  /** Once every old slot is re-added, the rebuilt contents are the whole target. */
  lemma PlacedAll<T>(wa: Bucket<T>, wb: Bucket<T>, a: Bucket<T>, b: Bucket<T>, hs: Hashing<T>, budget: nat,
                     c: map<U64, T>, target: map<U64, T>)
    requires Rebuildable(a, b, hs, target, wa, wb, budget)
    requires PlacedBelow(a, b, hs, c, |a|) && SubMap(c, target)
    ensures c == target
  {
    forall h | h in target
      ensures h in c
    {
      var p := Lookup(wa, wb, hs, budget, h);
      assert Reaches(wa, wb, a, b, hs, budget, h, target[h]);
      assert PlacedAt(a, b, hs, c, p.bucket, p.index);
    }
  }

  /** A slot index of a table of at most 30 bits is below 2^30. */
  lemma SlotBound(bits: nat, i: nat)
    requires bits <= 30 && i < Pow2(bits)
    ensures i < 0x4000_0000
  {
    Pow2Monotone(bits, 30);
    Pow2Thirty();
  }

  /** Every key of `target` is found in (wa, wb) at a slot that in (a, b) holds its entry. */
  ghost predicate Reaches<T>(wa: Bucket<T>, wb: Bucket<T>, a: Bucket<T>, b: Bucket<T>, hs: Hashing<T>, budget: nat, h: U64, e: T)
    requires 0 < |wa| == |wb| <= TWO32 && |a| == |b| == |wa|
  {
    var p := Lookup(wa, wb, hs, budget, h);
    p.Match? && Slot(a, b, p.bucket, p.index) == Some(e) && hs.hashOf(e) == h
  }
}
