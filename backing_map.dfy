/**
 * `BackingMap`: the current generation's entry table. Two parallel bucket
 * arrays of `capacity` slots; an entry with 64-bit fingerprint h is probed
 * first in bucket A at `mix(h) & (capacity - 1)`; on a slot holding a
 * different fingerprint the probe flips to the other bucket, shifts h right
 * by one bit and spends one unit of a budget of `64 - bits` steps.
 *
 * The pure part here (probe walk, table invariant, resize arithmetic) works on
 * sequences; the class in module `BackingMapTables` keeps the arrays.
 */
module BackingMaps {
  import opened Wrappers
  import opened Bits
  import opened Jvm

  /** `hashCodeLong()` of the entries and fastutil's `HashCommon.mix`, which is not part of this model. */
  datatype Hashing<-T> = Hashing(hashOf: T -> U64, mix: U64 -> U64)

  type Bucket<T> = seq<Option<T>>

  /** `HashCommon.mix(h).toInt() and (capacity - 1)`. */
  function Index<T>(hs: Hashing<T>, h: U64, capacity: nat): (r: nat)
    requires 0 < capacity <= TWO32
    ensures r < capacity
  {
    AndLe(LongToInt(hs.mix(h)), capacity - 1);
    And(LongToInt(hs.mix(h)), capacity - 1)
  }

  /** For a power-of-two capacity the mask is the remainder. */
  lemma IndexIs<T>(hs: Hashing<T>, h: U64, k: nat)
    requires k <= 32
    ensures Pow2(k) <= TWO32
    ensures Index(hs, h, Pow2(k)) == LongToInt(hs.mix(h)) % Pow2(k)
  {
    Pow2Monotone(k, 32);
    Pow2Word();
    AndMask(LongToInt(hs.mix(h)), k);
  }

  /** Where a probe ends: an empty slot, the slot of an entry with the fingerprint, or an exhausted budget. */
  datatype Probe<T> =
    | Empty(bucket: nat, index: nat, first: bool)
    | Match(bucket: nat, index: nat, entry: T)
    | Exhausted

  function Slot<T>(a: Bucket<T>, b: Bucket<T>, bucket: nat, index: nat): Option<T>
    requires bucket < 2 && index < |a| == |b|
  {
    if bucket == 0 then a[index] else b[index]
  }

  /**
   * The probe of `internalAdd`/`internalGet`/`internalFind`/`rehashAdd` from
   * `bucketIndex` with `remainBits` steps left.
   */
  function Walk<T>(a: Bucket<T>, b: Bucket<T>, hs: Hashing<T>, bucket: nat, remain: nat, h: U64, raw: U64, first: bool): (r: Probe<T>)
    requires 0 < |a| == |b| <= TWO32 && bucket < 2
    ensures r.Match? ==> r.bucket < 2 && r.index < |a| && Slot(a, b, r.bucket, r.index) == Some(r.entry) && hs.hashOf(r.entry) == raw
    ensures r.Empty? ==> r.bucket < 2 && r.index < |a| && Slot(a, b, r.bucket, r.index).None?
    decreases remain
  {
    var i := Index(hs, h, |a|);
    match Slot(a, b, bucket, i)
    case None => Empty(bucket, i, first)
    case Some(e) =>
      if hs.hashOf(e) == raw then Match(bucket, i, e)
      else if remain != 0 then Walk(a, b, hs, 1 - bucket, remain - 1, h / 2, raw, false)
      else Exhausted
  }

  /** The probe for fingerprint h from its start, with `64 - bits` steps. */
  function Lookup<T>(a: Bucket<T>, b: Bucket<T>, hs: Hashing<T>, budget: nat, h: U64): Probe<T>
    requires 0 < |a| == |b| <= TWO32
  {
    Walk(a, b, hs, 0, budget, h, h, true)
  }

  /** The entry in slot (bk, i), if any, is where the probe for its fingerprint stops. */
  ghost predicate StoredAt<T>(a: Bucket<T>, b: Bucket<T>, hs: Hashing<T>, budget: nat, bk: nat, i: nat)
    requires 0 < |a| == |b| <= TWO32 && bk < 2 && i < |a|
  {
    var s := Slot(a, b, bk, i);
    s.Some? ==> Lookup(a, b, hs, budget, hs.hashOf(s.value)) == Match(bk, i, s.value)
  }

  /** Every stored entry is where the probe for its fingerprint stops. */
  ghost predicate Stored<T>(a: Bucket<T>, b: Bucket<T>, hs: Hashing<T>, budget: nat)
    requires 0 < |a| == |b| <= TWO32
  {
    forall bk: nat, i: nat {:trigger StoredAt(a, b, hs, budget, bk, i)} :: bk < 2 && i < |a| ==> StoredAt(a, b, hs, budget, bk, i)
  }

  /** The probe for h finds exactly the entry `contents` has for h. */
  ghost predicate FoundAt<T>(a: Bucket<T>, b: Bucket<T>, hs: Hashing<T>, budget: nat, contents: map<U64, T>, h: U64)
    requires 0 < |a| == |b| <= TWO32
  {
    var p := Lookup(a, b, hs, budget, h);
    (h in contents <==> p.Match?) && (h in contents ==> p.entry == contents[h])
  }

  /** `contents` is exactly what probes find. */
  ghost predicate Found<T>(a: Bucket<T>, b: Bucket<T>, hs: Hashing<T>, budget: nat, contents: map<U64, T>)
    requires 0 < |a| == |b| <= TWO32
  {
    forall h {:trigger FoundAt(a, b, hs, budget, contents, h)} :: FoundAt(a, b, hs, budget, contents, h)
  }

  /** The table invariant. */
  ghost predicate Inv<T>(a: Bucket<T>, b: Bucket<T>, hs: Hashing<T>, budget: nat, contents: map<U64, T>)
  {
    0 < |a| == |b| <= TWO32 && Stored(a, b, hs, budget) && Found(a, b, hs, budget, contents)
  }

  /** The buckets with slot (bucket, index) set to v. */
  function Put<T>(a: Bucket<T>, b: Bucket<T>, bucket: nat, index: nat, v: Option<T>): (r: (Bucket<T>, Bucket<T>))
    requires bucket < 2 && index < |a| == |b|
    ensures |r.0| == |r.1| == |a|
  {
    if bucket == 0 then (a[index := v], b) else (a, b[index := v])
  }

  /** A probe that does not stop at an empty slot s is not changed by filling s. */
  lemma {:induction false} WalkFill<T>(a: Bucket<T>, b: Bucket<T>, hs: Hashing<T>, bucket: nat, remain: nat, h: U64, raw: U64, first: bool,
                                      sb: nat, si: nat, x: T)
    requires 0 < |a| == |b| <= TWO32 && bucket < 2 && sb < 2 && si < |a|
    requires Slot(a, b, sb, si).None?
    requires var r := Walk(a, b, hs, bucket, remain, h, raw, first); !(r.Empty? && r.bucket == sb && r.index == si)
    ensures var ab := Put(a, b, sb, si, Some(x));
      Walk(ab.0, ab.1, hs, bucket, remain, h, raw, first) == Walk(a, b, hs, bucket, remain, h, raw, first)
    decreases remain
  {
    var ab := Put(a, b, sb, si, Some(x));
    var i := Index(hs, h, |a|);
    assert Slot(ab.0, ab.1, bucket, i) == Slot(a, b, bucket, i);
    if Slot(a, b, bucket, i).Some? && hs.hashOf(Slot(a, b, bucket, i).value) != raw && remain != 0 {
      WalkFill(a, b, hs, 1 - bucket, remain - 1, h / 2, raw, false, sb, si, x);
    }
  }

  /** The probe that stopped at the empty slot s now finds x there. */
  lemma {:induction false} WalkFilled<T>(a: Bucket<T>, b: Bucket<T>, hs: Hashing<T>, bucket: nat, remain: nat, h: U64, raw: U64, first: bool,
                                        sb: nat, si: nat, x: T)
    requires 0 < |a| == |b| <= TWO32 && bucket < 2 && sb < 2 && si < |a|
    requires var r := Walk(a, b, hs, bucket, remain, h, raw, first); r.Empty? && r.bucket == sb && r.index == si
    requires hs.hashOf(x) == raw
    ensures var ab := Put(a, b, sb, si, Some(x));
      Walk(ab.0, ab.1, hs, bucket, remain, h, raw, first) == Match(sb, si, x)
    decreases remain
  {
    var ab := Put(a, b, sb, si, Some(x));
    var i := Index(hs, h, |a|);
    if Slot(a, b, bucket, i).Some? {
      assert Slot(ab.0, ab.1, bucket, i) == Slot(a, b, bucket, i);
      WalkFilled(a, b, hs, 1 - bucket, remain - 1, h / 2, raw, false, sb, si, x);
    }
  }

  /** Filling the empty slot where the probe for x's fingerprint stops keeps the invariant, adding x. */
  lemma InsertKeepsInv<T>(a: Bucket<T>, b: Bucket<T>, hs: Hashing<T>, budget: nat, contents: map<U64, T>, x: T)
    requires Inv(a, b, hs, budget, contents)
    requires Lookup(a, b, hs, budget, hs.hashOf(x)).Empty?
    ensures var p := Lookup(a, b, hs, budget, hs.hashOf(x));
      var ab := Put(a, b, p.bucket, p.index, Some(x));
      hs.hashOf(x) !in contents && Inv(ab.0, ab.1, hs, budget, contents[hs.hashOf(x) := x])
  {
    var hx := hs.hashOf(x);
    var p := Lookup(a, b, hs, budget, hx);
    var ab := Put(a, b, p.bucket, p.index, Some(x));
    WalkFilled(a, b, hs, 0, budget, hx, hx, true, p.bucket, p.index, x);
    InsertKeepsOthers(a, b, hs, budget, x, p);
    InsertKeepsStored(a, b, hs, budget, contents, x, p);
    InsertKeepsFound(a, b, hs, budget, contents, x, p);
  }

  /** Probes that found something before the insertion find the same thing after it. */
  lemma InsertKeepsOthers<T>(a: Bucket<T>, b: Bucket<T>, hs: Hashing<T>, budget: nat, x: T, p: Probe<T>)
    requires 0 < |a| == |b| <= TWO32
    requires p == Lookup(a, b, hs, budget, hs.hashOf(x)) && p.Empty?
    ensures var ab := Put(a, b, p.bucket, p.index, Some(x));
      forall h :: Lookup(a, b, hs, budget, h).Match? ==> Lookup(ab.0, ab.1, hs, budget, h) == Lookup(a, b, hs, budget, h)
  {
    var ab := Put(a, b, p.bucket, p.index, Some(x));
    forall h | Lookup(a, b, hs, budget, h).Match?
      ensures Lookup(ab.0, ab.1, hs, budget, h) == Lookup(a, b, hs, budget, h)
    {
      WalkFill(a, b, hs, 0, budget, h, h, true, p.bucket, p.index, x);
    }
  }

  lemma InsertKeepsStored<T>(a: Bucket<T>, b: Bucket<T>, hs: Hashing<T>, budget: nat, contents: map<U64, T>, x: T, p: Probe<T>)
    requires Inv(a, b, hs, budget, contents)
    requires p == Lookup(a, b, hs, budget, hs.hashOf(x)) && p.Empty?
    requires var ab := Put(a, b, p.bucket, p.index, Some(x));
      Lookup(ab.0, ab.1, hs, budget, hs.hashOf(x)) == Match(p.bucket, p.index, x)
    requires var ab := Put(a, b, p.bucket, p.index, Some(x));
      forall h :: Lookup(a, b, hs, budget, h).Match? ==> Lookup(ab.0, ab.1, hs, budget, h) == Lookup(a, b, hs, budget, h)
    ensures var ab := Put(a, b, p.bucket, p.index, Some(x));
      Stored(ab.0, ab.1, hs, budget)
  {
    var ab := Put(a, b, p.bucket, p.index, Some(x));
    var a2, b2 := ab.0, ab.1;
    forall bk: nat, i: nat | bk < 2 && i < |a2|
      ensures StoredAt(a2, b2, hs, budget, bk, i)
    {
      if Slot(a2, b2, bk, i).Some? && !(p.bucket == bk && p.index == i) {
        assert Slot(a2, b2, bk, i) == Slot(a, b, bk, i);
        StoredMatches(a, b, hs, budget, contents, bk, i);
      }
    }
  }

  lemma InsertKeepsFound<T>(a: Bucket<T>, b: Bucket<T>, hs: Hashing<T>, budget: nat, contents: map<U64, T>, x: T, p: Probe<T>)
    requires Inv(a, b, hs, budget, contents)
    requires p == Lookup(a, b, hs, budget, hs.hashOf(x)) && p.Empty?
    requires var ab := Put(a, b, p.bucket, p.index, Some(x));
      Lookup(ab.0, ab.1, hs, budget, hs.hashOf(x)) == Match(p.bucket, p.index, x)
    requires var ab := Put(a, b, p.bucket, p.index, Some(x));
      forall h :: Lookup(a, b, hs, budget, h).Match? ==> Lookup(ab.0, ab.1, hs, budget, h) == Lookup(a, b, hs, budget, h)
    ensures hs.hashOf(x) !in contents
    ensures var ab := Put(a, b, p.bucket, p.index, Some(x));
      Found(ab.0, ab.1, hs, budget, contents[hs.hashOf(x) := x])
  {
    var hx := hs.hashOf(x);
    var ab := Put(a, b, p.bucket, p.index, Some(x));
    var a2, b2 := ab.0, ab.1;
    var c2 := contents[hx := x];
    FoundMatches(a, b, hs, budget, contents, hx);
    forall h
      ensures FoundAt(a2, b2, hs, budget, c2, h)
    {
      FoundMatches(a, b, hs, budget, contents, h);
      if h != hx && Lookup(a2, b2, hs, budget, h).Match? {
        var q := Lookup(a2, b2, hs, budget, h);
        assert !(q.bucket == p.bucket && q.index == p.index);
        assert Slot(a, b, q.bucket, q.index) == Some(q.entry);
        StoredMatches(a, b, hs, budget, contents, q.bucket, q.index);
      }
    }
  }

  /** The invariant's first two clauses, for a slot given by bucket and index. */
  lemma StoredMatches<T>(a: Bucket<T>, b: Bucket<T>, hs: Hashing<T>, budget: nat, contents: map<U64, T>, bucket: nat, i: nat)
    requires Inv(a, b, hs, budget, contents)
    requires bucket < 2 && i < |a| && Slot(a, b, bucket, i).Some?
    ensures var e := Slot(a, b, bucket, i).value;
      Lookup(a, b, hs, budget, hs.hashOf(e)) == Match(bucket, i, e)
  {
    assert StoredAt(a, b, hs, budget, bucket, i);
  }

  /** The invariant's last two clauses, for one fingerprint. */
  lemma FoundMatches<T>(a: Bucket<T>, b: Bucket<T>, hs: Hashing<T>, budget: nat, contents: map<U64, T>, h: U64)
    requires Inv(a, b, hs, budget, contents)
    ensures h in contents <==> Lookup(a, b, hs, budget, h).Match?
    ensures h in contents ==> Lookup(a, b, hs, budget, h).entry == contents[h]
  {
    assert FoundAt(a, b, hs, budget, contents, h);
  }

  /** Fresh buckets hold nothing. */
  lemma EmptyInv<T>(a: Bucket<T>, b: Bucket<T>, hs: Hashing<T>, budget: nat)
    requires 0 < |a| == |b| <= TWO32
    requires forall i :: 0 <= i < |a| ==> a[i].None? && b[i].None?
    ensures Inv(a, b, hs, budget, map[])
  {
    forall h
      ensures FoundAt(a, b, hs, budget, map[], h)
    {
    }
    forall bk: nat, i: nat | bk < 2 && i < |a|
      ensures StoredAt(a, b, hs, budget, bk, i)
    {
    }
  }

  // ---- Iteration order of forEach / forEachFast / toTArray ----

  function Opt<T>(o: Option<T>): seq<T> {
    if o.Some? then [o.value] else []
  }

  /** The entries of slots 0 .. n-1, slot i of bucket A before slot i of bucket B. */
  function Interleave<T>(a: Bucket<T>, b: Bucket<T>, n: nat): seq<T>
    requires n <= |a| == |b|
  {
    if n == 0 then [] else Interleave(a, b, n - 1) + Opt(a[n - 1]) + Opt(b[n - 1])
  }

  /** The fingerprints of the entries in slots 0 .. n-1. */
  ghost function KeysBelow<T>(a: Bucket<T>, b: Bucket<T>, hs: Hashing<T>, n: nat): set<U64>
    requires n <= |a| == |b|
  {
    if n == 0 then {}
    else KeysBelow(a, b, hs, n - 1) + KeyOf(a[n - 1], hs) + KeyOf(b[n - 1], hs)
  }

  ghost function KeyOf<T>(o: Option<T>, hs: Hashing<T>): set<U64> {
    if o.Some? then {hs.hashOf(o.value)} else {}
  }

  /** A fingerprint among the first n slots is the fingerprint of an entry stored in one of them. */
  lemma {:induction false} KeysBelowSlot<T>(a: Bucket<T>, b: Bucket<T>, hs: Hashing<T>, n: nat, h: U64)
    requires n <= |a| == |b|
    requires h in KeysBelow(a, b, hs, n)
    ensures exists bk, i :: 0 <= bk < 2 && 0 <= i < n && Slot(a, b, bk, i).Some? && hs.hashOf(Slot(a, b, bk, i).value) == h
    decreases n
  {
    if h in KeysBelow(a, b, hs, n - 1) {
      KeysBelowSlot(a, b, hs, n - 1, h);
      var bk, i :| 0 <= bk < 2 && 0 <= i < n - 1 && Slot(a, b, bk, i).Some? && hs.hashOf(Slot(a, b, bk, i).value) == h;
      assert 0 <= i < n;
    } else if a[n - 1].Some? && hs.hashOf(a[n - 1].value) == h {
      assert Slot(a, b, 0, n - 1) == a[n - 1];
    } else {
      assert Slot(a, b, 1, n - 1) == b[n - 1];
    }
  }

  /** Each occupied slot holds the entry `contents` has for its fingerprint. */
  ghost predicate Holds<T>(a: Bucket<T>, b: Bucket<T>, hs: Hashing<T>, contents: map<U64, T>)
    requires |a| == |b|
  {
    forall bk: nat, i: nat :: bk < 2 && i < |a| && Slot(a, b, bk, i).Some? ==>
      hs.hashOf(Slot(a, b, bk, i).value) in contents && contents[hs.hashOf(Slot(a, b, bk, i).value)] == Slot(a, b, bk, i).value
  }

  /** No fingerprint is in two slots. */
  ghost predicate Distinct<T>(a: Bucket<T>, b: Bucket<T>, hs: Hashing<T>)
    requires |a| == |b|
  {
    forall bk: nat, i: nat, bk2: nat, i2: nat :: SameKey(a, b, hs, bk, i, bk2, i2) ==> bk == bk2 && i == i2
  }

  /** Slots (bk, i) and (bk2, i2) are occupied by entries with the same fingerprint. */
  ghost predicate SameKey<T>(a: Bucket<T>, b: Bucket<T>, hs: Hashing<T>, bk: nat, i: nat, bk2: nat, i2: nat)
    requires |a| == |b|
  {
    bk < 2 && i < |a| && bk2 < 2 && i2 < |a| && Slot(a, b, bk, i).Some? && Slot(a, b, bk2, i2).Some? &&
    hs.hashOf(Slot(a, b, bk, i).value) == hs.hashOf(Slot(a, b, bk2, i2).value)
  }

  lemma InvHolds<T>(a: Bucket<T>, b: Bucket<T>, hs: Hashing<T>, budget: nat, contents: map<U64, T>)
    requires Inv(a, b, hs, budget, contents)
    ensures Holds(a, b, hs, contents) && Distinct(a, b, hs)
  {
    forall bk: nat, i: nat | bk < 2 && i < |a| && Slot(a, b, bk, i).Some?
      ensures hs.hashOf(Slot(a, b, bk, i).value) in contents && contents[hs.hashOf(Slot(a, b, bk, i).value)] == Slot(a, b, bk, i).value
    {
      StoredMatches(a, b, hs, budget, contents, bk, i);
      FoundMatches(a, b, hs, budget, contents, hs.hashOf(Slot(a, b, bk, i).value));
    }
    forall bk: nat, i: nat, bk2: nat, i2: nat | SameKey(a, b, hs, bk, i, bk2, i2)
      ensures bk == bk2 && i == i2
    {
      StoredMatches(a, b, hs, budget, contents, bk, i);
      StoredMatches(a, b, hs, budget, contents, bk2, i2);
    }
  }

  /**
   * Every occupied slot is visited exactly once: the visited entries have
   * distinct fingerprints, one for each slot, so their number is the number of
   * fingerprints in those slots.
   */
  lemma InterleaveCount<T>(a: Bucket<T>, b: Bucket<T>, hs: Hashing<T>, n: nat)
    requires n <= |a| == |b| && Distinct(a, b, hs)
    ensures |Interleave(a, b, n)| == |KeysBelow(a, b, hs, n)|
  {
    InterleaveLength(a, b, n);
    KeysCount(a, b, hs, n);
  }

  /** The number of occupied slots among slots 0 .. n-1 of both buckets. */
  function Occupied<T>(a: Bucket<T>, b: Bucket<T>, n: nat): nat
    requires n <= |a| == |b|
  {
    if n == 0 then 0 else Occupied(a, b, n - 1) + |Opt(a[n - 1])| + |Opt(b[n - 1])|
  }

  lemma {:induction false} InterleaveLength<T>(a: Bucket<T>, b: Bucket<T>, n: nat)
    requires n <= |a| == |b|
    ensures |Interleave(a, b, n)| == Occupied(a, b, n)
    decreases n
  {
    if n > 0 {
      InterleaveLength(a, b, n - 1);
    }
  }

  lemma {:induction false} KeysCount<T>(a: Bucket<T>, b: Bucket<T>, hs: Hashing<T>, n: nat)
    requires n <= |a| == |b| && Distinct(a, b, hs)
    ensures |KeysBelow(a, b, hs, n)| == Occupied(a, b, n)
    decreases n
  {
    if n > 0 {
      KeysCount(a, b, hs, n - 1);
      KeysStep(a, b, hs, n);
    }
  }

  /** The visited entries are stored entries. */
  lemma {:induction false} InterleaveEntries<T>(a: Bucket<T>, b: Bucket<T>, hs: Hashing<T>, contents: map<U64, T>, n: nat)
    requires n <= |a| == |b| && Holds(a, b, hs, contents)
    ensures forall x :: x in Interleave(a, b, n) ==> hs.hashOf(x) in contents && contents[hs.hashOf(x)] == x
    decreases n
  {
    if n > 0 {
      InterleaveEntries(a, b, hs, contents, n - 1);
      assert Slot(a, b, 0, n - 1) == a[n - 1];
      assert Slot(a, b, 1, n - 1) == b[n - 1];
    }
  }

  /** Slot n-1 adds one new fingerprint per occupied bucket. */
  lemma KeysStep<T>(a: Bucket<T>, b: Bucket<T>, hs: Hashing<T>, n: nat)
    requires 0 < n <= |a| == |b| && Distinct(a, b, hs)
    ensures |KeysBelow(a, b, hs, n)| == |KeysBelow(a, b, hs, n - 1)| + |Opt(a[n - 1])| + |Opt(b[n - 1])|
  {
    var k := KeysBelow(a, b, hs, n - 1);
    if a[n - 1].Some? {
      NewSlotKey(a, b, hs, n - 1, 0);
      assert Slot(a, b, 0, n - 1) == a[n - 1];
    }
    if b[n - 1].Some? {
      NewSlotKey(a, b, hs, n - 1, 1);
      assert Slot(a, b, 1, n - 1) == b[n - 1];
    }
    if a[n - 1].Some? && b[n - 1].Some? {
      assert Slot(a, b, 0, n - 1) == a[n - 1] && Slot(a, b, 1, n - 1) == b[n - 1];
      assert !SameKey(a, b, hs, 0, n - 1, 1, n - 1);
    }
    KeyUnion(k, a[n - 1], b[n - 1], hs);
  }

  lemma KeyUnion<T>(k: set<U64>, x: Option<T>, y: Option<T>, hs: Hashing<T>)
    requires x.Some? ==> hs.hashOf(x.value) !in k
    requires y.Some? ==> hs.hashOf(y.value) !in k
    requires x.Some? && y.Some? ==> hs.hashOf(x.value) != hs.hashOf(y.value)
    ensures |k + KeyOf(x, hs) + KeyOf(y, hs)| == |k| + |Opt(x)| + |Opt(y)|
  {
    var kx, ky := KeyOf(x, hs), KeyOf(y, hs);
    assert k !! kx && (k + kx) !! ky;
  }

  /** The fingerprint in slot (bk, m) is not among those of the slots before m. */
  lemma NewSlotKey<T>(a: Bucket<T>, b: Bucket<T>, hs: Hashing<T>, m: nat, bk: nat)
    requires m < |a| == |b| && bk < 2 && Slot(a, b, bk, m).Some? && Distinct(a, b, hs)
    ensures hs.hashOf(Slot(a, b, bk, m).value) !in KeysBelow(a, b, hs, m)
  {
    var h := hs.hashOf(Slot(a, b, bk, m).value);
    if h in KeysBelow(a, b, hs, m) {
      KeysBelowSlot(a, b, hs, m, h);
      var bk2, i2 :| 0 <= bk2 < 2 && 0 <= i2 < m && Slot(a, b, bk2, i2).Some? && hs.hashOf(Slot(a, b, bk2, i2).value) == h;
      assert SameKey(a, b, hs, bk, m, bk2, i2);
    }
  }

  /** The fingerprints in all slots are the keys of the contents. */
  lemma KeysAreContents<T>(a: Bucket<T>, b: Bucket<T>, hs: Hashing<T>, budget: nat, contents: map<U64, T>)
    requires Inv(a, b, hs, budget, contents)
    ensures KeysBelow(a, b, hs, |a|) == contents.Keys
  {
    forall h | h in contents
      ensures h in KeysBelow(a, b, hs, |a|)
    {
      FoundMatches(a, b, hs, budget, contents, h);
      var p := Lookup(a, b, hs, budget, h);
      SlotInKeys(a, b, hs, |a|, p.bucket, p.index);
    }
    forall h | h in KeysBelow(a, b, hs, |a|)
      ensures h in contents
    {
      KeysBelowSlot(a, b, hs, |a|, h);
      var bk, i :| 0 <= bk < 2 && 0 <= i < |a| && Slot(a, b, bk, i).Some? && hs.hashOf(Slot(a, b, bk, i).value) == h;
      StoredMatches(a, b, hs, budget, contents, bk, i);
      FoundMatches(a, b, hs, budget, contents, h);
    }
  }

  lemma {:induction false} SlotInKeys<T>(a: Bucket<T>, b: Bucket<T>, hs: Hashing<T>, n: nat, bk: nat, i: nat)
    requires n <= |a| == |b| && bk < 2 && i < n && Slot(a, b, bk, i).Some?
    ensures hs.hashOf(Slot(a, b, bk, i).value) in KeysBelow(a, b, hs, n)
    decreases n
  {
    if i < n - 1 {
      SlotInKeys(a, b, hs, n - 1, bk, i);
    } else if bk == 0 {
      assert a[n - 1] == Slot(a, b, bk, i);
    } else {
      assert b[n - 1] == Slot(a, b, bk, i);
    }
  }

  /** `forEach` visits each stored entry exactly once: as many visits as entries, and only entries. */
  lemma IterationIsContents<T>(a: Bucket<T>, b: Bucket<T>, hs: Hashing<T>, budget: nat, contents: map<U64, T>)
    requires Inv(a, b, hs, budget, contents)
    ensures |Interleave(a, b, |a|)| == |contents|
    ensures forall x :: x in Interleave(a, b, |a|) ==> hs.hashOf(x) in contents && contents[hs.hashOf(x)] == x
    ensures forall h :: h in contents ==> contents[h] in Interleave(a, b, |a|) && hs.hashOf(contents[h]) == h
  {
    InvHolds(a, b, hs, budget, contents);
    InterleaveCount(a, b, hs, |a|);
    InterleaveEntries(a, b, hs, contents, |a|);
    KeysAreContents(a, b, hs, budget, contents);
    forall h | h in contents
      ensures contents[h] in Interleave(a, b, |a|) && hs.hashOf(contents[h]) == h
    {
      FoundMatches(a, b, hs, budget, contents, h);
      var p := Lookup(a, b, hs, budget, h);
      SlotInInterleave(a, b, |a|, p.bucket, p.index);
    }
  }

  /** The entry of an occupied slot below n is visited. */
  lemma {:induction false} SlotInInterleave<T>(a: Bucket<T>, b: Bucket<T>, n: nat, bk: nat, i: nat)
    requires n <= |a| == |b| && bk < 2 && i < n && Slot(a, b, bk, i).Some?
    ensures Slot(a, b, bk, i).value in Interleave(a, b, n)
    decreases n
  {
    if i < n - 1 {
      SlotInInterleave(a, b, n - 1, bk, i);
    }
  }

  /** Visiting more slots visits more entries, the earlier ones first. */
  lemma {:induction false} InterleavePrefix<T>(a: Bucket<T>, b: Bucket<T>, i: nat, n: nat)
    requires i <= n <= |a| == |b|
    ensures |Interleave(a, b, i)| <= |Interleave(a, b, n)|
    ensures Interleave(a, b, n)[..|Interleave(a, b, i)|] == Interleave(a, b, i)
    decreases n
  {
    if i < n {
      InterleavePrefix(a, b, i, n - 1);
      InterleaveSnoc(a, b, n);
      PrefixOfLonger(Interleave(a, b, i), Interleave(a, b, n - 1), Opt(a[n - 1]) + Opt(b[n - 1]));
    }
  }

  lemma InterleaveSnoc<T>(a: Bucket<T>, b: Bucket<T>, n: nat)
    requires 0 < n <= |a| == |b|
    ensures Interleave(a, b, n) == Interleave(a, b, n - 1) + (Opt(a[n - 1]) + Opt(b[n - 1]))
  {
    assert Interleave(a, b, n) == Interleave(a, b, n - 1) + Opt(a[n - 1]) + Opt(b[n - 1]);
  }

  lemma PrefixOfLonger<T>(s: seq<T>, t: seq<T>, e: seq<T>)
    requires |s| <= |t| && t[..|s|] == s
    ensures |s| <= |t + e| && (t + e)[..|s|] == s
  {
    assert (t + e)[..|s|] == t[..|s|];
  }

  // ---- resizeShift ---------------------------------------------------------

  /**
   * `resizeShift(i)`: smear the top bit of `i - 1` into every lower bit with
   * `j or (j shr s)` for s = 1, 2, 4, 8, 16, then count the one bits.
   */
  function ResizeShift(i: I32): nat {
    var j0 := Wrap32(i - 1);
    PopCount(Smear(Smear(Smear(Smear(Smear(j0, 1), 2), 4), 8), 16))
  }

  /** `j or (j shr s)` on `Int`. */
  function Smear(j: U32, s: nat): U32 {
    Or32(j, Shr32(j, s))
  }

  lemma Pow2ThirtyOne()
    ensures Pow2(31) == TWO31
  {
    Pow2Word();
  }

  /** `shr` of a non-negative `Int` is the plain right shift. */
  lemma ShrNonNegative(j: U32, s: nat)
    requires j < TWO31 && s < 32
    ensures Shr32(j, s) == ShiftRight(j, s) <= j
  {
    ShiftRightIs(j, s);
    ShiftRightLe(j, s);
    ShrOfSmall(j, s, Pow2(s), ShiftRight(j, s));
  }

  lemma ShrOfSmall(j: U32, s: nat, p: nat, q: nat)
    requires j < TWO31 && s < 32 && p == Pow2(s) && q == j / p && q <= j
    ensures Shr32(j, s) == q
  {
    assert Signed32(j) == j;
    assert s % 32 == s;
    assert Shr32(j, s) == Wrap32(q);
  }

  /** One smearing step on a non-negative `Int` below 2^(m+1) is the plain OR with the plain shift. */
  lemma SmearInt(j: U32, m: nat, s: nat)
    requires m <= 30 && j < Pow2(m + 1) && s < 32
    ensures Pow2(m + 1) <= TWO31
    ensures Or32(j, Shr32(j, s)) == Or(j, ShiftRight(j, s)) < Pow2(m + 1)
  {
    Pow2Monotone(m + 1, 31);
    Pow2ThirtyOne();
    ShrNonNegative(j, s);
    var t := ShiftRight(j, s);
    OrBound(j, t, m + 1);
    OrOfSmall(j, t, Or(j, t), Pow2(m + 1));
  }

  lemma OrOfSmall(j: U32, t: U32, o: nat, bound: nat)
    requires o == Or(j, t) && o < bound <= TWO31
    ensures Or32(j, t) == o
  {
  }

  /** Smearing zero gives zero. */
  lemma SmearZero(s: nat)
    requires s < 32
    ensures Smear(0, s) == 0
  {
    ShrNonNegative(0, s);
    ShiftRightLe(0, s);
    OrZeroLeft(0);
  }

  /** The least m with n <= 2^m is determined by 2^(m-1) < n <= 2^m. */
  lemma CeilLog2Is(n: nat, m: nat)
    requires 1 <= n <= Pow2(m) && (m > 0 ==> Pow2(m - 1) < n)
    ensures CeilLog2(n) == m
  {
    var c := CeilLog2(n);
    if c < m {
      Pow2Monotone(c, m - 1);
    } else if c > m {
      Pow2Monotone(m, c - 1);
    }
  }

  /** `resizeShift(i)` is the number of bits of a table with at least i slots: the least m with i <= 2^m. */
  lemma ResizeShiftIs(i: I32)
    requires 1 <= i
    ensures ResizeShift(i) == CeilLog2(i)
  {
    var j0 := Wrap32(i - 1);
    assert j0 + 1 == i;
    var s1, s2, s3, s4, s5 := 1, 2, 4, 8, 16;
    SmearAll(j0, s1, s2, s3, s4, s5);
    assert ResizeShift(i) == PopCount(Smear(Smear(Smear(Smear(Smear(j0, s1), s2), s3), s4), s5));
  }

  /**
   * The five smearing steps fill every bit up to the top one, so the count of
   * ones is one more than the top bit position; zero stays zero.
   */
  lemma SmearAll(j0: U32, s1: nat, s2: nat, s3: nat, s4: nat, s5: nat)
    requires j0 < TWO31
    requires s1 == 1 && s2 == 2 && s3 == 4 && s4 == 8 && s5 == 16
    ensures PopCount(Smear(Smear(Smear(Smear(Smear(j0, s1), s2), s3), s4), s5)) == CeilLog2(j0 + 1)
  {
    if j0 == 0 {
      SmearZero(s1);
      SmearZero(s2);
      SmearZero(s3);
      SmearZero(s4);
      SmearZero(s5);
    } else {
      var m := SmearStart(j0);
      var j1 := SmearOne(j0, m, s1);
      var j2 := SmearOne(j1, m, s2);
      var j3 := SmearOne(j2, m, s3);
      var j4 := SmearOne(j3, m, s4);
      var j5 := SmearOne(j4, m, s5);
      SmearEnd(j0, j5, m);
    }
  }

  /** The top bit m of a positive `Int`, which starts a run of one set bit. */
  lemma SmearStart(j0: U32) returns (m: nat)
    requires 0 < j0 < TWO31
    ensures m <= 30 && Pow2(m) <= j0 < Pow2(m + 1) && TopRun(j0, m, 1)
  {
    m := HighBit(j0);
    Pow2ThirtyOne();
    if m > 30 {
      Pow2Monotone(31, m);
    }
    BitIs(j0, m);
    DivUnique(j0, Pow2(m), 1, j0 - Pow2(m));
  }

  /** A run of 32 ones below the top bit m fills all of bits 0 .. m. */
  lemma SmearEnd(j0: nat, j5: nat, m: nat)
    requires m <= 30 && Pow2(m) <= j0 < Pow2(m + 1) && j5 < Pow2(m + 1) && TopRun(j5, m, 32)
    ensures PopCount(j5) == CeilLog2(j0 + 1)
  {
    forall k: nat | k < m + 1
      ensures Bit(j5, k) == 1
    {
      assert k <= m && m < k + 32;
    }
    FullRun(j5, m + 1);
    PopCountOnes(m + 1);
    CeilLog2Is(j0 + 1, m + 1);
  }

  /** One step, keeping the bound and doubling the run of ones below bit m. */
  lemma SmearOne(j: U32, m: nat, s: nat) returns (r: U32)
    requires m <= 30 && j < Pow2(m + 1) && s < 32 && TopRun(j, m, s)
    ensures r == Smear(j, s) && r < Pow2(m + 1) && TopRun(r, m, 2 * s)
  {
    SmearInt(j, m, s);
    SmearStep(j, m, s);
    r := Smear(j, s);
  }

  // ---- internalFind's slot code ----------------------------------------------

  /** `(bucketIndex shl 31) or index` as an `Int`. */
  function FindCode(bucket: nat, index: nat): I32
    requires bucket < 2 && index < TWO31
  {
    Signed32(Or32(Shl32(bucket, 31), index))
  }

  lemma Pow2Thirty()
    ensures Pow2(30) == 0x4000_0000
  {
    Pow2ThirtyOne();
  }

  /**
   * `remove` reads the slot back with `code ushr 31` and `code and Int.MAX_VALUE`;
   * a slot index below 2^30 never gives the code -1 that means "absent".
   */
  lemma FindCodeDecode(bucket: nat, index: nat)
    requires bucket < 2 && index < 0x4000_0000
    ensures Ushr32(Wrap32(FindCode(bucket, index)), 31) == bucket
    ensures And(Wrap32(FindCode(bucket, index)), TWO31 - 1) == index
    ensures FindCode(bucket, index) != -1
  {
    var k := 31;
    var u := CodeBits(bucket, index, k);
    CodeIs(bucket, index, u);
    DecodeBits(u, bucket, index, k);
  }

  lemma CodeIs(bucket: nat, index: nat, u: U32)
    requires bucket < 2 && index < 0x4000_0000 && u == Or32(Shl32(bucket, 31), index) && u != TWO32 - 1
    ensures Wrap32(FindCode(bucket, index)) == u && FindCode(bucket, index) != -1
  {
    WrapSigned(u);
  }

  lemma WrapSigned(u: U32)
    ensures Wrap32(Signed32(u)) == u
    ensures u != TWO32 - 1 ==> Signed32(u) != -1
  {
  }

  /** The bit pattern of the code is bucket * 2^31 + index. */
  lemma CodeBits(bucket: nat, index: nat, k: nat) returns (u: U32)
    requires bucket < 2 && index < 0x4000_0000 && k == 31
    ensures u == bucket * TWO31 + index && u == Or32(Shl32(bucket, k), index) && u != TWO32 - 1
  {
    Pow2ThirtyOne();
    Shl32Exact(bucket, k);
    Or32Disjoint(bucket, index, k);
    u := bucket * TWO31 + index;
  }

  lemma DecodeBits(u: U32, bucket: nat, index: nat, k: nat)
    requires bucket < 2 && index < TWO31 && k == 31 && u == bucket * TWO31 + index
    ensures Ushr32(u, k) == bucket && And(u, TWO31 - 1) == index
  {
    Pow2ThirtyOne();
    ShiftRightIs(u, k);
    DivUnique(u, Pow2(k), bucket, index);
    AndMask(u, k);
    UshrIs(u, k, u / Pow2(k));
    MaskIs(u, k, Pow2(k), index);
  }

  lemma UshrIs(u: U32, k: nat, q: nat)
    requires k < 32 && ShiftRight(u, k) == q
    ensures Ushr32(u, k) == q
  {
    assert k % 32 == k;
  }

  lemma MaskIs(u: U32, k: nat, p: nat, r: nat)
    requires p == Pow2(k) == TWO31 && And(u, p - 1) == u % p == r
    ensures And(u, TWO31 - 1) == r
  {
  }
}
