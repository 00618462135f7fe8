/**
 * `SelfHashMap`: an open-addressing table of entries that are their own keys,
 * adapted from fastutil's `Object2ObjectOpenHashMap`. The key array has n + 1
 * slots for a power of two n (the last slot is never used). An entry lives at
 * the first free slot at or after `mix(hashCode()) and (n - 1)`, walking
 * forward and wrapping round; removal shifts later entries back so that no
 * walk is cut short.
 *
 * This module holds the pure part: distances round the ring of slots, the
 * table invariant on a sequence of slots, slot counting, and the sizing
 * arithmetic. The class itself is in module `SelfHashMapTables`.
 */
module SelfHashMaps {
  import opened Wrappers
  import opened Bits
  import opened Jvm

  /**
   * What `equals` compares (the entry's key), `hashCode()` as a function of
   * that key (equal entries hash alike), and fastutil's `HashCommon.mix`,
   * which is not part of this model.
   */
  datatype Hashing<-T, !K> = Hashing(keyOf: T -> K, hashOf: K -> U32, mix: U32 -> U32)

  /** The entry's `hashCode()`. */
  function HashCode<T, K>(hs: Hashing<T, K>, x: T): U32
  {
    hs.hashOf(hs.keyOf(x))
  }

  type Slots<T> = seq<Option<T>>

  // ---- the ring of slots ------------------------------------------------------

  /** Steps forward from slot a to slot b on a ring of n slots. */
  function Dist(a: nat, b: nat, n: nat): (r: nat)
    requires a < n && b < n
    ensures r < n
  {
    if a <= b then b - a else n - a + b
  }

  /** The slot after p: `(p + 1) and mask`. */
  function Next(p: nat, n: nat): (r: nat)
    requires p < n
    ensures r < n
  {
    if p + 1 == n then 0 else p + 1
  }

  /** Slot q comes strictly before slot p on the walk that starts at h. */
  predicate Before(h: nat, q: nat, p: nat, n: nat)
    requires h < n && q < n && p < n
  {
    Dist(h, q, n) < Dist(h, p, n)
  }

  /** Where the walk for hash h starts: `mix(h) and mask`. */
  function Start<T, K>(hs: Hashing<T, K>, h: U32, n: nat): (r: nat)
    requires n > 0
    ensures r < n
  {
    hs.mix(h) % n
  }

  /** Where the walk for entry x starts. */
  function Home<T, K>(hs: Hashing<T, K>, x: T, n: nat): (r: nat)
    requires n > 0
    ensures r < n
  {
    Start(hs, HashCode(hs, x), n)
  }

  /** The masks of the source are remainders: `x and (n - 1)` for n = 2^k. */
  lemma MaskIsMod(x: nat, k: nat)
    ensures And(x, Pow2(k) - 1) == x % Pow2(k)
  {
    AndMask(x, k);
  }

  /** `(p + 1) and mask` is the next slot. */
  lemma MaskNext(p: nat, k: nat)
    requires p < Pow2(k)
    ensures And(p + 1, Pow2(k) - 1) == Next(p, Pow2(k))
  {
    AndMask(p + 1, k);
    ModNext(p, Pow2(k));
  }

  lemma ModNext(p: nat, n: nat)
    requires p < n
    ensures (p + 1) % n == Next(p, n)
  {
  }

  lemma DistFacts(a: nat, b: nat, c: nat, n: nat)
    requires a < n && b < n && c < n
    ensures Dist(a, a, n) == 0
    ensures Dist(a, b, n) == 0 ==> a == b
    ensures Dist(a, b, n) == Dist(a, c, n) ==> b == c
    ensures Dist(a, b, n) <= Dist(a, c, n) ==> Dist(b, c, n) == Dist(a, c, n) - Dist(a, b, n)
    ensures a != b ==> Dist(b, a, n) == n - Dist(a, b, n)
  {
  }

  lemma DistNext(a: nat, b: nat, n: nat)
    requires a < n && b < n && Dist(a, b, n) + 1 < n
    ensures Dist(a, Next(b, n), n) == Dist(a, b, n) + 1
  {
  }

  // ---- the table invariant ------------------------------------------------------

  /** The walk of the entry in slot p passes slot q only over occupied slots, `hole` aside. */
  ghost predicate ChainAt<T, K>(s: Slots<T>, n: nat, hs: Hashing<T, K>, hole: nat, p: nat, q: nat)
    requires 0 < n <= |s|
  {
    p < n && q < n && s[p].Some? && Before(Home(hs, s[p].value, n), q, p, n) ==> s[q].Some? || q == hole
  }

  /** Every entry is reachable from its home slot over occupied slots, `hole` aside. */
  ghost predicate Chained<T, K>(s: Slots<T>, n: nat, hs: Hashing<T, K>, hole: nat)
    requires 0 < n <= |s|
  {
    forall p: nat, q: nat {:trigger ChainAt(s, n, hs, hole, p, q)} :: ChainAt(s, n, hs, hole, p, q)
  }

  /** The entry in slot p is the one `contents` has for its key, and `where` points back at p. */
  ghost predicate SlotKeyed<T, K>(s: Slots<T>, n: nat, hs: Hashing<T, K>, contents: map<K, T>, where: map<K, nat>, p: nat)
    requires n <= |s|
  {
    p < n && s[p].Some? ==>
      var k := hs.keyOf(s[p].value);
      k in contents && k in where && contents[k] == s[p].value && where[k] == p
  }

  /** The entry `contents` has for k is in slot `where[k]` and has key k. */
  ghost predicate KeyPlaced<T, K>(s: Slots<T>, n: nat, hs: Hashing<T, K>, contents: map<K, T>, where: map<K, nat>, k: K)
    requires n <= |s|
  {
    k in contents ==> k in where && where[k] < n && s[where[k]] == Some(contents[k]) && hs.keyOf(contents[k]) == k
  }

  /** The slots hold exactly the entries of `contents`, one slot per key. */
  ghost predicate Keyed<T, K>(s: Slots<T>, n: nat, hs: Hashing<T, K>, contents: map<K, T>, where: map<K, nat>)
    requires n <= |s|
  {
    && (forall p: nat {:trigger SlotKeyed(s, n, hs, contents, where, p)} :: SlotKeyed(s, n, hs, contents, where, p))
    && (forall k {:trigger KeyPlaced(s, n, hs, contents, where, k)} | k in contents :: KeyPlaced(s, n, hs, contents, where, k))
  }

  /** The number of occupied slots below i. */
  function Occupied<T>(s: Slots<T>, i: nat): (r: nat)
    requires i <= |s|
    ensures r <= i
  {
    if i == 0 then 0 else Occupied(s, i - 1) + (if s[i - 1].Some? then 1 else 0)
  }

  /** The table invariant, short of the free slot that walks rely on. */
  ghost predicate Core<T, K>(s: Slots<T>, n: nat, hs: Hashing<T, K>, contents: map<K, T>, where: map<K, nat>)
  {
    && 0 < n && |s| == n + 1 && s[n].None?
    && Chained(s, n, hs, n)
    && Keyed(s, n, hs, contents, where)
    && Occupied(s, n) == |contents|
  }

  /** The table invariant: fewer entries than slots, so every walk meets a free slot. */
  ghost predicate Table<T, K>(s: Slots<T>, n: nat, hs: Hashing<T, K>, contents: map<K, T>, where: map<K, nat>)
  {
    Core(s, n, hs, contents, where) && |contents| < n
  }

  lemma EmptyTable<T, K>(s: Slots<T>, n: nat, hs: Hashing<T, K>)
    requires 0 < n && |s| == n + 1 && forall i :: 0 <= i < |s| ==> s[i].None?
    ensures Table(s, n, hs, map[], map[])
  {
    OccupiedNone(s, n);
  }

  // ---- counting slots -------------------------------------------------------------

  lemma {:induction false} OccupiedNone<T>(s: Slots<T>, i: nat)
    requires i <= |s| && forall q :: 0 <= q < i ==> s[q].None?
    ensures Occupied(s, i) == 0
  {
    if i > 0 {
      OccupiedNone(s, i - 1);
    }
  }

  lemma {:induction false} NoneOccupied<T>(s: Slots<T>, i: nat)
    requires i <= |s| && Occupied(s, i) == 0
    ensures forall q :: 0 <= q < i ==> s[q].None?
  {
    if i > 0 {
      NoneOccupied(s, i - 1);
    }
  }

  /** Writing slot j changes the count by what leaves and what arrives. */
  lemma {:induction false} OccupiedUpdate<T>(s: Slots<T>, j: nat, v: Option<T>, i: nat)
    requires j < |s| && i <= |s|
    ensures Occupied(s[j := v], i) + (if j < i && s[j].Some? then 1 else 0)
         == Occupied(s, i) + (if j < i && v.Some? then 1 else 0)
  {
    if i > 0 {
      OccupiedUpdate(s, j, v, i - 1);
    }
  }

  /** With fewer occupied slots than slots, one is free. */
  lemma {:induction false} FindFree<T>(s: Slots<T>, i: nat) returns (e: nat)
    requires i <= |s| && Occupied(s, i) < i
    ensures e < i && s[e].None?
  {
    if s[i - 1].None? {
      e := i - 1;
    } else {
      e := FindFree(s, i - 1);
    }
  }

  /** With a free slot h and another slot free besides, the other one is found. */
  lemma {:induction false} FindFreeBesides<T>(s: Slots<T>, i: nat, h: nat) returns (e: nat)
    requires i <= |s| && Occupied(s, i) + 1 < i && (h < i ==> s[h].None?)
    ensures e < i && e != h && s[e].None?
  {
    if s[i - 1].None? && i - 1 != h {
      e := i - 1;
    } else if i - 1 == h {
      e := FindFree(s, i - 1);
    } else {
      e := FindFreeBesides(s, i - 1, h);
    }
  }

  // ---- walks ----------------------------------------------------------------------

  /** Slot q, if before `pos` on the walk from `home`, is occupied by an entry `accept` rejects. */
  ghost predicate PassedAt<T>(s: Slots<T>, n: nat, home: nat, pos: nat, accept: T -> bool, q: nat)
    requires 0 < n <= |s| && home < n && pos < n
  {
    q < n && Before(home, q, pos, n) ==> s[q].Some? && !accept(s[q].value)
  }

  /** The walk from `home` reached `pos` over occupied slots holding no entry `accept` accepts. */
  ghost predicate Passed<T>(s: Slots<T>, n: nat, home: nat, pos: nat, accept: T -> bool)
    requires 0 < n <= |s| && home < n && pos < n
  {
    forall q: nat {:trigger PassedAt(s, n, home, pos, accept, q)} :: PassedAt(s, n, home, pos, accept, q)
  }

  /** Accepts the entries with key k: the `equals` test of the probe loops. */
  function KeyIs<T, K(==)>(hs: Hashing<T, K>, k: K): T -> bool
  {
    x => hs.keyOf(x) == k
  }

  /** Accepts nothing: the walk of `rehash`, which stops only at a free slot. */
  function NoMatch<T>(): T -> bool
  {
    _ => false
  }

  lemma PassedStart<T>(s: Slots<T>, n: nat, home: nat, accept: T -> bool)
    requires 0 < n <= |s| && home < n
    ensures Passed(s, n, home, home, accept)
  {
    forall q: nat ensures PassedAt(s, n, home, home, accept, q) {
    }
  }

  /**
   * One step of a walk: past an occupied slot that `accept` rejects, and with a
   * free slot e not yet passed, the walk moves on to the next slot, one step
   * closer to e.
   */
  lemma ProbeStep<T>(s: Slots<T>, n: nat, home: nat, pos: nat, e: nat, accept: T -> bool)
    requires 0 < n <= |s| && home < n && pos < n && e < n
    requires Passed(s, n, home, pos, accept) && s[pos].Some? && !accept(s[pos].value)
    requires s[e].None? && Dist(home, pos, n) <= Dist(home, e, n)
    ensures Passed(s, n, home, Next(pos, n), accept)
    ensures Dist(home, Next(pos, n), n) == Dist(home, pos, n) + 1 <= Dist(home, e, n)
  {
    DistFacts(home, pos, e, n);
    DistNext(home, pos, n);
    var next := Next(pos, n);
    forall q: nat ensures PassedAt(s, n, home, next, accept, q) {
      if q < n && Before(home, q, next, n) {
        DistFacts(home, q, pos, n);
        assert PassedAt(s, n, home, pos, accept, q);
      }
    }
  }

  /**
   * A walk that ends at a free slot has met every entry whose walk starts
   * where it started: none of them is accepted.
   */
  lemma ProbeMiss<T, K>(s: Slots<T>, n: nat, hs: Hashing<T, K>, contents: map<K, T>, where: map<K, nat>,
                        home: nat, pos: nat, accept: T -> bool, p: nat)
    requires Core(s, n, hs, contents, where) && home < n && pos < n && s[pos].None?
    requires Passed(s, n, home, pos, accept)
    requires p < n && s[p].Some? && Home(hs, s[p].value, n) == home
    ensures !accept(s[p].value)
  {
    assert ChainAt(s, n, hs, n, p, pos);
    DistFacts(home, p, pos, n);
    assert PassedAt(s, n, home, pos, accept, p);
  }

  /**
   * A walk for hash h that ends at a free slot has met every entry with
   * hash h, and accepted none.
   */
  lemma WalkMiss<T, K>(s: Slots<T>, n: nat, hs: Hashing<T, K>, contents: map<K, T>, where: map<K, nat>,
                       h: U32, pos: nat, accept: T -> bool)
    requires Core(s, n, hs, contents, where) && pos < n && s[pos].None?
    requires Passed(s, n, Start(hs, h, n), pos, accept)
    ensures forall k :: k in contents && hs.hashOf(k) == h ==> !accept(contents[k])
  {
    forall k | k in contents && hs.hashOf(k) == h
      ensures !accept(contents[k])
    {
      assert KeyPlaced(s, n, hs, contents, where, k);
      ProbeMiss(s, n, hs, contents, where, Start(hs, h, n), pos, accept, where[k]);
    }
  }

  /** A walk for key k that ends at a free slot: k is not stored. */
  lemma KeyMiss<T, K>(s: Slots<T>, n: nat, hs: Hashing<T, K>, contents: map<K, T>, where: map<K, nat>,
                      pos: nat, k: K)
    requires Core(s, n, hs, contents, where) && pos < n && s[pos].None?
    requires Passed(s, n, Start(hs, hs.hashOf(k), n), pos, KeyIs(hs, k))
    ensures k !in contents
  {
    if k in contents {
      assert KeyPlaced(s, n, hs, contents, where, k);
      WalkMiss(s, n, hs, contents, where, hs.hashOf(k), pos, KeyIs(hs, k));
    }
  }

  /** A walk that stops at an occupied slot stops at a stored entry. */
  lemma ProbeHit<T, K>(s: Slots<T>, n: nat, hs: Hashing<T, K>, contents: map<K, T>, where: map<K, nat>, pos: nat)
    requires Core(s, n, hs, contents, where) && pos < n && s[pos].Some?
    ensures hs.keyOf(s[pos].value) in contents && contents[hs.keyOf(s[pos].value)] == s[pos].value
    ensures hs.keyOf(s[pos].value) in where && where[hs.keyOf(s[pos].value)] == pos
  {
    assert SlotKeyed(s, n, hs, contents, where, pos);
  }

  // ---- writes ----------------------------------------------------------------------

  /**
   * Placing x in the free slot where a walk from x's home stopped keeps the
   * invariant, with x added under its key.
   */
  lemma {:induction false} PlaceKeeps<T, K>(s: Slots<T>, n: nat, hs: Hashing<T, K>, contents: map<K, T>, where: map<K, nat>,
                                          pos: nat, x: T, accept: T -> bool)
    requires Core(s, n, hs, contents, where) && pos < n && s[pos].None?
    requires Passed(s, n, Home(hs, x, n), pos, accept) && hs.keyOf(x) !in contents
    ensures Core(s[pos := Some(x)], n, hs, contents[hs.keyOf(x) := x], where[hs.keyOf(x) := pos])
  {
    var s2, k := s[pos := Some(x)], hs.keyOf(x);
    var c2, w2 := contents[k := x], where[k := pos];
    forall p: nat, q: nat ensures ChainAt(s2, n, hs, n, p, q) {
      if p < n && q < n && s2[p].Some? && Before(Home(hs, s2[p].value, n), q, p, n) {
        if p == pos {
          assert PassedAt(s, n, Home(hs, x, n), pos, accept, q);
        } else {
          assert ChainAt(s, n, hs, n, p, q);
        }
      }
    }
    forall p: nat ensures SlotKeyed(s2, n, hs, c2, w2, p) {
      if p < n && p != pos {
        assert SlotKeyed(s, n, hs, contents, where, p);
      }
    }
    forall k2 ensures KeyPlaced(s2, n, hs, c2, w2, k2) {
      if k2 != k {
        assert KeyPlaced(s, n, hs, contents, where, k2);
      }
    }
    OccupiedUpdate(s, pos, Some(x), n);
  }

  /** Overwriting an entry with an equal one keeps the invariant. */
  lemma ReplaceKeeps<T, K>(s: Slots<T>, n: nat, hs: Hashing<T, K>, contents: map<K, T>, where: map<K, nat>,
                           pos: nat, x: T)
    requires Core(s, n, hs, contents, where) && pos < n && s[pos].Some?
    requires hs.keyOf(s[pos].value) == hs.keyOf(x)
    ensures Core(s[pos := Some(x)], n, hs, contents[hs.keyOf(x) := x], where)
  {
    var s2, k := s[pos := Some(x)], hs.keyOf(x);
    var c2 := contents[k := x];
    assert SlotKeyed(s, n, hs, contents, where, pos);
    forall p: nat, q: nat ensures ChainAt(s2, n, hs, n, p, q) {
      assert ChainAt(s, n, hs, n, p, q);
    }
    forall p: nat ensures SlotKeyed(s2, n, hs, c2, where, p) {
      assert SlotKeyed(s, n, hs, contents, where, p);
    }
    forall k2 ensures KeyPlaced(s2, n, hs, c2, where, k2) {
      assert KeyPlaced(s, n, hs, contents, where, k2);
    }
    OccupiedUpdate(s, pos, Some(x), n);
  }

  /**
   * Emptying the slot of a stored entry leaves the invariant with that slot
   * as the one hole walks may cross, and the entry's key removed.
   */
  lemma OpenKeeps<T, K>(s: Slots<T>, n: nat, hs: Hashing<T, K>, contents: map<K, T>, where: map<K, nat>, pos: nat)
    requires Core(s, n, hs, contents, where) && pos < n && s[pos].Some?
    ensures var k := hs.keyOf(s[pos].value);
      && Chained(s[pos := None], n, hs, pos)
      && Keyed(s[pos := None], n, hs, contents - {k}, where - {k})
      && Occupied(s[pos := None], n) == |contents - {k}|
  {
    var s2, k := s[pos := None], hs.keyOf(s[pos].value);
    var c2, w2 := contents - {k}, where - {k};
    assert SlotKeyed(s, n, hs, contents, where, pos);
    forall p: nat, q: nat ensures ChainAt(s2, n, hs, pos, p, q) {
      assert ChainAt(s, n, hs, n, p, q);
    }
    forall p: nat ensures SlotKeyed(s2, n, hs, c2, w2, p) {
      assert SlotKeyed(s, n, hs, contents, where, p);
    }
    forall k2 ensures KeyPlaced(s2, n, hs, c2, w2, k2) {
      assert KeyPlaced(s, n, hs, contents, where, k2);
    }
    OccupiedUpdate(s, pos, None, n);
  }

  // ---- shiftKeys ---------------------------------------------------------------------

  /**
   * The scan of `shiftKeys`: slot `last` is the hole, and every slot strictly
   * between it and `p` holds an entry whose walk starts after the hole, so
   * the hole does not cut that walk.
   */
  ghost predicate ScannedAt<T, K>(s: Slots<T>, n: nat, hs: Hashing<T, K>, last: nat, p: nat, q: nat)
    requires 0 < n <= |s| && last < n && p < n
  {
    q < n && 0 < Dist(last, q, n) < Dist(last, p, n) ==>
      s[q].Some? && 0 < Dist(last, Home(hs, s[q].value, n), n) <= Dist(last, q, n)
  }

  ghost predicate Scanned<T, K>(s: Slots<T>, n: nat, hs: Hashing<T, K>, last: nat, p: nat)
    requires 0 < n <= |s| && last < n && p < n
  {
    forall q: nat {:trigger ScannedAt(s, n, hs, last, p, q)} :: ScannedAt(s, n, hs, last, p, q)
  }

  /** The test of `shiftKeys`: the entry at p, whose walk starts at `slot`, crosses the hole at `last`. */
  lemma MoveTest(last: nat, p: nat, slot: nat, n: nat)
    requires last < n && p < n && slot < n && last != p
    ensures (if last <= p then last >= slot || slot > p else last >= slot && slot > p) <==> Before(slot, last, p, n)
  {
  }

  /** The scan starts just after the hole. */
  lemma ScanStart<T, K>(s: Slots<T>, n: nat, hs: Hashing<T, K>, last: nat)
    requires 0 < n <= |s| && last < n
    ensures Scanned(s, n, hs, last, Next(last, n))
  {
    forall q: nat ensures ScannedAt(s, n, hs, last, Next(last, n), q) {
    }
  }

  /** An entry whose walk does not cross the hole is passed over: the scan moves on. */
  lemma ScanSkip<T, K>(s: Slots<T>, n: nat, hs: Hashing<T, K>, last: nat, p: nat, e: nat)
    requires 0 < n <= |s| && last < n && p < n && e < n
    requires Scanned(s, n, hs, last, p) && 0 < Dist(last, p, n) <= Dist(last, e, n) && s[e].None?
    requires s[p].Some? && !Before(Home(hs, s[p].value, n), last, p, n)
    ensures 0 < Dist(last, Next(p, n), n) == Dist(last, p, n) + 1 <= Dist(last, e, n)
    ensures Scanned(s, n, hs, last, Next(p, n))
  {
    var home := Home(hs, s[p].value, n);
    DistFacts(last, p, e, n);
    DistNext(last, p, n);
    DistFacts(last, home, p, n);
    DistFacts(home, last, p, n);
    forall q: nat ensures ScannedAt(s, n, hs, last, Next(p, n), q) {
      if q < n && 0 < Dist(last, q, n) < Dist(last, Next(p, n), n) {
        DistFacts(last, q, p, n);
        assert ScannedAt(s, n, hs, last, p, q);
      }
    }
  }

  /**
   * The scan reached a free slot: the hole cuts no walk any more, so once it
   * is emptied the invariant holds without a hole.
   */
  lemma ScanEnd<T, K>(s: Slots<T>, n: nat, hs: Hashing<T, K>, last: nat, p: nat)
    requires 0 < n && |s| == n + 1 && last < n && p < n && s[last].None? && s[p].None?
    requires Chained(s, n, hs, last) && Scanned(s, n, hs, last, p) && 0 < Dist(last, p, n)
    ensures Chained(s, n, hs, n)
  {
    forall p2: nat, q: nat ensures ChainAt(s, n, hs, n, p2, q) {
      if p2 < n && q < n && s[p2].Some? && Before(Home(hs, s[p2].value, n), q, p2, n) {
        assert ChainAt(s, n, hs, last, p2, q);
        if q == last {
          ScanEndCase(s, n, hs, last, p, p2);
        }
      }
    }
  }

  lemma ScanEndCase<T, K>(s: Slots<T>, n: nat, hs: Hashing<T, K>, last: nat, p: nat, p2: nat)
    requires 0 < n && |s| == n + 1 && last < n && p < n && s[last].None? && s[p].None?
    requires Chained(s, n, hs, last) && Scanned(s, n, hs, last, p) && 0 < Dist(last, p, n)
    requires p2 < n && s[p2].Some?
    ensures !Before(Home(hs, s[p2].value, n), last, p2, n)
  {
    var home := Home(hs, s[p2].value, n);
    DistFacts(last, p2, p, n);
    DistFacts(home, last, p2, n);
    DistFacts(last, home, p2, n);
    if Dist(last, p2, n) < Dist(last, p, n) {
      assert ScannedAt(s, n, hs, last, p, p2);
    } else if Before(home, last, p2, n) {
      DistFacts(home, last, p, n);
      DistFacts(last, p, p2, n);
      assert ChainAt(s, n, hs, last, p2, p);
    }
  }

  /**
   * The entry at p crosses the hole: `shiftKeys` copies it into the hole,
   * and p becomes the hole. The invariant moves with it.
   */
  lemma ScanMove<T, K>(s: Slots<T>, n: nat, hs: Hashing<T, K>, contents: map<K, T>, where: map<K, nat>,
                       last: nat, p: nat)
    requires 0 < n && |s| == n + 1 && last < n && p < n && s[last].None? && s[n].None?
    requires Chained(s, n, hs, last) && Keyed(s, n, hs, contents, where) && Occupied(s, n) == |contents|
    requires Scanned(s, n, hs, last, p) && 0 < Dist(last, p, n)
    requires s[p].Some? && Before(Home(hs, s[p].value, n), last, p, n)
    ensures var s2 := s[last := s[p]][p := None];
      var k := hs.keyOf(s[p].value);
      && Chained(s2, n, hs, p)
      && Keyed(s2, n, hs, contents, where[k := last])
      && Occupied(s2, n) == |contents|
  {
    var x := s[p].value;
    var s1 := s[last := s[p]];
    var s2 := s1[p := None];
    var k := hs.keyOf(x);
    var w2 := where[k := last];
    var home := Home(hs, x, n);
    assert SlotKeyed(s, n, hs, contents, where, p);
    forall p2: nat, q: nat ensures ChainAt(s2, n, hs, p, p2, q) {
      if p2 < n && q < n && s2[p2].Some? && Before(Home(hs, s2[p2].value, n), q, p2, n) {
        if p2 == last {
          assert Before(home, q, p, n) by {
            DistFacts(home, q, last, n);
          }
          assert ChainAt(s, n, hs, last, p, q);
        } else {
          assert ChainAt(s, n, hs, last, p2, q);
        }
      }
    }
    forall p2: nat ensures SlotKeyed(s2, n, hs, contents, w2, p2) {
      assert SlotKeyed(s, n, hs, contents, where, p2);
    }
    forall k2 ensures KeyPlaced(s2, n, hs, contents, w2, k2) {
      assert KeyPlaced(s, n, hs, contents, where, k2);
    }
    OccupiedUpdate(s, last, s[p], n);
    OccupiedUpdate(s1, p, None, n);
  }

  // ---- rehash ---------------------------------------------------------------------------

  /** The entries of the slots from i upwards, and no others, have been placed. */
  ghost predicate PlacedAbove<T, K>(contents: map<K, T>, where: map<K, nat>, placed: map<K, T>, i: nat)
  {
    && (forall k :: k in placed ==> k in contents && placed[k] == contents[k])
    && (forall k :: k in contents ==> k in where && (k in placed <==> where[k] >= i))
  }

  lemma PlacedStart<T, K>(s: Slots<T>, n: nat, hs: Hashing<T, K>, contents: map<K, T>, where: map<K, nat>)
    requires Core(s, n, hs, contents, where)
    ensures PlacedAbove(contents, where, map[], n)
  {
    forall k | k in contents
      ensures k in where && where[k] < n
    {
      assert KeyPlaced(s, n, hs, contents, where, k);
    }
  }

  /**
   * The scan of `rehash` moved down from `above` over free slots to the
   * entry at i: placing it extends the placed entries down to i.
   */
  lemma PlacedStep<T, K>(s: Slots<T>, n: nat, hs: Hashing<T, K>, contents: map<K, T>, where: map<K, nat>,
                         placed: map<K, T>, above: nat, i: nat)
    requires Core(s, n, hs, contents, where) && PlacedAbove(contents, where, placed, above)
    requires i < above <= n && s[i].Some? && forall q :: i < q < above ==> s[q].None?
    ensures hs.keyOf(s[i].value) in contents && contents[hs.keyOf(s[i].value)] == s[i].value
    ensures hs.keyOf(s[i].value) !in placed
    ensures PlacedAbove(contents, where, placed[hs.keyOf(s[i].value) := s[i].value], i)
  {
    var k := hs.keyOf(s[i].value);
    assert SlotKeyed(s, n, hs, contents, where, i);
    forall k2 | k2 in contents
      ensures k2 in placed[k := s[i].value] <==> where[k2] >= i
    {
      assert KeyPlaced(s, n, hs, contents, where, k2);
    }
  }

  /** Once the scan has counted every entry, all are placed. */
  lemma PlacedAll<T, K>(s: Slots<T>, n: nat, hs: Hashing<T, K>, contents: map<K, T>, where: map<K, nat>,
                        placed: map<K, T>, i: nat)
    requires Core(s, n, hs, contents, where) && i <= n && Occupied(s, i) == 0
    requires PlacedAbove(contents, where, placed, i)
    ensures placed == contents
  {
    NoneOccupied(s, i);
    forall k | k in contents
      ensures k in placed
    {
      assert KeyPlaced(s, n, hs, contents, where, k);
    }
    assert placed.Keys == contents.Keys;
  }

  // ---- scans and bulk adds -----------------------------------------------------------

  /** The entries a scan of slots 0 .. i - 1 meets, by key. */
  function SlotsMap<T, K>(hs: Hashing<T, K>, s: Slots<T>, i: nat): map<K, T>
    requires i <= |s|
  {
    if i == 0 then map[]
    else if s[i - 1].Some? then SlotsMap(hs, s, i - 1)[hs.keyOf(s[i - 1].value) := s[i - 1].value]
    else SlotsMap(hs, s, i - 1)
  }

  /** The scan of slots below i meets exactly the stored entries placed below i. */
  lemma {:induction false} SlotsMapBelow<T, K>(s: Slots<T>, n: nat, hs: Hashing<T, K>, contents: map<K, T>, where: map<K, nat>, i: nat)
    requires Core(s, n, hs, contents, where) && i <= n
    ensures forall k :: k in SlotsMap(hs, s, i) ==> k in contents && k in where && where[k] < i
    ensures forall k :: k in contents && k in where && where[k] < i ==> k in SlotsMap(hs, s, i)
    ensures forall k :: k in SlotsMap(hs, s, i) ==> SlotsMap(hs, s, i)[k] == contents[k]
  {
    if i > 0 {
      SlotsMapBelow(s, n, hs, contents, where, i - 1);
      assert SlotKeyed(s, n, hs, contents, where, i - 1);
      forall k | k in contents && k in where && where[k] == i - 1
        ensures s[i - 1].Some? && hs.keyOf(s[i - 1].value) == k
      {
        assert KeyPlaced(s, n, hs, contents, where, k);
      }
    }
  }

  /** A scan of every slot meets exactly the stored entries. */
  lemma SlotsMapAll<T, K>(s: Slots<T>, n: nat, hs: Hashing<T, K>, contents: map<K, T>, where: map<K, nat>)
    requires Core(s, n, hs, contents, where)
    ensures SlotsMap(hs, s, n + 1) == contents
  {
    SlotsMapBelow(s, n, hs, contents, where, n);
    var m := SlotsMap(hs, s, n);
    forall k | k in contents
      ensures k in m && m[k] == contents[k]
    {
      assert KeyPlaced(s, n, hs, contents, where, k);
    }
    forall k | k in m
      ensures k in contents
    {
    }
    assert m.Keys == contents.Keys;
    assert SlotsMap(hs, s, n + 1) == m;
  }

  /** One more slot scanned, on top of the entries in o. */
  lemma SlotsMapStep<T, K>(hs: Hashing<T, K>, s: Slots<T>, i: nat, o: map<K, T>)
    requires i < |s|
    ensures s[i].Some? ==> o + SlotsMap(hs, s, i + 1) == (o + SlotsMap(hs, s, i))[hs.keyOf(s[i].value) := s[i].value]
    ensures s[i].None? ==> o + SlotsMap(hs, s, i + 1) == o + SlotsMap(hs, s, i)
  {
  }

  /** `add` of each of xs in turn: a later entry replaces an earlier equal one. */
  function AddAll<T, K>(hs: Hashing<T, K>, c: map<K, T>, xs: seq<T>): map<K, T>
  {
    if xs == [] then c
    else AddAll(hs, c, xs[..|xs| - 1])[hs.keyOf(xs[|xs| - 1]) := xs[|xs| - 1]]
  }

  /** After adding xs, a key is present exactly when it was, or some entry of xs has it. */
  lemma {:induction false} AddAllKeys<T, K>(hs: Hashing<T, K>, c: map<K, T>, xs: seq<T>, k: K)
    ensures k in AddAll(hs, c, xs) <==> k in c || exists i :: 0 <= i < |xs| && hs.keyOf(xs[i]) == k
  {
    if xs != [] {
      var ys := xs[..|xs| - 1];
      AddAllKeys(hs, c, ys, k);
      if exists i :: 0 <= i < |xs| && hs.keyOf(xs[i]) == k {
        var i :| 0 <= i < |xs| && hs.keyOf(xs[i]) == k;
        if i < |ys| {
          assert ys[i] == xs[i];
        }
      }
      if exists i :: 0 <= i < |ys| && hs.keyOf(ys[i]) == k {
        var i :| 0 <= i < |ys| && hs.keyOf(ys[i]) == k;
        assert xs[i] == ys[i];
      }
    }
  }

  /** The entry kept for a key is the last of xs with that key. */
  lemma {:induction false} AddAllLast<T, K>(hs: Hashing<T, K>, c: map<K, T>, xs: seq<T>, i: nat)
    requires i < |xs| && forall j :: i < j < |xs| ==> hs.keyOf(xs[j]) != hs.keyOf(xs[i])
    ensures hs.keyOf(xs[i]) in AddAll(hs, c, xs) && AddAll(hs, c, xs)[hs.keyOf(xs[i])] == xs[i]
  {
    if i < |xs| - 1 {
      var ys := xs[..|xs| - 1];
      assert ys[i] == xs[i];
      forall j | i < j < |ys|
        ensures hs.keyOf(ys[j]) != hs.keyOf(ys[i])
      {
        assert ys[j] == xs[j];
      }
      AddAllLast(hs, c, ys, i);
    }
  }

  /** A key that no entry of xs has keeps its old entry. */
  lemma {:induction false} AddAllOthers<T, K>(hs: Hashing<T, K>, c: map<K, T>, xs: seq<T>, k: K)
    requires k in c && forall j :: 0 <= j < |xs| ==> hs.keyOf(xs[j]) != k
    ensures k in AddAll(hs, c, xs) && AddAll(hs, c, xs)[k] == c[k]
  {
    if xs != [] {
      var ys := xs[..|xs| - 1];
      forall j | 0 <= j < |ys|
        ensures hs.keyOf(ys[j]) != k
      {
        assert ys[j] == xs[j];
      }
      AddAllOthers(hs, c, ys, k);
    }
  }

  // ---- sizing --------------------------------------------------------------------------

  /** ceil(a / b). */
  function CeilDiv(a: nat, b: nat): nat
    requires b > 0
  {
    (a + b - 1) / b
  }

  /** The exponent of `HashCommon.nextPowerOfTwo(x)`: the least k with 2^k >= x. */
  function NextPow2Log(x: nat): (k: nat)
    ensures Pow2(k) >= x
    ensures k > 0 ==> Pow2(k - 1) < x
    decreases x
  {
    if x <= 1 then 0 else 1 + NextPow2Log((x + 1) / 2)
  }

  lemma CeilAbove(e: nat, num: nat, den: nat)
    requires 0 < num < den
    ensures CeilDiv(e * den, num) >= e
    ensures e > 0 ==> CeilDiv(e * den, num) > e
  {
    MulMonotone(e, num + 1, den);
    assert e * (num + 1) == e * num + e;
    if e > 0 {
      assert (e + 1) * num == e * num + num;
      DivAtLeast(e * den + num - 1, num, e + 1);
    } else {
      DivAtLeast(e * den + num - 1, num, 0);
    }
  }

  lemma DivAtLeast(a: nat, b: nat, q: nat)
    requires b > 0 && a >= b * q
    ensures a / b >= q
  {
    if a / b < q {
      MulMonotone(b, a / b + 1, q);
      assert false;
    }
  }

  lemma MulMonotone(b: nat, x: nat, y: nat)
    requires x <= y
    ensures b * x <= b * y
  {
  }

  /**
   * `HashCommon.arraySize(expected, f)` for the load factor f = num / den,
   * as an exponent: max(2, nextPowerOfTwo(ceil(expected / f))). The table it
   * gives has room for `expected` entries and a free slot.
   */
  function ArraySizeLog(expected: nat, num: nat, den: nat): (k: nat)
    requires 0 < num < den
    ensures k >= 1
    ensures Pow2(k) >= CeilDiv(expected * den, num)
    ensures Pow2(k) > expected
  {
    CeilAbove(expected, num, den);
    var k := NextPow2Log(CeilDiv(expected * den, num));
    if k == 0 then 1 else k
  }

  /** `HashCommon.maxFill(n, f)`: min(ceil(n * f), n - 1), always short of n. */
  function MaxFill(n: nat, num: nat, den: nat): (r: nat)
    requires n >= 1 && den > 0
    ensures r < n
  {
    var c := CeilDiv(n * num, den);
    if c < n - 1 then c else n - 1
  }

  /**
   * The sizing fields of a table agree: a load factor fNum/fDen strictly
   * between 0 and 1, n = 2^logN slots with logN >= 1, mask n - 1 and the
   * fill threshold of n.
   */
  ghost predicate Sized(fNum: nat, fDen: nat, logN: nat, n: nat, mask: nat, maxFill: nat)
  {
    0 < fNum < fDen && logN >= 1 && n == Pow2(logN) && mask == n - 1 && n >= 1 && maxFill == MaxFill(n, fNum, fDen)
  }

  /** The exponent of `tryCapacity`'s size: `arraySize`'s, capped at 2^30. */
  function TryCapacityLog(capacity: nat, num: nat, den: nat): (k: nat)
    requires 0 < num < den
    ensures 1 <= k <= 30
  {
    var k := ArraySizeLog(capacity, num, den);
    if k < 30 then k else 30
  }
}
