/**
 * The `SelfHashMap` class: a linear-probing table whose entries are their
 * own keys (a key maps to itself), over a key array of n + 1 slots. The
 * table invariant and the step lemmas are in module `SelfHashMaps`; this
 * module holds the state and the loops.
 *
 * The load factor is the exact fraction fNum / fDen. The ghost map
 * `contents` is the map the table represents (key to stored entry), and
 * `where` records each key's slot.
 */
module SelfHashMapTables {
  import opened Wrappers
  import opened Bits
  import opened Jvm
  import opened SelfHashMaps

  /** fastutil's `Hash.DEFAULT_INITIAL_SIZE`. */
  const DEFAULT_INITIAL_SIZE: nat := 16

  /**
   * The walk shared by `find`, `get`, `containsKey`, `remove` and `rehash`:
   * from `mix(h) and mask`, forward over occupied slots that `accept`
   * rejects, to the first free slot or the first accepted entry.
   */
  method Walk<T, K>(a: array<Option<T>>, hs: Hashing<T, K>, n: nat, ghost logN: nat, mask: nat, h: U32,
                    accept: T -> bool, ghost contents: map<K, T>, ghost where: map<K, nat>)
    returns (pos: nat)
    requires n == Pow2(logN) && mask == n - 1 && a.Length == n + 1
    requires Table(a[..], n, hs, contents, where)
    ensures pos < n && Passed(a[..], n, Start(hs, h, n), pos, accept)
    ensures a[pos].None? || accept(a[pos].value)
  {
    ghost var s := a[..];
    MaskIsMod(hs.mix(h), logN);
    pos := And(hs.mix(h), mask);
    ghost var home := pos;
    ghost var e := FindFree(s, n);
    DistFacts(home, home, e, n);
    PassedStart(s, n, home, accept);
    while a[pos].Some? && !accept(a[pos].value)
      invariant pos < n && Dist(home, pos, n) <= Dist(home, e, n)
      invariant Passed(s, n, home, pos, accept)
      decreases Dist(home, e, n) - Dist(home, pos, n)
    {
      ProbeStep(s, n, home, pos, e, accept);
      MaskNext(pos, logN);
      pos := And(pos + 1, mask);
    }
  }

  class SelfHashMap<T(==), K(==)> {
    const hs: Hashing<T, K>
    /** The load factor f, as the fraction fNum / fDen. */
    const fNum: nat
    const fDen: nat
    /** The table size at construction: the table never shrinks below it. */
    const minN: nat
    var key: array<Option<T>>
    var mask: nat
    var n: nat
    var maxFill: nat
    var size0: nat
    ghost var logN: nat
    ghost var contents: map<K, T>
    ghost var where: map<K, nat>

    /** The fields agree with each other, short of the table invariant. */
    ghost predicate Shape()
      reads this, key
    {
      Sized(fNum, fDen, logN, n, mask, maxFill) && key.Length == n + 1 && size0 == |contents|
    }

    ghost predicate Valid()
      reads this, key
    {
      Shape() && Table(key[..], n, hs, contents, where)
    }

    /** `init`: a table sized by `arraySize(expected, f)`, all slots free. */
    constructor (expected: nat, fNum: nat, fDen: nat, hs: Hashing<T, K>)
      requires 0 < fNum < fDen
      ensures Valid() && contents == map[]
      ensures this.hs == hs && this.fNum == fNum && this.fDen == fDen
      ensures n == minN == Pow2(ArraySizeLog(expected, fNum, fDen)) && n > expected
    {
      this.hs := hs;
      this.fNum := fNum;
      this.fDen := fDen;
      var log := ArraySizeLog(expected, fNum, fDen);
      var size := Pow2(log);
      n := size;
      minN := size;
      mask := size - 1;
      maxFill := MaxFill(size, fNum, fDen);
      key := new Option<T>[size + 1](_ => None);
      logN := log;
      size0 := 0;
      contents := map[];
      where := map[];
      new;
      EmptyTable(key[..], n, hs);
    }

    /** Every stored entry sits under its own key. */
    lemma ContentsKeyed()
      requires Valid()
      ensures forall k | k in contents :: hs.keyOf(contents[k]) == k
    {
      forall k | k in contents ensures hs.keyOf(contents[k]) == k {
        assert KeyPlaced(key[..], n, hs, contents, where, k);
      }
    }

    function Size(): (r: nat)
      reads this, key
      requires Valid()
      ensures r == |contents|
    {
      size0
    }

    function IsEmpty(): (r: bool)
      reads this, key
      requires Valid()
      ensures r <==> contents == map[]
    {
      size0 == 0
    }

    /**
     * `find`: the slot of the entry equal to x, or -(p + 1) for the free slot
     * p where the walk for x ended.
     */
    method Find(x: T) returns (pos: int)
      requires Valid()
      ensures pos >= 0 <==> hs.keyOf(x) in contents
      ensures pos >= 0 ==> pos < n && hs.keyOf(x) in where && where[hs.keyOf(x)] == pos
      ensures pos >= 0 ==> key[pos].Some? && hs.keyOf(key[pos].value) == hs.keyOf(x)
      ensures pos < 0 ==> -pos - 1 < n && key[-pos - 1].None?
      ensures pos < 0 ==> Passed(key[..], n, Home(hs, x, n), -pos - 1, KeyIs(hs, hs.keyOf(x)))
    {
      var p := Walk(key, hs, n, logN, mask, HashCode(hs, x), KeyIs(hs, hs.keyOf(x)), contents, where);
      if key[p].None? {
        KeyMiss(key[..], n, hs, contents, where, p, hs.keyOf(x));
        pos := -1 - p as int;
      } else {
        ProbeHit(key[..], n, hs, contents, where, p);
        pos := p;
      }
    }

    /** `get`: the stored entry equal to x, if any. */
    method Get(x: T) returns (r: Option<T>)
      requires Valid()
      ensures r == if hs.keyOf(x) in contents then Some(contents[hs.keyOf(x)]) else None
    {
      var p := Walk(key, hs, n, logN, mask, HashCode(hs, x), KeyIs(hs, hs.keyOf(x)), contents, where);
      if key[p].None? {
        KeyMiss(key[..], n, hs, contents, where, p, hs.keyOf(x));
        r := None;
      } else {
        ProbeHit(key[..], n, hs, contents, where, p);
        r := key[p];
      }
    }

    /**
     * `get(hash, compareFunc)`: the first entry on the walk for `hash` that
     * `compareFunc` accepts. It finds nothing only when no stored entry with
     * that hash is accepted.
     */
    method GetWith(hash: U32, compareFunc: T -> bool) returns (r: Option<T>)
      requires Valid()
      ensures r.Some? ==> hs.keyOf(r.value) in contents && contents[hs.keyOf(r.value)] == r.value
      ensures r.Some? ==> compareFunc(r.value)
      ensures r.None? ==> forall k :: k in contents && hs.hashOf(k) == hash ==> !compareFunc(contents[k])
    {
      var p := Walk(key, hs, n, logN, mask, hash, compareFunc, contents, where);
      if key[p].None? {
        WalkMiss(key[..], n, hs, contents, where, hash, p, compareFunc);
        r := None;
      } else {
        ProbeHit(key[..], n, hs, contents, where, p);
        r := key[p];
      }
    }

    /** `containsKey`. */
    method ContainsKey(x: T) returns (b: bool)
      requires Valid()
      ensures b <==> hs.keyOf(x) in contents
    {
      var p := Walk(key, hs, n, logN, mask, HashCode(hs, x), KeyIs(hs, hs.keyOf(x)), contents, where);
      if key[p].None? {
        KeyMiss(key[..], n, hs, contents, where, p, hs.keyOf(x));
        b := false;
      } else {
        ProbeHit(key[..], n, hs, contents, where, p);
        b := true;
      }
    }

    /**
     * `rehash(newN)`: move every entry, scanning the old slots downwards,
     * into a fresh array of newN + 1 slots. The entries do not change.
     */
    method Rehash(newN: nat, ghost newLog: nat)
      modifies this
      requires Shape() && Core(key[..], n, hs, contents, where)
      requires newLog >= 1 && newN == Pow2(newLog) && size0 < newN
      ensures Valid() && fresh(key)
      ensures contents == old(contents) && n == newN
    {
      var newMask := newN - 1;
      var newKey := new Option<T>[newN + 1](_ => None);
      ghost var s := key[..];
      ghost var placed: map<K, T> := map[];
      ghost var pw: map<K, nat> := map[];
      EmptyTable(newKey[..], newN, hs);
      PlacedStart(s, n, hs, contents, where);
      var i: nat := n;
      var j: nat := size0;
      while j != 0
        modifies newKey
        invariant |s| == n + 1 && i <= n && j <= size0 && Occupied(s, i) == j && key[..] == s
        invariant Table(newKey[..], newN, hs, placed, pw) && |placed| + j == |contents|
        invariant PlacedAbove(contents, where, placed, i)
      {
        j := j - 1;
        ghost var above := i;
        i := NextDown(i, j, s);
        var x := key[i].value;
        ghost var k := hs.keyOf(x);
        PlacedStep(s, n, hs, contents, where, placed, above, i);
        pw := PlaceNew(newKey, hs, newN, newLog, newMask, x, placed, pw);
        placed := placed[k := x];
      }
      PlacedAll(s, n, hs, contents, where, placed, i);
      n := newN;
      mask := newMask;
      maxFill := MaxFill(newN, fNum, fDen);
      key := newKey;
      logN := newLog;
      where := pw;
    }

    /**
     * `while (key[--i] == null);` in `rehash`: the next occupied slot below
     * i, when j + 1 occupied slots remain below i.
     */
    method NextDown(i: nat, ghost j: nat, ghost s: Slots<T>) returns (r: nat)
      requires key[..] == s && i <= |s| && Occupied(s, i) == j + 1
      ensures r < i && s[r].Some? && Occupied(s, r) == j
      ensures forall q :: r < q < i ==> s[q].None?
    {
      r := i - 1;
      while key[r].None?
        invariant r < i && Occupied(s, r + 1) == j + 1
        invariant forall q :: r < q < i ==> s[q].None?
        decreases r
      {
        assert Occupied(s, r + 1) == Occupied(s, r) + 0;
        r := r - 1;
      }
    }

    /**
     * `insert`: fill the free slot a walk for x ended at, and grow the table
     * when the size before the insertion had reached `maxFill`.
     */
    method Insert(pos: nat, x: T)
      modifies this, key
      requires Valid() && pos < n && key[pos].None? && hs.keyOf(x) !in contents
      requires Passed(key[..], n, Home(hs, x, n), pos, KeyIs(hs, hs.keyOf(x)))
      ensures Valid() && contents == old(contents)[hs.keyOf(x) := x]
      ensures key == old(key) || fresh(key)
    {
      ghost var k := hs.keyOf(x);
      PlaceKeeps(key[..], n, hs, contents, where, pos, x, KeyIs(hs, k));
      key[pos] := Some(x);
      contents := contents[k := x];
      where := where[k := pos];
      var before := size0;
      size0 := size0 + 1;
      if before >= maxFill {
        var log := ArraySizeLog(size0 + 1, fNum, fDen);
        Rehash(Pow2(log), log);
      }
    }

    /**
     * `add`: store x. An entry equal to x already present is replaced by x
     * and returned; otherwise x is inserted and nothing is returned.
     */
    method Add(x: T) returns (oldValue: Option<T>)
      modifies this, key
      requires Valid()
      ensures Valid() && contents == old(contents)[hs.keyOf(x) := x]
      ensures oldValue == if hs.keyOf(x) in old(contents) then Some(old(contents)[hs.keyOf(x)]) else None
      ensures key == old(key) || fresh(key)
    {
      var pos := Find(x);
      if pos < 0 {
        Insert(-pos - 1, x);
        oldValue := None;
      } else {
        ProbeHit(key[..], n, hs, contents, where, pos);
        oldValue := key[pos];
        ReplaceKeeps(key[..], n, hs, contents, where, pos, x);
        key[pos] := Some(x);
        contents := contents[hs.keyOf(x) := x];
      }
    }

    /**
     * `put(key, value)`: the same as `add`, but the two must be one object;
     * otherwise the call fails and the table is left as it was.
     */
    method Put(k: T, v: T) returns (r: Result<Option<T>>)
      modifies this, key
      requires Valid()
      ensures Valid() && (key == old(key) || fresh(key))
      ensures k != v ==> r.Err? && contents == old(contents)
      ensures k == v ==> r.Ok? && contents == old(contents)[hs.keyOf(k) := k]
      ensures k == v ==> r.value == if hs.keyOf(k) in old(contents) then Some(old(contents)[hs.keyOf(k)]) else None
    {
      if k != v {
        return Err("check(key === value) failed");
      }
      var oldValue := Add(k);
      r := Ok(oldValue);
    }

    /** `putIfAbsent(k, v)`: insert k unless an equal entry is present, which is returned. */
    method PutIfAbsent(k: T, v: T) returns (r: Result<Option<T>>)
      modifies this, key
      requires Valid()
      ensures Valid() && (key == old(key) || fresh(key))
      ensures k != v ==> r.Err? && contents == old(contents)
      ensures k == v && hs.keyOf(k) in old(contents) ==> r == Ok(Some(old(contents)[hs.keyOf(k)])) && contents == old(contents)
      ensures k == v && hs.keyOf(k) !in old(contents) ==> r == Ok(None) && contents == old(contents)[hs.keyOf(k) := k]
    {
      if k != v {
        return Err("check(k === v) failed");
      }
      var pos := Find(k);
      if pos >= 0 {
        ProbeHit(key[..], n, hs, contents, where, pos);
        return Ok(key[pos]);
      }
      Insert(-pos - 1, k);
      r := Ok(None);
    }

    /**
     * `shiftKeys(pos)`: slot pos has just been emptied; close the gap (see
     * `ShiftSlots`).
     */
    method ShiftKeys(pos: nat)
      modifies this`where, key
      requires key.Length == n + 1 && 0 < n && logN >= 1 && n == Pow2(logN) && mask == n - 1
      requires pos < n && key[pos].None? && key[n].None?
      requires Chained(key[..], n, hs, pos) && Keyed(key[..], n, hs, contents, where)
      requires Occupied(key[..], n) == |contents| && |contents| + 1 < n
      ensures Core(key[..], n, hs, contents, where)
    {
      where := ShiftSlots(key, hs, n, logN, mask, pos, contents, where);
    }

    /**
     * `removeEntry(pos)`: empty slot pos, close the gap, and halve the table
     * when it has grown sparse (never below its initial size or 16).
     */
    method RemoveEntry(pos: nat) returns (oldValue: T)
      modifies this, key
      requires Valid() && pos < n && key[pos].Some?
      ensures Valid() && (key == old(key) || fresh(key))
      ensures hs.keyOf(oldValue) in old(contents) && old(contents)[hs.keyOf(oldValue)] == oldValue
      ensures old(key[pos]) == Some(oldValue)
      ensures contents == old(contents) - {hs.keyOf(oldValue)}
    {
      ProbeHit(key[..], n, hs, contents, where, pos);
      oldValue := key[pos].value;
      ghost var k := hs.keyOf(oldValue);
      OpenKeeps(key[..], n, hs, contents, where, pos);
      key[pos] := None;
      contents := contents - {k};
      where := where - {k};
      size0 := size0 - 1;
      ShiftKeys(pos);
      if n > minN && size0 < maxFill / 4 && n > DEFAULT_INITIAL_SIZE {
        HalfSize(logN);
        Rehash(n / 2, logN - 1);
      }
    }

    /** `remove(key)`: remove the entry equal to x and return it, if any. */
    method Remove(x: T) returns (r: Option<T>)
      modifies this, key
      requires Valid()
      ensures Valid() && (key == old(key) || fresh(key))
      ensures contents == old(contents) - {hs.keyOf(x)}
      ensures r == if hs.keyOf(x) in old(contents) then Some(old(contents)[hs.keyOf(x)]) else None
    {
      var pos := Find(x);
      if pos < 0 {
        assert contents - {hs.keyOf(x)} == contents;
        return None;
      }
      var v := RemoveEntry(pos);
      r := Some(v);
    }

    /** `clear`: free every slot; the table keeps its size. */
    method Clear()
      modifies this, key
      requires Valid()
      ensures Valid() && contents == map[] && key == old(key) && n == old(n)
    {
      if size0 == 0 {
        NoneOccupied(key[..], n);
        contents := map[];
        where := map[];
        EmptyTable(key[..], n, hs);
        return;
      }
      size0 := 0;
      forall i | 0 <= i < key.Length {
        key[i] := None;
      }
      contents := map[];
      where := map[];
      EmptyTable(key[..], n, hs);
    }

    /** `ensureCapacity`: grow to `arraySize(capacity, f)` if that is larger. */
    method EnsureCapacity(capacity: nat)
      modifies this
      requires Valid()
      ensures Valid() && contents == old(contents) && (key == old(key) || fresh(key))
      ensures n >= Pow2(ArraySizeLog(capacity, fNum, fDen))
    {
      var log := ArraySizeLog(capacity, fNum, fDen);
      var needed := Pow2(log);
      if needed > n {
        Rehash(needed, log);
      }
    }

    /** `tryCapacity`: as `ensureCapacity`, but never beyond 2^30 slots. */
    method TryCapacity(capacity: nat)
      modifies this
      requires Valid()
      ensures Valid() && contents == old(contents) && (key == old(key) || fresh(key))
      ensures n >= Pow2(TryCapacityLog(capacity, fNum, fDen))
    {
      var log := TryCapacityLog(capacity, fNum, fDen);
      var needed := Pow2(log);
      if needed > n {
        Rehash(needed, log);
      }
    }

    /** The sizing step that opens both `putAll`s. */
    method Presize(count: nat)
      modifies this
      requires Valid()
      ensures Valid() && contents == old(contents) && (key == old(key) || fresh(key))
    {
      if 2 * fNum <= fDen {
        EnsureCapacity(count);
      } else {
        TryCapacity(size0 + count);
      }
    }

    /** `putAll(collection)`: `add` each entry in order; a later equal entry replaces an earlier one. */
    method PutAll(from: seq<T>)
      modifies this, key
      requires Valid()
      ensures Valid() && contents == AddAll(hs, old(contents), from)
    {
      Presize(|from|);
      for i := 0 to |from|
        invariant Valid() && (key == old(key) || fresh(key))
        invariant contents == AddAll(hs, old(contents), from[..i])
      {
        var _ := Add(from[i]);
        assert from[..i + 1][..i] == from[..i];
      }
      assert from[..|from|] == from;
    }

    /**
     * `putAll(SelfHashMap)`: `add` every entry of the other table, scanning
     * its slots upwards. Its entries replace equal ones already here.
     */
    method PutAllFrom(other: SelfHashMap<T, K>)
      modifies this, key
      requires Valid() && other.Valid() && other != this && other.key != key && other.hs == hs
      ensures Valid() && contents == old(contents) + other.contents
    {
      SlotsMapAll(other.key[..], other.n, hs, other.contents, other.where);
      Presize(other.size0);
      AddSlots(other.key[..]);
    }

    /**
     * The loop of `putAll(SelfHashMap)`: `add` the entry of every occupied
     * slot of the other table's array s, upwards. That array is only read.
     */
    method AddSlots(s: Slots<T>)
      modifies this, key
      requires Valid()
      ensures Valid() && contents == old(contents) + SlotsMap(hs, s, |s|)
      ensures key == old(key) || fresh(key)
    {
      for i := 0 to |s|
        invariant Valid() && (key == old(key) || fresh(key))
        invariant contents == old(contents) + SlotsMap(hs, s, i)
      {
        AddSlot(s[i], s, i, old(contents));
      }
    }

    /** One step of `AddSlots`: slot i of the scanned array, added when it holds an entry. */
    method AddSlot(k: Option<T>, ghost s: Slots<T>, ghost i: nat, ghost o: map<K, T>)
      modifies this, key
      requires Valid() && i < |s| && s[i] == k && contents == o + SlotsMap(hs, s, i)
      ensures Valid() && contents == o + SlotsMap(hs, s, i + 1)
      ensures key == old(key) || fresh(key)
    {
      SlotsMapStep(hs, s, i, o);
      if k.Some? {
        var _ := Add(k.value);
      }
    }
  }

  /**
   * One step of `rehash`'s loop: store x, whose key is not yet in the new
   * array a, at the first free slot of its walk there. Returns where each key
   * now is.
   */
  method PlaceNew<T, K>(a: array<Option<T>>, hs: Hashing<T, K>, n: nat, ghost logN: nat, mask: nat, x: T,
                        ghost placed: map<K, T>, ghost pw: map<K, nat>)
    returns (ghost pw': map<K, nat>)
    modifies a
    requires n == Pow2(logN) && mask == n - 1 && a.Length == n + 1
    requires Table(a[..], n, hs, placed, pw) && hs.keyOf(x) !in placed && |placed| + 1 < n
    ensures Table(a[..], n, hs, placed[hs.keyOf(x) := x], pw')
  {
    var pos := Walk(a, hs, n, logN, mask, HashCode(hs, x), NoMatch(), placed, pw);
    PlaceKeeps(a[..], n, hs, placed, pw, pos, x, NoMatch());
    a[pos] := Some(x);
    pw' := pw[hs.keyOf(x) := pos];
  }

  /**
   * The loops of `shiftKeys(pos)`: slot pos has just been emptied. Move back,
   * one at a time, the later entries whose walk would now cross the hole,
   * until the scan meets a free slot, and empty the last hole. Returns where
   * each key now is.
   */
  method ShiftSlots<T, K>(a: array<Option<T>>, hs: Hashing<T, K>, n: nat, ghost logN: nat, mask: nat, pos: nat,
                          ghost contents: map<K, T>, ghost where: map<K, nat>)
    returns (ghost where': map<K, nat>)
    modifies a
    requires a.Length == n + 1 && 0 < n && n == Pow2(logN) && mask == n - 1
    requires pos < n && a[pos].None? && a[n].None?
    requires Chained(a[..], n, hs, pos) && Keyed(a[..], n, hs, contents, where)
    requires Occupied(a[..], n) == |contents| && |contents| + 1 < n
    ensures Core(a[..], n, hs, contents, where')
  {
    ghost var e := FindFreeBesides(a[..], n, pos);
    ghost var s := a[..];
    where' := where;
    var last: nat := pos;
    var next: nat, move: bool := Scan(a, hs, n, logN, mask, last, e, s);
    while move
      invariant last < n && e < n && e != last && |s| == n + 1 && s[e].None? && s[n].None?
      invariant s == a[..][last := None]
      invariant Chained(s, n, hs, last) && Keyed(s, n, hs, contents, where') && Occupied(s, n) == |contents|
      invariant next < n && 0 < Dist(last, next, n) <= Dist(last, e, n) && Scanned(s, n, hs, last, next)
      invariant move ==> s[next].Some? && Before(Home(hs, s[next].value, n), last, next, n)
      invariant !move ==> s[next].None?
      decreases Dist(last, e, n)
    {
      ScanMove(s, n, hs, contents, where', last, next);
      DistFacts(last, next, e, n);
      where' := where'[hs.keyOf(s[next].value) := last];
      ghost var before := a[..];
      a[last] := a[next];
      ShiftView(before, s, last, next);
      s := s[last := s[next]][next := None];
      last := next;
      next, move := Scan(a, hs, n, logN, mask, last, e, s);
    }
    ScanEnd(s, n, hs, last, next);
    a[last] := None;
  }

  /**
   * The inner loop of `shiftKeys`: from the slot after the hole at `last`,
   * pass over entries whose walk does not cross the hole. It stops at a free
   * slot (`move` false) or at an entry that must move into the hole.
   */
  method Scan<T, K>(a: array<Option<T>>, hs: Hashing<T, K>, n: nat, ghost logN: nat, mask: nat,
                    last: nat, ghost e: nat, ghost s: Slots<T>)
    returns (pos: nat, move: bool)
    requires a.Length == n + 1 && 0 < n && n == Pow2(logN) && mask == n - 1
    requires last < n && e < n && e != last && s == a[..][last := None] && s[e].None?
    ensures pos < n && 0 < Dist(last, pos, n) <= Dist(last, e, n) && Scanned(s, n, hs, last, pos)
    ensures move ==> s[pos].Some? && Before(Home(hs, s[pos].value, n), last, pos, n)
    ensures !move ==> s[pos].None?
  {
    MaskNext(last, logN);
    pos := And(last + 1, mask);
    ScanStart(s, n, hs, last);
    DistFacts(last, pos, e, n);
    DistNext(last, last, n);
    while true
      invariant pos < n && 0 < Dist(last, pos, n) <= Dist(last, e, n) && Scanned(s, n, hs, last, pos)
      decreases Dist(last, e, n) - Dist(last, pos, n)
    {
      var curr := a[pos];
      if curr.None? {
        return pos, false;
      }
      MaskIsMod(hs.mix(HashCode(hs, curr.value)), logN);
      var slot := And(hs.mix(HashCode(hs, curr.value)), mask);
      MoveTest(last, pos, slot, n);
      if if last <= pos then last >= slot || slot > pos else last >= slot && slot > pos {
        return pos, true;
      }
      ScanSkip(s, n, hs, last, pos, e);
      MaskNext(pos, logN);
      pos := And(pos + 1, mask);
    }
  }

  /** The view of `shiftKeys` after a move: the moved entry's old slot is the new hole. */
  lemma ShiftView<T>(a: Slots<T>, s: Slots<T>, last: nat, next: nat)
    requires last < |a| && next < |a| && last != next && s == a[last := None]
    ensures s[last := s[next]][next := None] == a[last := a[next]][next := None]
  {
  }

  /** A table of more than 16 slots halves to a power of two of at least 2. */
  lemma HalfSize(logN: nat)
    requires Pow2(logN) > DEFAULT_INITIAL_SIZE
    ensures logN >= 2 && Pow2(logN) / 2 == Pow2(logN - 1)
  {
    Pow2Four();
    if logN <= 4 {
      Pow2Monotone(logN, 4);
    }
  }
}
