/**
 * The `BackingMap` code as written, where it departs from what the class
 * evidently means to do, each with an input that shows the difference. The
 * class in module `BackingMapTables` models the corrected behaviour.
 *
 * The examples use a 16-slot table (4 bits, a probe budget of 60 steps) of
 * 64-bit values that are their own fingerprints, with `mix` the identity; the
 * real `HashCommon.mix` also sends 0 to 0.
 */
module BackingMapFindings {
  import opened Wrappers
  import opened Bits
  import opened Jvm
  import opened BackingMaps

  // ---- rehash: `bits++` whatever the shift -----------------------------------

  /** The header fields of the table, as `Int` bit patterns. */
  datatype Header = Header(capacity: U32, mask: U32, bits: int, rehashSize: U32)

  /** The header update of `rehash(shift)` as written: `bits` goes up by one for any shift. */
  function RehashHeaderAsWritten(h: Header, shift: int): (r: Header)
    ensures r.bits == h.bits + 1
  {
    var capacity := Shl32(h.capacity, shift);
    Header(capacity, Wrap32(capacity - 1), h.bits + 1, Shl32(h.rehashSize, shift))
  }

  /** `ensureCapacity(n)` as written, on the header. */
  function EnsureCapacityHeaderAsWritten(h: Header, n: I32): (r: Header)
    ensures n <= Signed32(h.rehashSize) ==> r == h
  {
    if n > Signed32(h.rehashSize) then RehashHeaderAsWritten(h, ResizeShift(n) - h.bits) else h
  }

  /**
   * `ensureCapacity(9)` on a fresh table asks for no growth (shift 0) but
   * still counts a bit up, to 5 bits over 16 slots; a second `ensureCapacity(9)`
   * then asks for shift -1, and `16 shl -1` is `16 shl 31`, zero: the table
   * has no slots and a zero threshold, so the next `add` indexes an empty array.
   */
  lemma EnsureCapacityTwiceAsWritten(n: I32)
    requires n == 9
    ensures var h0 := Header(16, 15, 4, 8);
      var h1 := EnsureCapacityHeaderAsWritten(h0, n);
      var h2 := EnsureCapacityHeaderAsWritten(h1, n);
      && h1 == Header(16, 15, 5, 8)
      && h2.capacity == 0 && h2.rehashSize == 0 && h2.bits == 6
  {
    ResizeShiftNine(n);
    ShlZero(16);
    ShlZero(8);
    ShlMinusOneEven(16);
    ShlMinusOneEven(8);
  }

  lemma ResizeShiftNine(n: I32)
    requires n == 9
    ensures ResizeShift(n) == 4
  {
    ResizeShiftIs(n);
    Pow2Four();
    assert Pow2(3) == 8;
    CeilLog2Is(n, 4);
  }

  lemma ShlZero(u: U32)
    ensures Shl32(u, 0) == u
  {
    ShiftLeftIs(u, 0);
  }

  /** A shift by -1 is a shift by 31, which leaves nothing of an even value. */
  lemma ShlMinusOneEven(u: U32)
    requires u % 2 == 0
    ensures Shl32(u, -1) == 0
  {
    var s := 31;
    assert -1 % 32 == s;
    ShiftLeftIs(u, s);
    Pow2Word();
    assert Pow2(32) == 2 * Pow2(31);
    assert u * Pow2(s) == (u / 2) * TWO32;
  }

  // ---- the example table -----------------------------------------------------

  function Ident(): Hashing<U64> {
    Hashing(x => x, x => x)
  }

  function Nothing(): Bucket<U64> {
    seq(16, _ => None)
  }

  /** Bucket A after `add(16)`: slot 0. */
  function ExampleA(): Bucket<U64> {
    Nothing()[0 := Some(16)]
  }

  /** Bucket B after `add(32)`: its probe meets 16 in A[0] and goes on to B[0]. */
  function ExampleB(): Bucket<U64> {
    Nothing()[0 := Some(32)]
  }

  /** An index of the identity mix: the low bits. */
  lemma IdentIndex(h: U64, k: nat, c: nat)
    requires k == 4 && c == 16
    ensures Index(Ident(), h, c) == h % c
  {
    IndexIs(Ident(), h, k);
    Pow2Four();
    assert Ident().mix(h) == h;
    LowBitsOfLow(h, c);
  }

  /** The low four bits survive the truncation to `Int`. */
  lemma LowBitsOfLow(h: U64, c: nat)
    requires c == 16
    ensures LongToInt(h) % c == h % c
  {
    var q := h / TWO32;
    assert h == q * TWO32 + LongToInt(h);
    assert q * TWO32 == (q * 0x1000_0000) * c;
    DivUnique(h, c, q * 0x1000_0000 + LongToInt(h) / c, LongToInt(h) % c);
  }

  /**
   * The example table is what `add(16)` then `add(32)` build from empty:
   * 16 goes to the first slot probed, 32 to the second, and the table holds
   * both under the probe invariant.
   */
  lemma ExampleTable()
    ensures Lookup(Nothing(), Nothing(), Ident(), 60, 16) == Empty(0, 0, true)
    ensures Lookup(ExampleA(), Nothing(), Ident(), 60, 32) == Empty(1, 0, false)
    ensures Inv(ExampleA(), ExampleB(), Ident(), 60, map[16 := 16, 32 := 32])
  {
    var hs, e := Ident(), Nothing();
    IdentIndex(16, 4, 16);
    IdentIndex(32, 4, 16);
    EmptyInv(e, e, hs, 60);
    InsertKeepsInv(e, e, hs, 60, map[], 16);
    assert Put(e, e, 0, 0, Some(16)) == (ExampleA(), e);
    InsertKeepsInv(ExampleA(), e, hs, 60, map[16 := 16], 32);
    assert Put(ExampleA(), e, 1, 0, Some(32)) == (ExampleA(), ExampleB());
  }

  // ---- add: the result of internalAdd ----------------------------------------

  /** The result of `internalAdd` as written: true only when the first slot probed was empty. */
  function AddResultAsWritten<T>(a: Bucket<T>, b: Bucket<T>, hs: Hashing<T>, budget: nat, e: T): (r: bool)
    requires 0 < |a| == |b| <= TWO32
    ensures r ==> Lookup(a, b, hs, budget, hs.hashOf(e)).Empty?
  {
    var p := Lookup(a, b, hs, budget, hs.hashOf(e));
    p.Empty? && p.first
  }

  /** `add(32)` stores 32 (one step into the probe) yet returns false. */
  lemma AddResultCounterexample()
    ensures Lookup(ExampleA(), Nothing(), Ident(), 60, 32).Empty?
    ensures !AddResultAsWritten(ExampleA(), Nothing(), Ident(), 60, 32)
  {
    ExampleTable();
  }

  // ---- add: an exhausted probe drops the entry -------------------------------

  /**
   * Whether `internalAdd` as written stores the entry: only when its probe
   * stops at an empty slot. An exhausted probe calls `rehash(1)`, which
   * re-adds the old entries only, and returns.
   */
  function AddStoresAsWritten<T>(a: Bucket<T>, b: Bucket<T>, hs: Hashing<T>, budget: nat, e: T): (r: bool)
    requires 0 < |a| == |b| <= TWO32
    ensures !r ==> !Lookup(a, b, hs, budget, hs.hashOf(e)).Empty?
  {
    Lookup(a, b, hs, budget, hs.hashOf(e)).Empty?
  }

  /** With fingerprint 0, which mixes to 0 at every step, the probe only ever sees A[0] and B[0]. */
  lemma {:induction false} ZeroProbeExhausted(bucket: nat, remain: nat, first: bool)
    requires bucket < 2
    ensures Walk(ExampleA(), ExampleB(), Ident(), bucket, remain, 0, 0, first) == Exhausted
    decreases remain
  {
    IdentIndex(0, 4, 16);
    if remain > 0 {
      ZeroProbeExhausted(1 - bucket, remain - 1, false);
    }
  }

  /**
   * In the example table `add(0)` runs out of probe steps, so it is neither
   * stored nor already there: as written it is lost.
   */
  lemma AddDropsCounterexample()
    ensures Lookup(ExampleA(), ExampleB(), Ident(), 60, 0) == Exhausted
    ensures !AddStoresAsWritten(ExampleA(), ExampleB(), Ident(), 60, 0)
    ensures 0 !in map[16 := 16, 32 := 32]
  {
    ZeroProbeExhausted(0, 60, true);
  }

  // ---- remove and retainAll: emptied slots break probe chains ----------------

  /**
   * `remove` as written: the slot found by the probe is emptied; the size
   * field is left as it was. Returns the buckets, the size and the result.
   */
  function RemoveAsWritten<T>(a: Bucket<T>, b: Bucket<T>, hs: Hashing<T>, budget: nat, size: nat, h: U64)
    : (r: (Bucket<T>, Bucket<T>, nat, bool))
    requires 0 < |a| == |b| <= TWO32
    ensures r.2 == size
    ensures r.3 <==> Lookup(a, b, hs, budget, h).Match?
  {
    var p := Lookup(a, b, hs, budget, h);
    if p.Match? then
      var ab := Put(a, b, p.bucket, p.index, None);
      (ab.0, ab.1, size, true)
    else (a, b, size, false)
  }

  /**
   * Removing 16 from the example table empties A[0], which the probe for 32
   * passes through: 32 is still in B[0] but can no longer be found, and the
   * size still says two.
   */
  lemma RemoveCounterexample()
    ensures var r := RemoveAsWritten(ExampleA(), ExampleB(), Ident(), 60, 2, 16);
      && r == (Nothing(), ExampleB(), 2, true)
      && ExampleB()[0] == Some(32)
      && Lookup(Nothing(), ExampleB(), Ident(), 60, 32).Empty?
  {
    ExampleTable();
    IdentIndex(16, 4, 16);
    IdentIndex(32, 4, 16);
    assert Nothing() == ExampleA()[0 := None];
  }

  /** The slot loop of `retainAll` as written empties the rejected slots and nothing more. */
  function RetainSlotsAsWritten<T>(a: Bucket<T>, b: Bucket<T>, keep: T -> bool): (r: (Bucket<T>, Bucket<T>))
    requires |a| == |b|
    ensures |r.0| == |r.1| == |a|
    ensures forall i :: 0 <= i < |a| ==> r.0[i] == (if a[i].Some? && !keep(a[i].value) then None else a[i])
    ensures forall i :: 0 <= i < |b| ==> r.1[i] == (if b[i].Some? && !keep(b[i].value) then None else b[i])
  {
    (seq(|a|, i requires 0 <= i < |a| => if a[i].Some? && !keep(a[i].value) then None else a[i]),
     seq(|b|, i requires 0 <= i < |b| => if b[i].Some? && !keep(b[i].value) then None else b[i]))
  }

  /** Retaining everything but 16 loses 32 in the same way. */
  lemma RetainCounterexample()
    ensures var r := RetainSlotsAsWritten(ExampleA(), ExampleB(), x => x != 16);
      && r == (Nothing(), ExampleB())
      && Lookup(r.0, r.1, Ident(), 60, 32).Empty?
  {
    var r := RetainSlotsAsWritten(ExampleA(), ExampleB(), x => x != 16);
    assert r.0 == Nothing();
    assert r.1 == ExampleB();
    IdentIndex(32, 4, 16);
  }
}
