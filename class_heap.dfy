/**
 * The class entries of the `dev.fastmc.jartools.mapping` stages as objects:
 * a `MappingEntry.MutableClass` keeps its names and fingerprint and has its
 * member tables filled in place, and a class mapping holds references to
 * such entries. `addAll` copies references, not entries, so a stage that
 * starts from `addAll(prev)` and then adds members to a class fills the very
 * entry the previous mapping holds.
 *
 * The member tables stand in for the `MappingEntryMap`s of that package
 * (not part of this model) with the current tables' semantics: keyed by
 * fingerprint, keep-first `add`.
 */
module ClassHeaps {
  import opened Wrappers
  import opened Jvm
  import opened Mappings
  import opened Derivations

  /** `MappingEntry.MutableClass`. */
  class Entry {
    const nameFrom: string
    const nameTo: string
    const hash: U64
    var fields: Table<Field>
    var methods: Table<Method>

    /** `MutableClass(nameFrom, nameTo)`: empty tables, fingerprint from nameFrom. */
    constructor (nameFrom: string, nameTo: string)
      ensures Value() == NewClass(nameFrom, nameTo)
    {
      this.nameFrom := nameFrom;
      this.nameTo := nameTo;
      this.hash := ClassHash(nameFrom);
      fields := map[];
      methods := map[];
    }

    /** The entry's current contents as a value. */
    function Value(): Class
      reads this
    {
      Class(nameFrom, nameTo, hash, fields, methods)
    }

    /** `fieldMapping.add(f)`: keep-first under the field's own fingerprint. */
    method AddField(f: Field)
      modifies this
      ensures fields == Add(old(fields), f.hash, f) && methods == old(methods)
    {
      fields := Add(fields, f.hash, f);
    }

    /** `methodMapping.add(e)`: keep-first under the method's own fingerprint. */
    method AddMethod(e: Method)
      modifies this
      ensures methods == Add(old(methods), e.hash, e) && fields == old(fields)
    {
      methods := Add(methods, e.hash, e);
    }
  }

  /** A `MutableClassMapping` of entry objects, by class fingerprint. */
  type Heap = map<U64, Entry>

  /** The entries of `h` hold, key by key, the classes of the value-level mapping `m`. */
  ghost predicate Shows(h: Heap, m: ClassMapping)
    reads h.Values
  {
    && (forall k :: k in h <==> k in m)
    && (forall k :: k in h ==> h[k].Value() == m[k])
  }

  /** No entry is stored under two fingerprints. */
  ghost predicate Distinct(h: Heap) {
    forall a, b {:trigger h[a], h[b]} :: a in h && b in h && a != b ==> h[a] != h[b]
  }

  /** `r` holds `h`'s very entry objects under `h`'s fingerprints. */
  ghost predicate Shares(h: Heap, r: Heap) {
    forall k :: k in h ==> k in r && r[k] == h[k]
  }

  /**
   * `getOrCreate(name)` on a mapping of entries: the stored entry, else a
   * fresh empty entry mapping the name to itself, added under its fingerprint.
   */
  method GetOrCreateEntry(h: Heap, name: string, ghost m: ClassMapping) returns (r: Heap, e: Entry)
    requires Distinct(h) && Shows(h, m)
    ensures ClassHash(name) in r && r[ClassHash(name)] == e
    ensures ClassHash(name) in h ==> r == h
    ensures ClassHash(name) !in h ==> fresh(e) && r == h[ClassHash(name) := e]
    ensures Distinct(r)
    ensures Shows(r, GetOrCreate(m, name, name).0)
  {
    var k := ClassHash(name);
    if k in h {
      return h, h[k];
    }
    e := new Entry(name, name);
    r := h[k := e];
  }

  /** One `add` of a method to the entry under `k`: only that entry's contents change. */
  method AddMethodAt(h: Heap, k: U64, e: Method, ghost m: ClassMapping)
    requires k in h && Distinct(h) && Shows(h, m)
    modifies h[k]
    ensures Shows(h, m[k := m[k].(methods := Add(m[k].methods, e.hash, e))])
  {
    h[k].AddMethod(e);
    assert forall j :: j in h && j != k ==> h[j] != h[k];
  }

  /** One `add` of a field to the entry under `k`. */
  method AddFieldAt(h: Heap, k: U64, f: Field, ghost m: ClassMapping)
    requires k in h && Distinct(h) && Shows(h, m)
    modifies h[k]
    ensures Shows(h, m[k := m[k].(fields := Add(m[k].fields, f.hash, f))])
  {
    h[k].AddField(f);
    assert forall j :: j in h && j != k ==> h[j] != h[k];
  }

  /** `addAll(other)` of entry references, keep-first: it shows the keep-first union of what the two show. */
  lemma AddAllShows(h: Heap, m: ClassMapping, other: Heap, mo: ClassMapping)
    requires Shows(h, m) && Shows(other, mo)
    ensures Shows(KeepUnion(h, other), KeepUnion(m, mo))
  {
  }


  /** The receiving state: `target` is the entry the walk has opened under `k`, if any. */
  ghost predicate Holding(h: Heap, cur: Heap, target: Option<Entry>, k: U64) {
    && Grown(h, cur, k)
    && (target.None? ==> cur == h)
    && (target.Some? ==> k in cur && cur[k] == target.value)
  }

  /** Holding, with `cur` showing the class mapping `cm`. */
  ghost predicate Walking(h: Heap, cur: Heap, target: Option<Entry>, k: U64, cm: ClassMapping)
    reads cur.Values
  {
    Holding(h, cur, target, k) && Shows(cur, cm)
  }

  /** The objects a walk may change: the entries of `h` and the receiving entry once opened. */
  ghost function Frame(h: Heap, target: Option<Entry>): set<object> {
    h.Values + if target.Some? then {target.value} else {}
  }

  /** The receiving entry, once opened, stays the same. */
  ghost predicate Opened(h: Heap, target: Option<Entry>, target2: Option<Entry>) {
    target2.Some? && (target.Some? ==> target2 == target)
  }

  /** `cur` is `h`, or `h` with one more entry, under `k`, that `h` does not hold. */
  ghost predicate Grown(h: Heap, cur: Heap, k: U64) {
    cur == h || (k !in h && k in cur && cur == h[k := cur[k]] && cur[k] !in h.Values)
  }

  /** Sharing is transitive. */
  lemma SharesTrans(h: Heap, cur: Heap, next: Heap)
    requires Shares(h, cur) && Shares(cur, next)
    ensures Shares(h, next)
  {
  }

  lemma GrownShares(h: Heap, cur: Heap, k: U64)
    requires Distinct(h) && Grown(h, cur, k)
    ensures Distinct(cur) && Shares(h, cur)
    ensures forall j :: j in cur && j !in h ==> j == k
  {
  }
}
