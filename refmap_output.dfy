/**
 * The refmap object the stage writes: the mixins with a non-empty refmap,
 * sorted by class name, each with its entries sorted by reference, once under
 * `"mappings"` and once more under `"data"` for the mapping's name. A JSON
 * object is modelled by its properties in the order they are added.
 */
module RefmapOutput {
  import opened Jvm
  import opened Sorting
  import opened Refmaps

  /** `sortedBy { it.first }`: ordered by `String.compareTo` of the keys. */
  predicate SortedByKey<V>(s: seq<(string, V)>) {
    forall i :: 0 < i < |s| ==> Compare(s[i - 1].0, s[i].0) <= 0
  }

  /** `s` holds exactly the entries of `t`, each once. */
  ghost predicate Lists<V>(s: seq<(string, V)>, t: map<string, V>) {
    && |s| == |t|
    && (forall i :: 0 <= i < |s| ==> s[i].0 in t && t[s[i].0] == s[i].1)
    && (forall k :: k in t ==> (k, t[k]) in s)
  }

  /** `compareBy { it.first }`. */
  function KeyCompare<V>(a: (string, V), b: (string, V)): int { Compare(a.0, b.0) }

  lemma KeyCompareAntisymmetric<V(!new)>()
    ensures Antisymmetric(KeyCompare<V>)
  {
    forall a: (string, V), b: (string, V) ensures KeyCompare(a, b) == -KeyCompare(b, a) {
      CompareAntisymmetric(a.0, b.0);
    }
  }

  /** A rearrangement of a listing is a listing. */
  lemma PermutedLists<V>(s: seq<(string, V)>, u: seq<(string, V)>, t: map<string, V>)
    requires Lists(u, t) && multiset(s) == multiset(u)
    ensures Lists(s, t)
  {
    assert |s| == |multiset(s)|;
    forall x | x in u ensures x in s {
      assert x in multiset(u);
    }
    forall i | 0 <= i < |s| ensures s[i].0 in t && t[s[i].0] == s[i].1 {
      assert s[i] in multiset(u);
    }
  }

  /** The entries of a map in some order: `entries.toList()`. */
  method EntriesOf<V(!new)>(t: map<string, V>) returns (s: seq<(string, V)>)
    ensures Lists(s, t)
    ensures forall i, j :: 0 <= i < j < |s| ==> s[i].0 != s[j].0
  {
    s := [];
    var todo := t.Keys;
    while todo != {}
      invariant todo <= t.Keys
      invariant |s| + |todo| == |t|
      invariant forall i :: 0 <= i < |s| ==> s[i].0 in t && s[i].0 !in todo && t[s[i].0] == s[i].1
      invariant forall k :: k in t && k !in todo ==> (k, t[k]) in s
      invariant forall i, j :: 0 <= i < j < |s| ==> s[i].0 != s[j].0
      decreases |todo|
    {
      var k :| k in todo;
      s := s + [(k, t[k])];
      todo := todo - {k};
    }
  }

  /** `entries.toList().sortedBy { it.first }`. */
  method SortedEntries<V(!new)>(t: map<string, V>) returns (s: seq<(string, V)>)
    ensures Lists(s, t) && SortedByKey(s)
  {
    var listed := EntriesOf(t);
    KeyCompareAntisymmetric<V>();
    s := Sort(listed, KeyCompare<V>);
    PermutedLists(s, listed, t);
  }

  /** The refmap object: the same class list under `"mappings"` and under `"data"`'s mapping name. */
  datatype RefmapJson = RefmapJson(mappings: seq<(string, seq<(string, string)>)>,
                                   data: seq<(string, seq<(string, seq<(string, string)>)>)>)

  /** The mixins whose refmap is not empty: `filter { it.value.isNotEmpty() }`. */
  function NonEmpty(refmaps: map<string, Refmap>): (r: map<string, Refmap>)
    ensures forall k :: k in r <==> k in refmaps && |refmaps[k]| > 0
    ensures forall k :: k in r ==> r[k] == refmaps[k]
  {
    map k | k in refmaps && |refmaps[k]| > 0 :: refmaps[k]
  }

  /** One class of the refmap object: the class name and its refmap's entries, sorted. */
  ghost predicate Rendered(row: (string, seq<(string, string)>), cls: (string, Refmap)) {
    row.0 == cls.0 && Lists(row.1, cls.1) && SortedByKey(row.1)
  }

  /** The refmap object assembly of `run`. */
  method Assemble(refmaps: map<string, Refmap>, mappingName: string) returns (out: RefmapJson)
    ensures SortedByKey(out.mappings) && |out.mappings| == |NonEmpty(refmaps)|
    ensures forall i :: 0 <= i < |out.mappings| ==>
      var k := out.mappings[i].0;
      k in refmaps && |refmaps[k]| > 0 && Lists(out.mappings[i].1, refmaps[k]) && SortedByKey(out.mappings[i].1)
    ensures forall k :: k in refmaps && |refmaps[k]| > 0 ==> exists i :: 0 <= i < |out.mappings| && out.mappings[i].0 == k
    ensures out.data == [(mappingName, out.mappings)]
  {
    var t := NonEmpty(refmaps);
    var classes := SortedEntries(t);
    var mappings: seq<(string, seq<(string, string)>)> := [];
    for i := 0 to |classes|
      invariant |mappings| == i
      invariant forall j :: 0 <= j < i ==> Rendered(mappings[j], classes[j])
    {
      var entries := SortedEntries(classes[i].1);
      RenderedSnoc(mappings, classes, (classes[i].0, entries));
      mappings := mappings + [(classes[i].0, entries)];
    }
    AssembledFacts(refmaps, t, classes, mappings);
    out := RefmapJson(mappings, [(mappingName, mappings)]);
  }

  /** One more rendered class after those rendered so far. */
  lemma RenderedSnoc(mappings: seq<(string, seq<(string, string)>)>, classes: seq<(string, Refmap)>,
                     row: (string, seq<(string, string)>))
    requires |mappings| < |classes| && forall j :: 0 <= j < |mappings| ==> Rendered(mappings[j], classes[j])
    requires var c := classes[|mappings|]; row.0 == c.0 && Lists(row.1, c.1) && SortedByKey(row.1)
    ensures forall j :: 0 <= j < |mappings| + 1 ==> Rendered((mappings + [row])[j], classes[j])
  {
    assert Rendered(row, classes[|mappings|]);
  }

  lemma AssembledFacts(refmaps: map<string, Refmap>, t: map<string, Refmap>,
                       classes: seq<(string, Refmap)>, mappings: seq<(string, seq<(string, string)>)>)
    requires t == NonEmpty(refmaps) && Lists(classes, t) && SortedByKey(classes)
    requires |mappings| == |classes| && forall j :: 0 <= j < |classes| ==> Rendered(mappings[j], classes[j])
    ensures SortedByKey(mappings) && |mappings| == |t|
    ensures forall i :: 0 <= i < |mappings| ==>
      var k := mappings[i].0;
      k in refmaps && |refmaps[k]| > 0 && Lists(mappings[i].1, refmaps[k]) && SortedByKey(mappings[i].1)
    ensures forall k :: k in refmaps && |refmaps[k]| > 0 ==> exists i :: 0 <= i < |mappings| && mappings[i].0 == k
  {
    forall i | 0 < i < |mappings| ensures Compare(mappings[i - 1].0, mappings[i].0) <= 0 {
      assert Rendered(mappings[i - 1], classes[i - 1]) && Rendered(mappings[i], classes[i]);
    }
    forall i | 0 <= i < |mappings|
      ensures var k := mappings[i].0;
        k in refmaps && |refmaps[k]| > 0 && Lists(mappings[i].1, refmaps[k]) && SortedByKey(mappings[i].1)
    {
      assert Rendered(mappings[i], classes[i]);
    }
    forall k | k in refmaps && |refmaps[k]| > 0
      ensures exists i :: 0 <= i < |mappings| && mappings[i].0 == k
    {
      assert (k, t[k]) in classes;
      var i :| 0 <= i < |classes| && classes[i] == (k, t[k]);
      assert Rendered(mappings[i], classes[i]);
    }
  }
}
