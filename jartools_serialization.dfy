/**
 * `MappingSerialization` of `dev.fastmc.jartools.remap`: the cache format of
 * the 32-bit generation. The rows are those of the current cache format,
 * `nameFrom\tnameTo\t<hash>` for a class, `\tnameFrom\tnameTo\t<hash>` for a
 * field and `\tnameFrom\tdesc\tnameTo\t<hash>` for a method, but every hash
 * is written as eight upper-case hex digits. The reader takes the hashes from
 * the text.
 */
module OldCacheFormat {
  import opened Wrappers
  import opened Jvm
  import opened Text
  import opened Hex
  import opened Sorting
  import opened OldMappings
  import C = CacheFormat
  import opened Folds

  // ---- the rows --------------------------------------------------------------

  /** `appendHex`: a hash as eight hex digits. */
  function Hex8(v: U32): (r: string)
    ensures |r| == 8
  {
    HexDigits(v, 8)
  }

  function ClassRow(c: Class): string {
    c.nameFrom + "\t" + c.nameTo + "\t" + Hex8(c.hash)
  }

  function FieldRow(f: Field): string {
    "\t" + f.nameFrom + "\t" + f.nameTo + "\t" + Hex8(f.hash)
  }

  function MethodRow(e: Method): string {
    "\t" + e.nameFrom + "\t" + e.desc + "\t" + e.nameTo + "\t" + Hex8(e.hash)
  }

  function FieldRows(fs: seq<Field>): seq<string>
    decreases |fs|
  {
    if |fs| == 0 then [] else FieldRows(fs[..|fs| - 1]) + [FieldRow(fs[|fs| - 1])]
  }

  function MethodRows(ms: seq<Method>): seq<string>
    decreases |ms|
  {
    if |ms| == 0 then [] else MethodRows(ms[..|ms| - 1]) + [MethodRow(ms[|ms| - 1])]
  }

  /**
   * One class as the writer prints it: the class, then its fields and methods
   * in the listed order, with the key each listed member is stored under.
   */
  datatype Block = Block(cls: Class, fields: seq<Field>, fieldKeys: seq<string>,
                         methods: seq<Method>, methodKeys: seq<MethodKey>)

  function BlockRows(b: Block): seq<string> {
    [ClassRow(b.cls)] + FieldRows(b.fields) + MethodRows(b.methods)
  }

  function AllRows(bs: seq<Block>): seq<string>
    decreases |bs|
  {
    if |bs| == 0 then [] else AllRows(bs[..|bs| - 1]) + BlockRows(bs[|bs| - 1])
  }

  // ---- listings ----------------------------------------------------------------

  /** `s` lists the entries of `t`, the i-th being the one under key `ks[i]`, and every key is listed. */
  ghost predicate ListsAt<K, E>(t: map<K, E>, s: seq<E>, ks: seq<K>) {
    && |ks| == |s|
    && (forall i :: 0 <= i < |s| ==> ks[i] in t && t[ks[i]] == s[i])
    && forall k :: k in t ==> k in ks
  }

  ghost predicate BlockLists(b: Block) {
    ListsAt(b.cls.fields, b.fields, b.fieldKeys) && ListsAt(b.cls.methods, b.methods, b.methodKeys)
  }

  function ClassesOf(bs: seq<Block>): (r: seq<Class>)
    ensures |r| == |bs| && forall i :: 0 <= i < |bs| ==> r[i] == bs[i].cls
  {
    seq(|bs|, i requires 0 <= i < |bs| => bs[i].cls)
  }

  /** `bs` is a printout of `m`: its classes list `m`, and each block lists its class's members. */
  ghost predicate Written(m: ClassMapping, bs: seq<Block>, ks: seq<string>) {
    ListsAt(m, ClassesOf(bs), ks) && forall i :: 0 <= i < |bs| ==> BlockLists(bs[i])
  }

  // ---- the writer ----------------------------------------------------------------

  lemma CompareAntisymmetries()
    ensures Antisymmetric(FieldCompare) && Antisymmetric(MethodCompare) && Antisymmetric(ClassCompare)
  {
    forall a: string, b: string
      ensures Compare(a, b) == -Compare(b, a)
    {
      CompareAntisymmetric(a, b);
    }
  }

  function Key<K, E>(p: (K, E)): K { p.0 }

  function Entry<K, E>(p: (K, E)): E { p.1 }

  function Pairs<K, E>(t: map<K, E>, walk: seq<K>): (r: seq<(K, E)>)
    requires forall j :: 0 <= j < |walk| ==> walk[j] in t
    ensures |r| == |walk| && forall j :: 0 <= j < |walk| ==> r[j] == (walk[j], t[walk[j]])
  {
    seq(|walk|, j requires 0 <= j < |walk| => (walk[j], t[walk[j]]))
  }

  /** Any rearrangement of the walked pairs lists the table by their keys. */
  lemma PairsList<K, E>(t: map<K, E>, walk: seq<K>, sorted: seq<(K, E)>)
    requires forall j :: 0 <= j < |walk| ==> walk[j] in t
    requires forall k :: k in t ==> k in walk
    requires multiset(sorted) == multiset(Pairs(t, walk))
    ensures ListsAt(t, MapSeq(sorted, Entry), MapSeq(sorted, Key))
  {
    var pairs := Pairs(t, walk);
    var ks := MapSeq(sorted, Key);
    forall i | 0 <= i < |sorted|
      ensures ks[i] in t && t[ks[i]] == sorted[i].1
    {
      assert sorted[i] in multiset(pairs);
      var j :| 0 <= j < |pairs| && pairs[j] == sorted[i];
    }
    forall k | k in t
      ensures k in ks
    {
      var j :| 0 <= j < |walk| && walk[j] == k;
      assert pairs[j] in multiset(sorted);
      var i :| 0 <= i < |sorted| && sorted[i] == pairs[j];
      assert ks[i] == k;
    }
  }

  /** `sortedArray`: the entries of the table in slot order, then sorted. */
  method SortedArray<K(!new), E(!new)>(t: map<K, E>, cmp: (E, E) -> int) returns (s: seq<E>, ghost ks: seq<K>)
    ensures ListsAt(t, s, ks) && |s| == |t|
    ensures Antisymmetric(cmp) ==> Sorted(s, cmp)
  {
    var walk := WalkOrder(t);
    var walked := seq(|walk|, i requires 0 <= i < |walk| => t[walk[i]]);
    s := Sort(walked, cmp);
    ks := SortedKeys(t, walk, walked, cmp);
  }

  lemma SortedKeys<K(!new), E(!new)>(t: map<K, E>, walk: seq<K>, walked: seq<E>, cmp: (E, E) -> int) returns (ks: seq<K>)
    requires forall j :: 0 <= j < |walk| ==> walk[j] in t
    requires forall k :: k in t ==> k in walk
    requires walked == seq(|walk|, i requires 0 <= i < |walk| => t[walk[i]])
    ensures ListsAt(t, Sort(walked, cmp), ks)
  {
    var pairs := Pairs(t, walk);
    var sorted := Sort(pairs, By(Entry, cmp));
    SortMap(pairs, Entry, cmp);
    assert MapSeq(pairs, Entry) == walked;
    PairsList(t, walk, sorted);
    ks := MapSeq(sorted, Key);
  }

  lemma PrintedFieldStep(t0: string, before: string, fs: seq<Field>, i: nat)
    requires i < |fs| && before == t0 + C.Printed(FieldRows(fs[..i]))
    ensures before + C.Printed([FieldRow(fs[i])]) == t0 + C.Printed(FieldRows(fs[..i + 1]))
  {
    assert fs[..i + 1][..i] == fs[..i];
    C.PrintedSnoc(t0, before, FieldRows(fs[..i]), FieldRow(fs[i]), FieldRows(fs[..i + 1]));
  }

  lemma PrintedMethodStep(t0: string, before: string, ms: seq<Method>, i: nat)
    requires i < |ms| && before == t0 + C.Printed(MethodRows(ms[..i]))
    ensures before + C.Printed([MethodRow(ms[i])]) == t0 + C.Printed(MethodRows(ms[..i + 1]))
  {
    assert ms[..i + 1][..i] == ms[..i];
    C.PrintedSnoc(t0, before, MethodRows(ms[..i]), MethodRow(ms[i]), MethodRows(ms[..i + 1]));
  }

  method WriteField(sb: StringBuilder, f: Field)
    modifies sb
    ensures sb.text == old(sb.text) + C.Printed([FieldRow(f)])
  {
    C.PrintedOne(FieldRow(f));
    sb.Append('\t');
    sb.AppendString(f.nameFrom);
    sb.Append('\t');
    sb.AppendString(f.nameTo);
    sb.Append('\t');
    AppendHexInt(sb, f.hash);
    sb.Append('\n');
  }

  method WriteMethod(sb: StringBuilder, e: Method)
    modifies sb
    ensures sb.text == old(sb.text) + C.Printed([MethodRow(e)])
  {
    C.PrintedOne(MethodRow(e));
    sb.Append('\t');
    sb.AppendString(e.nameFrom);
    sb.Append('\t');
    sb.AppendString(e.desc);
    sb.Append('\t');
    sb.AppendString(e.nameTo);
    sb.Append('\t');
    AppendHexInt(sb, e.hash);
    sb.Append('\n');
  }

  method WriteFieldRows(sb: StringBuilder, fs: seq<Field>)
    modifies sb
    ensures sb.text == old(sb.text) + C.Printed(FieldRows(fs))
  {
    for i := 0 to |fs|
      invariant sb.text == old(sb.text) + C.Printed(FieldRows(fs[..i]))
    {
      ghost var before := sb.text;
      WriteField(sb, fs[i]);
      PrintedFieldStep(old(sb.text), before, fs, i);
    }
    assert fs[..|fs|] == fs;
  }

  /** The fields of a class, sorted, one row each; nothing when it has none. */
  method WriteFields(sb: StringBuilder, t: map<string, Field>) returns (fs: seq<Field>, ghost ks: seq<string>)
    modifies sb
    ensures sb.text == old(sb.text) + C.Printed(FieldRows(fs))
    ensures ListsAt(t, fs, ks) && |fs| == |t| && Sorted(fs, FieldCompare)
  {
    fs, ks := [], [];
    if |t| != 0 {
      CompareAntisymmetries();
      fs, ks := SortedArray(t, FieldCompare);
      WriteFieldRows(sb, fs);
    } else {
      assert t == map[];
    }
  }

  method WriteMethodRows(sb: StringBuilder, ms: seq<Method>)
    modifies sb
    ensures sb.text == old(sb.text) + C.Printed(MethodRows(ms))
  {
    for i := 0 to |ms|
      invariant sb.text == old(sb.text) + C.Printed(MethodRows(ms[..i]))
    {
      ghost var before := sb.text;
      WriteMethod(sb, ms[i]);
      PrintedMethodStep(old(sb.text), before, ms, i);
    }
    assert ms[..|ms|] == ms;
  }

  /** The methods of a class, sorted, one row each; nothing when it has none. */
  method WriteMethods(sb: StringBuilder, t: map<MethodKey, Method>) returns (ms: seq<Method>, ghost ks: seq<MethodKey>)
    modifies sb
    ensures sb.text == old(sb.text) + C.Printed(MethodRows(ms))
    ensures ListsAt(t, ms, ks) && |ms| == |t| && Sorted(ms, MethodCompare)
  {
    ms, ks := [], [];
    if |t| != 0 {
      CompareAntisymmetries();
      ms, ks := SortedArray(t, MethodCompare);
      WriteMethodRows(sb, ms);
    } else {
      assert t == map[];
    }
  }

  /** `write(appendable, entry)`: the class row, then the sorted fields, then the sorted methods. */
  method WriteClass(sb: StringBuilder, c: Class) returns (ghost b: Block)
    modifies sb
    ensures sb.text == old(sb.text) + C.Printed(BlockRows(b))
    ensures b.cls == c && BlockLists(b)
    ensures |b.fields| == |c.fields| && Sorted(b.fields, FieldCompare)
    ensures |b.methods| == |c.methods| && Sorted(b.methods, MethodCompare)
  {
    ghost var t0 := sb.text;
    sb.AppendString(c.nameFrom);
    sb.Append('\t');
    sb.AppendString(c.nameTo);
    sb.Append('\t');
    AppendHexInt(sb, c.hash);
    sb.Append('\n');
    assert sb.text == t0 + (ClassRow(c) + "\n");
    ghost var t1 := sb.text;
    var fs, fks := WriteFields(sb, c.fields);
    ghost var t2 := sb.text;
    var ms, mks := WriteMethods(sb, c.methods);
    b := Block(c, fs, fks, ms, mks);
    PrintedBlock(t0, t1, t2, sb.text, b);
  }

  lemma PrintedBlock(t0: string, t1: string, t2: string, t3: string, b: Block)
    requires t1 == t0 + (ClassRow(b.cls) + "\n")
    requires t2 == t1 + C.Printed(FieldRows(b.fields)) && t3 == t2 + C.Printed(MethodRows(b.methods))
    ensures t3 == t0 + C.Printed(BlockRows(b))
  {
    C.PrintedOne(ClassRow(b.cls));
    C.PrintedAppend([ClassRow(b.cls)], FieldRows(b.fields));
    C.PrintedAppend([ClassRow(b.cls)] + FieldRows(b.fields), MethodRows(b.methods));
  }

  lemma PrintedBlockStep(t0: string, before: string, bs: seq<Block>, b: Block)
    requires before == t0 + C.Printed(AllRows(bs))
    ensures before + C.Printed(BlockRows(b)) == t0 + C.Printed(AllRows(bs + [b]))
  {
    assert (bs + [b])[..|bs|] == bs;
    C.PrintedAppend(AllRows(bs), BlockRows(b));
  }

  /** `write(appendable, classMapping)`: every class in `compareTo` order. */
  method Write(sb: StringBuilder, m: ClassMapping) returns (ghost bs: seq<Block>, ghost ks: seq<string>)
    modifies sb
    ensures sb.text == old(sb.text) + C.Printed(AllRows(bs))
    ensures Written(m, bs, ks) && |bs| == |m|
    ensures Sorted(ClassesOf(bs), ClassCompare)
  {
    CompareAntisymmetries();
    var cs;
    cs, ks := SortedArray(m, ClassCompare);
    bs := WriteClasses(sb, cs);
    assert ClassesOf(bs) == cs;
  }

  method WriteClasses(sb: StringBuilder, cs: seq<Class>) returns (ghost bs: seq<Block>)
    modifies sb
    ensures sb.text == old(sb.text) + C.Printed(AllRows(bs))
    ensures |bs| == |cs| && forall j :: 0 <= j < |cs| ==> bs[j].cls == cs[j] && BlockLists(bs[j])
  {
    bs := [];
    for i := 0 to |cs|
      invariant |bs| == i
      invariant forall j :: 0 <= j < i ==> bs[j].cls == cs[j] && BlockLists(bs[j])
      invariant sb.text == old(sb.text) + C.Printed(AllRows(bs))
    {
      ghost var before := sb.text;
      var b := WriteClass(sb, cs[i]);
      PrintedBlockStep(old(sb.text), before, bs, b);
      forall j | 0 <= j < i + 1
        ensures (bs + [b])[j].cls == cs[j] && BlockLists((bs + [b])[j])
      {
        if j < i {
          assert (bs + [b])[j] == bs[j];
        }
      }
      bs := bs + [b];
    }
  }

  // ---- the reader ----------------------------------------------------------------

  /**
   * What `lastClassEntry` refers to: nothing yet, the class stored under a
   * name, or a later class of a name already read. The source `add`s such a
   * class as a further entry, since classes compare by identity; the model
   * keeps only the first class of a name, so the rows read into a later one
   * are dropped.
   */
  datatype Cursor = NoClass | Current(name: string) | Orphan

  datatype ReadState = ReadState(m: ClassMapping, last: Cursor)

  predicate Tracked(st: ReadState) {
    st.last.Current? ==> st.last.name in st.m
  }

  const Start := ReadState(map[], NoClass)

  /** `MutableClass(split[0], split[1], split[2].toHexInt())`. */
  function ParseClass(split: seq<string>): (r: Result<Class>)
    ensures r.Ok? <==> |split| >= 3 && |split[2]| >= 8
    ensures r.Ok? ==> r.value == NewClass(split[0], split[1], r.value.hash)
  {
    if |split| < 3 then Err("IndexOutOfBoundsException")
    else match ToHexInt(split[2], 0)
      case Err(e) => Err(e)
      case Ok(h) => Ok(NewClass(split[0], split[1], h))
  }

  /** `lastClassEntry!!.fieldMapping.add(f)`: f replaces an equal field. */
  function WithField(st: ReadState, f: Field): (r: ReadState)
    requires Tracked(st) && st.last != NoClass
    ensures Tracked(r) && r.last == st.last
  {
    match st.last
    case Current(k) => ReadState(AddField(st.m, k, f), st.last)
    case Orphan => st
  }

  function WithMethod(st: ReadState, e: Method): (r: ReadState)
    requires Tracked(st) && st.last != NoClass
    ensures Tracked(r) && r.last == st.last
  {
    match st.last
    case Current(k) => ReadState(AddMethod(st.m, k, e), st.last)
    case Orphan => st
  }

  /**
   * One line of `read(lines)`. An empty line is skipped. A line whose first
   * character is not a tab is a class, which becomes the latest class; a
   * tab-led line with five fields is a method of the latest class, any
   * other a field. With no class read yet, `lastClassEntry!!` throws. A class
   * row repeating a name read before leaves the table as it is and the rows
   * after it go nowhere (`Orphan`).
   */
  function Step(st: ReadState, line: string): (r: Result<ReadState>)
    requires Tracked(st)
    ensures r.Ok? ==> Tracked(r.value)
  {
    if |line| == 0 then Ok(st)
    else
      var split := Split(line, '\t');
      if line[0] != '\t' then
        match ParseClass(split)
        case Err(e) => Err(e)
        case Ok(c) =>
          if c.nameFrom in st.m then Ok(ReadState(st.m, Orphan))
          else Ok(ReadState(st.m[c.nameFrom := c], Current(c.nameFrom)))
      else if st.last.NoClass? then Err("NullPointerException")
      else if |split| == 5 then
        match ToHexInt(split[4], 0)
        case Err(e) => Err(e)
        case Ok(h) => Ok(WithMethod(st, Method(split[1], split[2], split[3], h)))
      else if |split| < 4 then Err("IndexOutOfBoundsException")
      else
        match ToHexInt(split[3], 0)
        case Err(e) => Err(e)
        case Ok(h) => Ok(WithField(st, Field(split[1], split[2], h)))
  }

  function ReadAll(st: ReadState, lines: seq<string>): (r: Result<ReadState>)
    requires Tracked(st)
    ensures r.Ok? ==> Tracked(r.value)
    decreases |lines|
  {
    if |lines| == 0 then Ok(st)
    else
      match ReadAll(st, lines[..|lines| - 1])
      case Err(e) => Err(e)
      case Ok(s) => Step(s, lines[|lines| - 1])
  }

  /** `read(lines)`. */
  function ReadLines(lines: seq<string>): Result<ClassMapping> {
    match ReadAll(Start, lines)
    case Err(e) => Err(e)
    case Ok(st) => Ok(st.m)
  }

  lemma {:induction false} ReadConcat(st: ReadState, a: seq<string>, b: seq<string>)
    requires Tracked(st)
    ensures ReadAll(st, a + b) == match ReadAll(st, a)
      case Err(e) => Err(e)
      case Ok(s) => ReadAll(s, b)
    decreases |b|
  {
    if |b| == 0 {
      assert a + b == a;
    } else {
      var b0 := b[..|b| - 1];
      assert (a + b)[..|a + b| - 1] == a + b0;
      ReadConcat(st, a, b0);
    }
  }

  lemma ReadFailsAt(lines: seq<string>, i: nat, st: ReadState, e: string)
    requires i < |lines| && Tracked(st)
    requires ReadAll(Start, lines[..i]) == Ok(st) && Step(st, lines[i]) == Err(e)
    ensures ReadLines(lines) == Err(e)
  {
    assert lines[..i + 1][..i] == lines[..i];
    assert lines == lines[..i + 1] + lines[i + 1..];
    ReadConcat(Start, lines[..i + 1], lines[i + 1..]);
  }

  /** `read(lines)`, line by line, with the latest class in a variable. */
  method Read(lines: seq<string>) returns (r: Result<ClassMapping>)
    ensures r == ReadLines(lines)
  {
    var mapping: ClassMapping := map[];
    var last := NoClass;
    for i := 0 to |lines|
      invariant Tracked(ReadState(mapping, last))
      invariant ReadAll(Start, lines[..i]) == Ok(ReadState(mapping, last))
    {
      ghost var st := ReadState(mapping, last);
      var line := lines[i];
      if |line| != 0 {
        var split := Split(line, '\t');
        if line[0] != '\t' {
          if |split| < 3 {
            ReadFailsAt(lines, i, st, "IndexOutOfBoundsException");
            return Err("IndexOutOfBoundsException");
          }
          var h := ToHexInt(split[2], 0);
          if h.Err? {
            ReadFailsAt(lines, i, st, h.msg);
            return Err(h.msg);
          }
          var c := NewClass(split[0], split[1], h.value);
          if c.nameFrom in mapping {
            last := Orphan;
          } else {
            mapping := mapping[c.nameFrom := c];
            last := Current(c.nameFrom);
          }
        } else if last == NoClass {
          ReadFailsAt(lines, i, st, "NullPointerException");
          return Err("NullPointerException");
        } else if |split| == 5 {
          var h := ToHexInt(split[4], 0);
          if h.Err? {
            ReadFailsAt(lines, i, st, h.msg);
            return Err(h.msg);
          }
          var e := Method(split[1], split[2], split[3], h.value);
          if last.Current? {
            mapping := AddMethod(mapping, last.name, e);
          }
        } else {
          if |split| < 4 {
            ReadFailsAt(lines, i, st, "IndexOutOfBoundsException");
            return Err("IndexOutOfBoundsException");
          }
          var h := ToHexInt(split[3], 0);
          if h.Err? {
            ReadFailsAt(lines, i, st, h.msg);
            return Err(h.msg);
          }
          var f := Field(split[1], split[2], h.value);
          if last.Current? {
            mapping := AddField(mapping, last.name, f);
          }
        }
      }
      assert lines[..i + 1][..i] == lines[..i];
    }
    assert lines[..|lines|] == lines;
    r := Ok(mapping);
  }
}
