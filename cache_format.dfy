/**
 * The cache format of `InternalMappingParser`: one row per class,
 * `nameFrom\tnameTo\t<fingerprint>`, followed by a row per field,
 * `\tnameFrom\tnameTo\t<fingerprint>`, and a row per method,
 * `\tnameFrom\tdesc\tnameTo\t<fingerprint>`, every fingerprint written as
 * sixteen upper-case hex digits and every row ended by a newline. The reader
 * takes the fingerprints from the text rather than recomputing them.
 */
module CacheFormat {
  import opened Wrappers
  import opened Jvm
  import opened Text
  import opened Hex
  import opened Mappings
  import opened Sorting
  import Folds

  // ---- the rows --------------------------------------------------------------

  /** `appendHexLong`: a fingerprint as sixteen hex digits. */
  function Hex16(v: U64): (r: string)
    ensures |r| == 16
  {
    HexDigits(v, 16)
  }

  function ClassRow(c: Class): string {
    c.nameFrom + "\t" + c.nameTo + "\t" + Hex16(c.hash)
  }

  function FieldRow(f: Field): string {
    "\t" + f.nameFrom + "\t" + f.nameTo + "\t" + Hex16(f.hash)
  }

  function MethodRow(e: Method): string {
    "\t" + e.nameFrom + "\t" + e.desc + "\t" + e.nameTo + "\t" + Hex16(e.hash)
  }

  function FieldRows(fs: seq<Field>): seq<string>
    decreases |fs|
  {
    if |fs| == 0 then [] else FieldRows(fs[..|fs| - 1]) + [FieldRow(fs[|fs| - 1])]
  }

  function MethodRows(ms: seq<Method>): seq<string>
    decreases |ms|
  {
    if |ms| == 0 then [] else MethodRows(ms[..|ms| - 1]) + [MethodRow(ms[|ms| - 1])]
  }

  /**
   * One class as the writer prints it: the class, then its fields and methods
   * in the listed order. The key lists say which table slot each listed member
   * came from.
   */
  datatype Block = Block(cls: Class, fields: seq<Field>, fieldKeys: seq<U64>,
                         methods: seq<Method>, methodKeys: seq<U64>)

  function BlockRows(b: Block): seq<string> {
    [ClassRow(b.cls)] + FieldRows(b.fields) + MethodRows(b.methods)
  }

  function AllRows(bs: seq<Block>): seq<string>
    decreases |bs|
  {
    if |bs| == 0 then [] else AllRows(bs[..|bs| - 1]) + BlockRows(bs[|bs| - 1])
  }

  /** The text of some rows, each ended by a newline. */
  function Printed(rows: seq<string>): string
    decreases |rows|
  {
    if |rows| == 0 then "" else rows[0] + "\n" + Printed(rows[1..])
  }

  lemma {:induction false} PrintedAppend(a: seq<string>, b: seq<string>)
    ensures Printed(a + b) == Printed(a) + Printed(b)
    decreases |a|
  {
    if |a| > 0 {
      assert (a + b)[1..] == a[1..] + b;
      PrintedAppend(a[1..], b);
    } else {
      assert a + b == b;
    }
  }

  lemma PrintedOne(r: string)
    ensures Printed([r]) == r + "\n"
  {
    assert [r][1..] == [];
  }

  // ---- listings ----------------------------------------------------------------

  /** `s` lists the entries of `t`, the i-th being the one under key `ks[i]`, and every key is listed. */
  ghost predicate ListsAt<E>(t: Table<E>, s: seq<E>, ks: seq<U64>) {
    && |ks| == |s|
    && (forall i :: 0 <= i < |s| ==> ks[i] in t && t[ks[i]] == s[i])
    && forall h :: h in t ==> h in ks
  }

  /** Each block lists the members of its own class. */
  ghost predicate BlockLists(b: Block) {
    ListsAt(b.cls.fields, b.fields, b.fieldKeys) && ListsAt(b.cls.methods, b.methods, b.methodKeys)
  }

  function ClassesOf(bs: seq<Block>): (r: seq<Class>)
    ensures |r| == |bs| && forall i :: 0 <= i < |bs| ==> r[i] == bs[i].cls
  {
    seq(|bs|, i requires 0 <= i < |bs| => bs[i].cls)
  }

  /** `bs` is a printout of `m`: its classes list `m`, and each block lists its class's members. */
  ghost predicate Written(m: ClassMapping, bs: seq<Block>, ks: seq<U64>) {
    ListsAt(m, ClassesOf(bs), ks) && forall i :: 0 <= i < |bs| ==> BlockLists(bs[i])
  }

  // ---- the writer ----------------------------------------------------------------

  /** Swapping the operands of `compareTo` negates it, for all three kinds of entry. */
  lemma CompareAntisymmetries()
    ensures Antisymmetric(FieldCompare) && Antisymmetric(MethodCompare) && Antisymmetric(ClassCompare)
  {
    forall a: string, b: string
      ensures Compare(a, b) == -Compare(b, a)
    {
      CompareAntisymmetric(a, b);
    }
  }

  function Key<E>(p: (U64, E)): U64 { p.0 }

  function Entry<E>(p: (U64, E)): E { p.1 }

  /** The walk as (key, entry) pairs. */
  function Pairs<E>(t: Table<E>, walk: seq<U64>): (r: seq<(U64, E)>)
    requires forall j :: 0 <= j < |walk| ==> walk[j] in t
    ensures |r| == |walk| && forall j :: 0 <= j < |walk| ==> r[j] == (walk[j], t[walk[j]])
  {
    seq(|walk|, j requires 0 <= j < |walk| => (walk[j], t[walk[j]]))
  }

  /** Any rearrangement of the walked pairs lists the table by their keys. */
  lemma PairsList<E>(t: Table<E>, walk: seq<U64>, sorted: seq<(U64, E)>)
    requires forall j :: 0 <= j < |walk| ==> walk[j] in t
    requires forall h :: h in t ==> h in walk
    requires multiset(sorted) == multiset(Pairs(t, walk))
    ensures ListsAt(t, MapSeq(sorted, Entry), MapSeq(sorted, Key))
  {
    var pairs := Pairs(t, walk);
    var ks := MapSeq(sorted, Key);
    forall i | 0 <= i < |sorted|
      ensures ks[i] in t && t[ks[i]] == sorted[i].1
    {
      assert sorted[i] in multiset(pairs);
      var j :| 0 <= j < |pairs| && pairs[j] == sorted[i];
    }
    forall h | h in t
      ensures h in ks
    {
      var j :| 0 <= j < |walk| && walk[j] == h;
      assert pairs[j] in multiset(sorted);
      var i :| 0 <= i < |sorted| && sorted[i] == pairs[j];
      assert ks[i] == h;
    }
  }

  /** `sortedArray`: the entries of the table in `forEachFast` order, then sorted. */
  method SortedArray<E(!new)>(t: Table<E>, cmp: (E, E) -> int) returns (s: seq<E>, ghost ks: seq<U64>)
    ensures ListsAt(t, s, ks) && |s| == |t|
    ensures Antisymmetric(cmp) ==> Sorted(s, cmp)
  {
    var walk := Folds.WalkOrder(t);
    var walked := seq(|walk|, i requires 0 <= i < |walk| => t[walk[i]]);
    s := Sort(walked, cmp);
    ks := SortedKeys(t, walk, walked, cmp);
  }

  /** The fingerprints the sorted walk lists the table by: sorting the (key, entry) pairs by entry. */
  lemma SortedKeys<E(!new)>(t: Table<E>, walk: seq<U64>, walked: seq<E>, cmp: (E, E) -> int) returns (ks: seq<U64>)
    requires forall j :: 0 <= j < |walk| ==> walk[j] in t
    requires forall h :: h in t ==> h in walk
    requires walked == seq(|walk|, i requires 0 <= i < |walk| => t[walk[i]])
    ensures ListsAt(t, Sort(walked, cmp), ks)
  {
    var pairs := Pairs(t, walk);
    var sorted := Sort(pairs, By(Entry, cmp));
    SortMap(pairs, Entry, cmp);
    assert MapSeq(pairs, Entry) == walked;
    PairsList(t, walk, sorted);
    ks := MapSeq(sorted, Key);
  }

  lemma PrintedFieldStep(t0: string, before: string, fs: seq<Field>, i: nat)
    requires i < |fs| && before == t0 + Printed(FieldRows(fs[..i]))
    ensures before + Printed([FieldRow(fs[i])]) == t0 + Printed(FieldRows(fs[..i + 1]))
  {
    assert fs[..i + 1][..i] == fs[..i];
    PrintedSnoc(t0, before, FieldRows(fs[..i]), FieldRow(fs[i]), FieldRows(fs[..i + 1]));
  }

  lemma PrintedMethodStep(t0: string, before: string, ms: seq<Method>, i: nat)
    requires i < |ms| && before == t0 + Printed(MethodRows(ms[..i]))
    ensures before + Printed([MethodRow(ms[i])]) == t0 + Printed(MethodRows(ms[..i + 1]))
  {
    assert ms[..i + 1][..i] == ms[..i];
    PrintedSnoc(t0, before, MethodRows(ms[..i]), MethodRow(ms[i]), MethodRows(ms[..i + 1]));
  }

  /** Printing one more row after the text printed so far. */
  lemma PrintedSnoc(t0: string, before: string, rows: seq<string>, row: string, next: seq<string>)
    requires next == rows + [row] && before == t0 + Printed(rows)
    ensures before + Printed([row]) == t0 + Printed(next)
  {
    PrintedAppend(rows, [row]);
  }

  method WriteField(sb: StringBuilder, f: Field)
    modifies sb
    ensures sb.text == old(sb.text) + Printed([FieldRow(f)])
  {
    PrintedOne(FieldRow(f));
    sb.Append('\t');
    sb.AppendString(f.nameFrom);
    sb.Append('\t');
    sb.AppendString(f.nameTo);
    sb.Append('\t');
    AppendHexLong(sb, f.hash);
    sb.Append('\n');
  }

  method WriteMethod(sb: StringBuilder, e: Method)
    modifies sb
    ensures sb.text == old(sb.text) + Printed([MethodRow(e)])
  {
    PrintedOne(MethodRow(e));
    sb.Append('\t');
    sb.AppendString(e.nameFrom);
    sb.Append('\t');
    sb.AppendString(e.desc);
    sb.Append('\t');
    sb.AppendString(e.nameTo);
    sb.Append('\t');
    AppendHexLong(sb, e.hash);
    sb.Append('\n');
  }

  /** One row per field, in the order given. */
  method WriteFieldRows(sb: StringBuilder, fs: seq<Field>)
    modifies sb
    ensures sb.text == old(sb.text) + Printed(FieldRows(fs))
  {
    for i := 0 to |fs|
      invariant sb.text == old(sb.text) + Printed(FieldRows(fs[..i]))
    {
      ghost var before := sb.text;
      WriteField(sb, fs[i]);
      PrintedFieldStep(old(sb.text), before, fs, i);
    }
    assert fs[..|fs|] == fs;
  }

  /** The fields of a class, sorted, one row each. */
  method WriteFields(sb: StringBuilder, t: Table<Field>) returns (fs: seq<Field>, ghost ks: seq<U64>)
    modifies sb
    ensures sb.text == old(sb.text) + Printed(FieldRows(fs))
    ensures ListsAt(t, fs, ks) && |fs| == |t| && Sorted(fs, FieldCompare)
  {
    fs, ks := [], [];
    if |t| != 0 {
      CompareAntisymmetries();
      fs, ks := SortedArray(t, FieldCompare);
      WriteFieldRows(sb, fs);
    } else {
      assert t == map[];
    }
  }

  /** One row per method, in the order given. */
  method WriteMethodRows(sb: StringBuilder, ms: seq<Method>)
    modifies sb
    ensures sb.text == old(sb.text) + Printed(MethodRows(ms))
  {
    for i := 0 to |ms|
      invariant sb.text == old(sb.text) + Printed(MethodRows(ms[..i]))
    {
      ghost var before := sb.text;
      WriteMethod(sb, ms[i]);
      PrintedMethodStep(old(sb.text), before, ms, i);
    }
    assert ms[..|ms|] == ms;
  }

  /** The methods of a class, sorted, one row each. */
  method WriteMethods(sb: StringBuilder, t: Table<Method>) returns (ms: seq<Method>, ghost ks: seq<U64>)
    modifies sb
    ensures sb.text == old(sb.text) + Printed(MethodRows(ms))
    ensures ListsAt(t, ms, ks) && |ms| == |t| && Sorted(ms, MethodCompare)
  {
    ms, ks := [], [];
    if |t| != 0 {
      CompareAntisymmetries();
      ms, ks := SortedArray(t, MethodCompare);
      WriteMethodRows(sb, ms);
    } else {
      assert t == map[];
    }
  }

  /** `write(appendable, entry)`: the class row, then the sorted fields, then the sorted methods. */
  method WriteClass(sb: StringBuilder, c: Class) returns (ghost b: Block)
    modifies sb
    ensures sb.text == old(sb.text) + Printed(BlockRows(b))
    ensures b.cls == c && BlockLists(b)
    ensures |b.fields| == |c.fields| && Sorted(b.fields, FieldCompare)
    ensures |b.methods| == |c.methods| && Sorted(b.methods, MethodCompare)
  {
    ghost var t0 := sb.text;
    sb.AppendString(c.nameFrom);
    sb.Append('\t');
    sb.AppendString(c.nameTo);
    sb.Append('\t');
    AppendHexLong(sb, c.hash);
    sb.Append('\n');
    assert sb.text == t0 + (ClassRow(c) + "\n");
    ghost var t1 := sb.text;
    var fs, fks := WriteFields(sb, c.fields);
    ghost var t2 := sb.text;
    var ms, mks := WriteMethods(sb, c.methods);
    b := Block(c, fs, fks, ms, mks);
    PrintedBlock(t0, t1, t2, sb.text, b);
  }

  /** The text a block's three stages append is the text of its rows. */
  lemma PrintedBlock(t0: string, t1: string, t2: string, t3: string, b: Block)
    requires t1 == t0 + (ClassRow(b.cls) + "\n")
    requires t2 == t1 + Printed(FieldRows(b.fields)) && t3 == t2 + Printed(MethodRows(b.methods))
    ensures t3 == t0 + Printed(BlockRows(b))
  {
    PrintedOne(ClassRow(b.cls));
    PrintedAppend([ClassRow(b.cls)], FieldRows(b.fields));
    PrintedAppend([ClassRow(b.cls)] + FieldRows(b.fields), MethodRows(b.methods));
  }

  lemma PrintedBlockStep(t0: string, before: string, bs: seq<Block>, b: Block)
    requires before == t0 + Printed(AllRows(bs))
    ensures before + Printed(BlockRows(b)) == t0 + Printed(AllRows(bs + [b]))
  {
    assert (bs + [b])[..|bs|] == bs;
    PrintedAppend(AllRows(bs), BlockRows(b));
  }

  /** `write(appendable, classMapping)`: every class in `compareTo` order. */
  method Write(sb: StringBuilder, m: ClassMapping) returns (ghost bs: seq<Block>, ghost ks: seq<U64>)
    modifies sb
    ensures sb.text == old(sb.text) + Printed(AllRows(bs))
    ensures Written(m, bs, ks) && |bs| == |m|
    ensures Sorted(ClassesOf(bs), ClassCompare)
  {
    CompareAntisymmetries();
    var cs;
    cs, ks := SortedArray(m, ClassCompare);
    bs := WriteClasses(sb, cs);
    assert ClassesOf(bs) == cs;
  }

  /** One block per class, in the order given. */
  method WriteClasses(sb: StringBuilder, cs: seq<Class>) returns (ghost bs: seq<Block>)
    modifies sb
    ensures sb.text == old(sb.text) + Printed(AllRows(bs))
    ensures |bs| == |cs| && forall j :: 0 <= j < |cs| ==> bs[j].cls == cs[j] && BlockLists(bs[j])
  {
    bs := [];
    for i := 0 to |cs|
      invariant |bs| == i
      invariant forall j :: 0 <= j < i ==> bs[j].cls == cs[j] && BlockLists(bs[j])
      invariant sb.text == old(sb.text) + Printed(AllRows(bs))
    {
      ghost var before := sb.text;
      var b := WriteClass(sb, cs[i]);
      PrintedBlockStep(old(sb.text), before, bs, b);
      forall j | 0 <= j < i + 1
        ensures (bs + [b])[j].cls == cs[j] && BlockLists((bs + [b])[j])
      {
        if j < i {
          assert (bs + [b])[j] == bs[j];
        }
      }
      bs := bs + [b];
    }
  }

  // ---- the reader ----------------------------------------------------------------

  /** What `lastClassEntry` refers to: nothing yet, the class stored under a key, or a class the mapping refused. */
  datatype Cursor = NoClass | Current(key: U64) | Orphan

  datatype ReadState = ReadState(m: ClassMapping, last: Cursor)

  /** The class `lastClassEntry` refers to is in the mapping. */
  predicate Tracked(st: ReadState) {
    st.last.Current? ==> st.last.key in st.m
  }

  const Start := ReadState(map[], NoClass)

  /** `MutableClass(split[0], split[1], split[2].toHexLong())`. */
  function ParseClass(split: seq<string>): (r: Result<Class>)
    ensures r.Ok? ==> r.value.fields == map[] && r.value.methods == map[]
  {
    if |split| < 3 then Err("IndexOutOfBoundsException")
    else match ToHexLong(split[2], 0)
      case Err(e) => Err(e)
      case Ok(h) => Ok(Class(split[0], split[1], h, map[], map[]))
  }

  /** `lastClassEntry!!.fieldMapping.add(f)`; a refused class collects nothing the mapping sees. */
  function WithField(st: ReadState, f: Field): (r: ReadState)
    requires Tracked(st) && st.last != NoClass
    ensures Tracked(r) && r.last == st.last
  {
    match st.last
    case Current(k) => ReadState(AddField(st.m, k, f), st.last)
    case Orphan => st
  }

  function WithMethod(st: ReadState, e: Method): (r: ReadState)
    requires Tracked(st) && st.last != NoClass
    ensures Tracked(r) && r.last == st.last
  {
    match st.last
    case Current(k) => ReadState(AddMethod(st.m, k, e), st.last)
    case Orphan => st
  }

  /**
   * One line of `read(lines)`. An empty line is skipped. A line not led by a
   * tab is a class, added to the mapping (which keeps a class already stored
   * under the same fingerprint) and made the latest class. A tab-led line with
   * five fields is a method of the latest class, any other a field; with no
   * class read yet, `lastClassEntry!!` throws before the fields are read.
   */
  function Step(st: ReadState, line: string): (r: Result<ReadState>)
    requires Tracked(st)
    ensures r.Ok? ==> Tracked(r.value)
  {
    if |line| == 0 then Ok(st)
    else
      var split := Split(line, '\t');
      if line[0] != '\t' then
        match ParseClass(split)
        case Err(e) => Err(e)
        case Ok(c) =>
          if c.hash in st.m then Ok(ReadState(st.m, Orphan))
          else Ok(ReadState(st.m[c.hash := c], Current(c.hash)))
      else if st.last.NoClass? then Err("NullPointerException")
      else if |split| == 5 then
        match ToHexLong(split[4], 0)
        case Err(e) => Err(e)
        case Ok(h) => Ok(WithMethod(st, Method(split[1], split[2], split[3], h)))
      else if |split| < 4 then Err("IndexOutOfBoundsException")
      else
        match ToHexLong(split[3], 0)
        case Err(e) => Err(e)
        case Ok(h) => Ok(WithField(st, Field(split[1], split[2], h)))
  }

  /** The lines read one after another; the first exception ends the read. */
  function ReadAll(st: ReadState, lines: seq<string>): (r: Result<ReadState>)
    requires Tracked(st)
    ensures r.Ok? ==> Tracked(r.value)
    decreases |lines|
  {
    if |lines| == 0 then Ok(st)
    else
      match ReadAll(st, lines[..|lines| - 1])
      case Err(e) => Err(e)
      case Ok(s) => Step(s, lines[|lines| - 1])
  }

  /** `read(lines)`. */
  function ReadLines(lines: seq<string>): Result<ClassMapping> {
    match ReadAll(Start, lines)
    case Err(e) => Err(e)
    case Ok(st) => Ok(st.m)
  }

  lemma {:induction false} ReadConcat(st: ReadState, a: seq<string>, b: seq<string>)
    requires Tracked(st)
    ensures ReadAll(st, a + b) == match ReadAll(st, a)
      case Err(e) => Err(e)
      case Ok(s) => ReadAll(s, b)
    decreases |b|
  {
    if |b| == 0 {
      assert a + b == a;
    } else {
      var b0 := b[..|b| - 1];
      assert (a + b)[..|a + b| - 1] == a + b0;
      ReadConcat(st, a, b0);
    }
  }

  lemma ReadFailsAt(lines: seq<string>, i: nat, st: ReadState, e: string)
    requires i < |lines| && Tracked(st)
    requires ReadAll(Start, lines[..i]) == Ok(st) && Step(st, lines[i]) == Err(e)
    ensures ReadLines(lines) == Err(e)
  {
    assert lines[..i + 1][..i] == lines[..i];
    assert lines == lines[..i + 1] + lines[i + 1..];
    ReadConcat(Start, lines[..i + 1], lines[i + 1..]);
  }

  /** `read(lines)`, line by line, with the latest class in a variable. */
  method Read(lines: seq<string>) returns (r: Result<ClassMapping>)
    ensures r == ReadLines(lines)
  {
    var mapping: ClassMapping := map[];
    var last := NoClass;
    for i := 0 to |lines|
      invariant Tracked(ReadState(mapping, last))
      invariant ReadAll(Start, lines[..i]) == Ok(ReadState(mapping, last))
    {
      ghost var st := ReadState(mapping, last);
      var line := lines[i];
      if |line| != 0 {
        var split := Split(line, '\t');
        if line[0] != '\t' {
          if |split| < 3 {
            ReadFailsAt(lines, i, st, "IndexOutOfBoundsException");
            return Err("IndexOutOfBoundsException");
          }
          var h := ToHexLong(split[2], 0);
          if h.Err? {
            ReadFailsAt(lines, i, st, h.msg);
            return Err(h.msg);
          }
          var c := Class(split[0], split[1], h.value, map[], map[]);
          if c.hash in mapping {
            last := Orphan;
          } else {
            mapping := mapping[c.hash := c];
            last := Current(c.hash);
          }
        } else if last == NoClass {
          ReadFailsAt(lines, i, st, "NullPointerException");
          return Err("NullPointerException");
        } else if |split| == 5 {
          var h := ToHexLong(split[4], 0);
          if h.Err? {
            ReadFailsAt(lines, i, st, h.msg);
            return Err(h.msg);
          }
          var e := Method(split[1], split[2], split[3], h.value);
          if last.Current? {
            mapping := AddMethod(mapping, last.key, e);
          }
        } else {
          if |split| < 4 {
            ReadFailsAt(lines, i, st, "IndexOutOfBoundsException");
            return Err("IndexOutOfBoundsException");
          }
          var h := ToHexLong(split[3], 0);
          if h.Err? {
            ReadFailsAt(lines, i, st, h.msg);
            return Err(h.msg);
          }
          var f := Field(split[1], split[2], h.value);
          if last.Current? {
            mapping := AddField(mapping, last.key, f);
          }
        }
      }
      assert lines[..i + 1][..i] == lines[..i];
    }
    assert lines[..|lines|] == lines;
    r := Ok(mapping);
  }
}
