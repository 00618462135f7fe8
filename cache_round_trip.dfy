/**
 * Reading back what the cache writer printed gives the mapping that was
 * written, provided no name holds a tab or a newline and no class name is
 * empty (an empty class name would make the class row start with a tab).
 */
module CacheRoundTrip {
  import opened Wrappers
  import opened Jvm
  import opened Text
  import opened Hex
  import opened Mappings
  import opened CacheFormat

  // ---- what can be printed -----------------------------------------------------

  /**
   * No separator of the format occurs in `s`: no tab, and no character at
   * which `BufferedReader.readLine` ends a line (line feed, carriage return).
   */
  predicate Bare(s: string) {
    '\t' !in s && '\n' !in s && '\r' !in s
  }

  predicate FieldPrintable(f: Field) {
    Bare(f.nameFrom) && Bare(f.nameTo)
  }

  predicate MethodPrintable(e: Method) {
    Bare(e.nameFrom) && Bare(e.desc) && Bare(e.nameTo)
  }

  ghost predicate ClassPrintable(c: Class) {
    && |c.nameFrom| > 0 && Bare(c.nameFrom) && Bare(c.nameTo)
    && (forall h :: h in c.fields ==> FieldPrintable(c.fields[h]))
    && (forall h :: h in c.methods ==> MethodPrintable(c.methods[h]))
  }

  /** Every class of `m` can be printed and read back. */
  ghost predicate Printable(m: ClassMapping) {
    forall h :: h in m ==> ClassPrintable(m[h])
  }

  // ---- rows split into their fields ----------------------------------------------

  lemma {:induction false} HexDigitsBare(v: nat, n: nat)
    ensures Bare(HexDigits(v, n))
    decreases n
  {
    if n > 0 {
      HexDigitsBare(v / 16, n - 1);
      var c := HEX_CHARS[v % 16];
      assert c != '\t' && c != '\n' && c != '\r';
      assert HexDigits(v, n) == HexDigits(v / 16, n - 1) + [c];
    }
  }

  lemma SplitClassRow(c: Class)
    requires Bare(c.nameFrom) && Bare(c.nameTo)
    ensures Split(ClassRow(c), '\t') == [c.nameFrom, c.nameTo, Hex16(c.hash)]
  {
    HexDigitsBare(c.hash, 16);
    JoinThree(c.nameFrom, c.nameTo, Hex16(c.hash), '\t');
    SplitJoin([c.nameFrom, c.nameTo, Hex16(c.hash)], '\t');
  }

  lemma SplitFieldRow(f: Field)
    requires FieldPrintable(f)
    ensures Split(FieldRow(f), '\t') == ["", f.nameFrom, f.nameTo, Hex16(f.hash)]
  {
    HexDigitsBare(f.hash, 16);
    JoinFour("", f.nameFrom, f.nameTo, Hex16(f.hash), '\t');
    assert FieldRow(f) == Join(["", f.nameFrom, f.nameTo, Hex16(f.hash)], '\t');
    SplitJoin(["", f.nameFrom, f.nameTo, Hex16(f.hash)], '\t');
  }

  lemma SplitMethodRow(e: Method)
    requires MethodPrintable(e)
    ensures Split(MethodRow(e), '\t') == ["", e.nameFrom, e.desc, e.nameTo, Hex16(e.hash)]
  {
    HexDigitsBare(e.hash, 16);
    JoinFive("", e.nameFrom, e.desc, e.nameTo, Hex16(e.hash), '\t');
    assert MethodRow(e) == Join(["", e.nameFrom, e.desc, e.nameTo, Hex16(e.hash)], '\t');
    SplitJoin(["", e.nameFrom, e.desc, e.nameTo, Hex16(e.hash)], '\t');
  }

  // ---- one row read back -----------------------------------------------------------

  /** A class row opens its class, with no members yet, unless its fingerprint is taken. */
  lemma ReadClassRow(st: ReadState, c: Class)
    requires Tracked(st) && |c.nameFrom| > 0 && Bare(c.nameFrom) && Bare(c.nameTo)
    ensures c.hash in st.m ==> Step(st, ClassRow(c)) == Ok(ReadState(st.m, Orphan))
    ensures c.hash !in st.m ==>
      Step(st, ClassRow(c)) == Ok(ReadState(st.m[c.hash := c.(fields := map[], methods := map[])], Current(c.hash)))
  {
    var line := ClassRow(c);
    assert line[0] == c.nameFrom[0];
    SplitClassRow(c);
    LongHexRoundTrip(c.hash);
  }

  /** A field row goes to the latest class. */
  lemma ReadFieldRow(st: ReadState, f: Field)
    requires Tracked(st) && st.last != NoClass && FieldPrintable(f)
    ensures Step(st, FieldRow(f)) == Ok(WithField(st, f))
  {
    var line := FieldRow(f);
    assert line[0] == '\t';
    SplitFieldRow(f);
    LongHexRoundTrip(f.hash);
  }

  /** A method row goes to the latest class. */
  lemma ReadMethodRow(st: ReadState, e: Method)
    requires Tracked(st) && st.last != NoClass && MethodPrintable(e)
    ensures Step(st, MethodRow(e)) == Ok(WithMethod(st, e))
  {
    var line := MethodRow(e);
    assert line[0] == '\t';
    SplitMethodRow(e);
    LongHexRoundTrip(e.hash);
  }

  // ---- tables filled one entry at a time ------------------------------------------

  /** Adding the entries of `s` in order, each under `key` of it, keeping the first of each key. */
  function AddAll<E>(t: Table<E>, s: seq<E>, key: E -> U64): (r: Table<E>)
    ensures forall h :: h in t ==> h in r && r[h] == t[h]
    decreases |s|
  {
    if |s| == 0 then t else Add(AddAll(t, s[..|s| - 1], key), key(s[|s| - 1]), s[|s| - 1])
  }

  function FieldKey(f: Field): U64 { f.hash }
  function MethodKey(e: Method): U64 { e.hash }
  function ClassKey(c: Class): U64 { c.hash }

  /** Every element of `s` is the entry of `t` under its own key. */
  ghost predicate Within<E>(t: Table<E>, s: seq<E>, key: E -> U64) {
    forall j :: 0 <= j < |s| ==> key(s[j]) in t && t[key(s[j])] == s[j]
  }

  lemma {:induction false} AddAllWithin<E>(t: Table<E>, s: seq<E>, key: E -> U64)
    requires Within(t, s, key)
    ensures forall h :: h in AddAll(map[], s, key) ==> h in t && AddAll(map[], s, key)[h] == t[h]
    ensures forall j :: 0 <= j < |s| ==> key(s[j]) in AddAll(map[], s, key)
    decreases |s|
  {
    if |s| > 0 {
      var p := s[..|s| - 1];
      assert Within(t, p, key) by {
        forall j | 0 <= j < |p| ensures key(p[j]) in t && t[key(p[j])] == p[j] {
          assert p[j] == s[j];
        }
      }
      AddAllWithin(t, p, key);
      forall j | 0 <= j < |s| ensures key(s[j]) in AddAll(map[], s, key) {
        if j < |p| {
          assert p[j] == s[j];
        }
      }
    }
  }

  /** A listing of a keyed table, added entry by entry to an empty table, rebuilds the table. */
  lemma AddAllRebuilds<E>(t: Table<E>, s: seq<E>, ks: seq<U64>, key: E -> U64)
    requires ListsAt(t, s, ks)
    requires forall h :: h in t ==> key(t[h]) == h
    ensures AddAll(map[], s, key) == t
  {
    assert Within(t, s, key) by {
      forall j | 0 <= j < |s| ensures key(s[j]) in t && t[key(s[j])] == s[j] {
        assert key(t[ks[j]]) == ks[j];
      }
    }
    AddAllWithin(t, s, key);
    var r := AddAll(map[], s, key);
    forall h | h in t ensures h in r {
      var j :| 0 <= j < |ks| && ks[j] == h;
      assert key(s[j]) == h by {
        assert key(t[ks[j]]) == ks[j];
      }
    }
  }

  /** Reading one more row continues from where the earlier rows left the reader. */
  lemma ReadSnoc(st: ReadState, rows: seq<string>, row: string, s: ReadState, s2: ReadState)
    requires Tracked(st) && Tracked(s)
    requires ReadAll(st, rows) == Ok(s) && Step(s, row) == Ok(s2)
    ensures ReadAll(st, rows + [row]) == Ok(s2)
  {
    assert (rows + [row])[..|rows|] == rows;
  }

  // ---- the member rows of a class ----------------------------------------------------

  /** What the member rows do to the reader: they fill the latest class, or nothing when it was refused. */
  function FieldsRead(st: ReadState, fs: seq<Field>): (r: ReadState)
    requires Tracked(st)
    ensures Tracked(r) && r.last == st.last
  {
    match st.last
    case Current(k) => ReadState(st.m[k := st.m[k].(fields := AddAll(st.m[k].fields, fs, FieldKey))], st.last)
    case _ => st
  }

  function MethodsRead(st: ReadState, ms: seq<Method>): (r: ReadState)
    requires Tracked(st)
    ensures Tracked(r) && r.last == st.last
  {
    match st.last
    case Current(k) => ReadState(st.m[k := st.m[k].(methods := AddAll(st.m[k].methods, ms, MethodKey))], st.last)
    case _ => st
  }

  lemma FieldsReadStep(st: ReadState, fs: seq<Field>)
    requires Tracked(st) && st.last != NoClass && |fs| > 0
    ensures FieldsRead(st, fs) == WithField(FieldsRead(st, fs[..|fs| - 1]), fs[|fs| - 1])
  {
  }

  lemma {:induction false} ReadFieldRows(st: ReadState, fs: seq<Field>)
    requires Tracked(st) && st.last != NoClass
    requires forall j :: 0 <= j < |fs| ==> FieldPrintable(fs[j])
    ensures ReadAll(st, FieldRows(fs)) == Ok(FieldsRead(st, fs))
    decreases |fs|
  {
    if |fs| > 0 {
      var p := fs[..|fs| - 1];
      var f := fs[|fs| - 1];
      ReadFieldRows(st, p);
      ReadFieldRow(FieldsRead(st, p), f);
      FieldsReadStep(st, fs);
      ReadSnoc(st, FieldRows(p), FieldRow(f), FieldsRead(st, p), FieldsRead(st, fs));
    } else if st.last.Current? {
      var k := st.last.key;
      assert st.m[k].(fields := st.m[k].fields) == st.m[k];
      assert st.m[k := st.m[k]] == st.m;
    }
  }

  lemma MethodsReadStep(st: ReadState, ms: seq<Method>)
    requires Tracked(st) && st.last != NoClass && |ms| > 0
    ensures MethodsRead(st, ms) == WithMethod(MethodsRead(st, ms[..|ms| - 1]), ms[|ms| - 1])
  {
  }

  lemma {:induction false} ReadMethodRows(st: ReadState, ms: seq<Method>)
    requires Tracked(st) && st.last != NoClass
    requires forall j :: 0 <= j < |ms| ==> MethodPrintable(ms[j])
    ensures ReadAll(st, MethodRows(ms)) == Ok(MethodsRead(st, ms))
    decreases |ms|
  {
    if |ms| > 0 {
      var p := ms[..|ms| - 1];
      var e := ms[|ms| - 1];
      ReadMethodRows(st, p);
      ReadMethodRow(MethodsRead(st, p), e);
      MethodsReadStep(st, ms);
      ReadSnoc(st, MethodRows(p), MethodRow(e), MethodsRead(st, p), MethodsRead(st, ms));
    } else if st.last.Current? {
      var k := st.last.key;
      assert st.m[k].(methods := st.m[k].methods) == st.m[k];
      assert st.m[k := st.m[k]] == st.m;
    }
  }

  // ---- one class block -----------------------------------------------------------

  /** The block's member rows are printable because its class's members are. */
  lemma BlockMembersPrintable(b: Block)
    requires ClassPrintable(b.cls) && BlockLists(b)
    ensures forall j :: 0 <= j < |b.fields| ==> FieldPrintable(b.fields[j])
    ensures forall j :: 0 <= j < |b.methods| ==> MethodPrintable(b.methods[j])
  {
    forall j | 0 <= j < |b.fields| ensures FieldPrintable(b.fields[j]) {
      assert b.fields[j] == b.cls.fields[b.fieldKeys[j]];
    }
    forall j | 0 <= j < |b.methods| ensures MethodPrintable(b.methods[j]) {
      assert b.methods[j] == b.cls.methods[b.methodKeys[j]];
    }
  }

  lemma ReadOne(st: ReadState, row: string)
    requires Tracked(st)
    ensures ReadAll(st, [row]) == Step(st, row)
  {
    assert [row][..0] == [];
  }

  lemma ReadMemberRows(st: ReadState, fs: seq<Field>, ms: seq<Method>)
    requires Tracked(st) && st.last != NoClass
    requires forall j :: 0 <= j < |fs| ==> FieldPrintable(fs[j])
    requires forall j :: 0 <= j < |ms| ==> MethodPrintable(ms[j])
    ensures ReadAll(st, FieldRows(fs) + MethodRows(ms)) == Ok(MethodsRead(FieldsRead(st, fs), ms))
  {
    ReadFieldRows(st, fs);
    ReadMethodRows(FieldsRead(st, fs), ms);
    ReadConcat(st, FieldRows(fs), MethodRows(ms));
  }

  /** Filling a freshly opened class with listings of its member tables gives the class back. */
  lemma RefillClass(m: ClassMapping, b: Block)
    requires BlockLists(b) && ClassKeyed(b.cls)
    ensures
      var c := b.cls;
      var st := ReadState(m[c.hash := c.(fields := map[], methods := map[])], Current(c.hash));
      MethodsRead(FieldsRead(st, b.fields), b.methods) == ReadState(m[c.hash := c], Current(c.hash))
  {
    var c := b.cls;
    var c0 := c.(fields := map[], methods := map[]);
    RefillFields(m, c0, c.fields, b.fields, b.fieldKeys);
    var c1 := c0.(fields := c.fields);
    RefillMethods(m, c1, c.methods, b.methods, b.methodKeys);
    assert c1.(methods := c.methods) == c;
  }

  lemma RefillFields(m: ClassMapping, c0: Class, t: Table<Field>, fs: seq<Field>, ks: seq<U64>)
    requires c0.fields == map[] && ListsAt(t, fs, ks) && FieldsKeyed(t)
    ensures FieldsRead(ReadState(m[c0.hash := c0], Current(c0.hash)), fs)
      == ReadState(m[c0.hash := c0.(fields := t)], Current(c0.hash))
  {
    AddAllRebuilds(t, fs, ks, FieldKey);
    assert m[c0.hash := c0][c0.hash := c0.(fields := t)] == m[c0.hash := c0.(fields := t)];
  }

  lemma RefillMethods(m: ClassMapping, c0: Class, t: Table<Method>, ms: seq<Method>, ks: seq<U64>)
    requires c0.methods == map[] && ListsAt(t, ms, ks) && MethodsKeyed(t)
    ensures MethodsRead(ReadState(m[c0.hash := c0], Current(c0.hash)), ms)
      == ReadState(m[c0.hash := c0.(methods := t)], Current(c0.hash))
  {
    AddAllRebuilds(t, ms, ks, MethodKey);
    assert m[c0.hash := c0][c0.hash := c0.(methods := t)] == m[c0.hash := c0.(methods := t)];
  }

  lemma BlockRowsSplit(b: Block)
    ensures BlockRows(b) == [ClassRow(b.cls)] + (FieldRows(b.fields) + MethodRows(b.methods))
  {
  }

  /** A class block adds its class to what was read before, unless that fingerprint is already taken. */
  lemma ReadBlock(st: ReadState, b: Block)
    requires Tracked(st) && ClassPrintable(b.cls) && BlockLists(b) && ClassKeyed(b.cls)
    ensures ReadAll(st, BlockRows(b)).Ok?
    ensures ReadAll(st, BlockRows(b)).value.m == Add(st.m, b.cls.hash, b.cls)
  {
    var c := b.cls;
    var row := ClassRow(c);
    ReadClassRow(st, c);
    ReadOne(st, row);
    var s1 := Step(st, row).value;
    BlockMembersPrintable(b);
    ReadMemberRows(s1, b.fields, b.methods);
    BlockRowsSplit(b);
    ReadConcat(st, [row], FieldRows(b.fields) + MethodRows(b.methods));
    if c.hash !in st.m {
      RefillClass(st.m, b);
    }
  }

  // ---- the whole printout -------------------------------------------------------------

  /** Each block can be read back on its own. */
  ghost predicate Readable(b: Block) {
    ClassPrintable(b.cls) && BlockLists(b) && ClassKeyed(b.cls)
  }

  lemma {:induction false} ReadBlocks(bs: seq<Block>)
    requires forall i :: 0 <= i < |bs| ==> Readable(bs[i])
    ensures ReadAll(Start, AllRows(bs)).Ok?
    ensures ReadAll(Start, AllRows(bs)).value.m == AddAll(map[], ClassesOf(bs), ClassKey)
    decreases |bs|
  {
    if |bs| > 0 {
      var p := bs[..|bs| - 1];
      var b := bs[|bs| - 1];
      assert forall i :: 0 <= i < |p| ==> Readable(p[i]) by {
        forall i | 0 <= i < |p| ensures Readable(p[i]) {
          assert p[i] == bs[i];
        }
      }
      ReadBlocks(p);
      var s := ReadAll(Start, AllRows(p)).value;
      ReadBlock(s, b);
      assert AllRows(bs) == AllRows(p) + BlockRows(b);
      ReadConcat(Start, AllRows(p), BlockRows(b));
      ClassesOfSnoc(bs);
      AddAllSnoc(map[], ClassesOf(bs), ClassKey);
    }
  }

  /** The classes of all blocks but the last, then the last block's class. */
  lemma ClassesOfSnoc(bs: seq<Block>)
    requires |bs| > 0
    ensures ClassesOf(bs)[..|bs| - 1] == ClassesOf(bs[..|bs| - 1])
    ensures ClassesOf(bs)[|bs| - 1] == bs[|bs| - 1].cls
  {
    var cs := ClassesOf(bs);
    var p := bs[..|bs| - 1];
    assert forall i :: 0 <= i < |p| ==> cs[..|bs| - 1][i] == ClassesOf(p)[i];
  }

  /** Adding a sequence adds all but its last element, then the last. */
  lemma AddAllSnoc<E>(t: Table<E>, s: seq<E>, key: E -> U64)
    requires |s| > 0
    ensures AddAll(t, s, key) == Add(AddAll(t, s[..|s| - 1], key), key(s[|s| - 1]), s[|s| - 1])
  {
  }

  /** Reading the rows of a printout of a keyed, printable mapping gives the mapping back. */
  lemma ReadRowsBack(m: ClassMapping, bs: seq<Block>, ks: seq<U64>)
    requires Keyed(m) && Printable(m) && Written(m, bs, ks)
    ensures ReadLines(AllRows(bs)) == Ok(m)
  {
    var cs := ClassesOf(bs);
    forall i | 0 <= i < |bs| ensures Readable(bs[i]) {
      assert bs[i].cls == m[ks[i]];
    }
    ReadBlocks(bs);
    AddAllRebuilds(m, cs, ks, ClassKey);
  }

  // ---- lines ---------------------------------------------------------------------

  /** No row holds a line terminator. */
  predicate OneLineEach(rows: seq<string>) {
    forall j :: 0 <= j < |rows| ==> '\n' !in rows[j] && '\r' !in rows[j]
  }

  /** Reading a printout line by line, as `useLines` does, gives back exactly its rows. */
  lemma {:induction false} LinesOfPrinted(rows: seq<string>)
    requires OneLineEach(rows)
    ensures Lines(Printed(rows)) == rows
    decreases |rows|
  {
    if |rows| > 0 {
      LinesCons(rows[0], Printed(rows[1..]));
      LinesOfPrinted(rows[1..]);
    }
  }

  lemma {:induction false} FieldRowsOneLine(fs: seq<Field>)
    requires forall j :: 0 <= j < |fs| ==> FieldPrintable(fs[j])
    ensures OneLineEach(FieldRows(fs))
    decreases |fs|
  {
    if |fs| > 0 {
      var f := fs[|fs| - 1];
      FieldRowsOneLine(fs[..|fs| - 1]);
      HexDigitsBare(f.hash, 16);
      assert '\n' !in FieldRow(f) && '\r' !in FieldRow(f);
    }
  }

  lemma {:induction false} MethodRowsOneLine(ms: seq<Method>)
    requires forall j :: 0 <= j < |ms| ==> MethodPrintable(ms[j])
    ensures OneLineEach(MethodRows(ms))
    decreases |ms|
  {
    if |ms| > 0 {
      var e := ms[|ms| - 1];
      MethodRowsOneLine(ms[..|ms| - 1]);
      HexDigitsBare(e.hash, 16);
      assert '\n' !in MethodRow(e) && '\r' !in MethodRow(e);
    }
  }

  lemma {:induction false} AllRowsOneLine(bs: seq<Block>)
    requires forall i :: 0 <= i < |bs| ==> Readable(bs[i])
    ensures OneLineEach(AllRows(bs))
    decreases |bs|
  {
    if |bs| > 0 {
      var p := bs[..|bs| - 1];
      var b := bs[|bs| - 1];
      forall i | 0 <= i < |p| ensures Readable(p[i]) {
        assert p[i] == bs[i];
      }
      AllRowsOneLine(p);
      BlockMembersPrintable(b);
      FieldRowsOneLine(b.fields);
      MethodRowsOneLine(b.methods);
      HexDigitsBare(b.cls.hash, 16);
      assert '\n' !in ClassRow(b.cls) && '\r' !in ClassRow(b.cls);
    }
  }

  /** `read` skips an empty line wherever it stands. */
  lemma SkipsEmptyLine(st: ReadState, a: seq<string>, b: seq<string>)
    requires Tracked(st)
    ensures ReadAll(st, a + [""] + b) == ReadAll(st, a + b)
  {
    ReadConcat(st, a + [""], b);
    ReadConcat(st, a, [""]);
    ReadOne(st, "");
    ReadConcat(st, a, b);
    match ReadAll(st, a)
    case Err(_) =>
    case Ok(s) => ReadOne(s, "");
  }

  /** A member row before any class row throws. */
  lemma MemberRowFirstFails(line: string, rest: seq<string>)
    requires |line| > 0 && line[0] == '\t'
    ensures ReadLines([line] + rest) == Err("NullPointerException")
  {
    var lines := [line] + rest;
    assert lines[..0] == [];
    ReadFailsAt(lines, 0, Start, "NullPointerException");
  }

  /** `read(write(m))`: the text the writer prints, read line by line as `useLines` does, is `m` again. */
  lemma RoundTrip(m: ClassMapping, bs: seq<Block>, ks: seq<U64>)
    requires Keyed(m) && Printable(m) && Written(m, bs, ks)
    ensures ReadLines(Lines(Printed(AllRows(bs)))) == Ok(m)
  {
    var rows := AllRows(bs);
    forall i | 0 <= i < |bs| ensures Readable(bs[i]) {
      assert bs[i].cls == m[ks[i]];
    }
    AllRowsOneLine(bs);
    LinesOfPrinted(rows);
    ReadRowsBack(m, bs, ks);
  }

  /** Writing a mapping to a fresh buffer and reading the buffer's lines back gives the mapping. */
  method WriteThenRead(m: ClassMapping) returns (r: Result<ClassMapping>)
    requires Keyed(m) && Printable(m)
    ensures r == Ok(m)
  {
    var sb := new StringBuilder();
    var bs, ks := Write(sb, m);
    assert sb.text == Printed(AllRows(bs));
    RoundTrip(m, bs, ks);
    r := Read(Lines(sb.text));
  }
}
