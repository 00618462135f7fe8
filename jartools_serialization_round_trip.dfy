/**
 * Reading back what `MappingSerialization.write` printed gives the mapping
 * that was written, provided no name holds a tab or a newline and no class
 * name is empty; and the private hex codec reads back what it printed, in
 * either case.
 */
module OldCacheRoundTrip {
  import opened Wrappers
  import opened Jvm
  import opened Text
  import opened Hex
  import opened OldMappings
  import opened OldCacheFormat
  import C = CacheFormat
  import R = CacheRoundTrip

  // ---- the hex codec -------------------------------------------------------------

  function Lower(s: string): (r: string)
    ensures |r| == |s| && forall i :: 0 <= i < |s| ==> r[i] == LowerChar(s[i])
  {
    seq(|s|, i requires 0 <= i < |s| => LowerChar(s[i]))
  }

  lemma {:induction false} LowerSameNumber(s: string)
    ensures HexNumber(Lower(s)) == HexNumber(s)
    decreases |s|
  {
    if |s| > 0 {
      var p := s[..|s| - 1];
      assert Lower(s)[..|s| - 1] == Lower(p);
      LowerSameNumber(p);
      LowerSameValue(s[|s| - 1]);
    }
  }

  /** Lowering a character keeps its digit value. */
  lemma LowerSameValue(c: char)
    ensures HexValue(LowerChar(c)) == HexValue(c)
  {
  }

  /**
   * `toHexInt(appendHex(v)) == v`: the eight digits the writer prints read
   * back as v, and so do the same digits in lower case.
   */
  lemma HexCodecRoundTrip(v: U32)
    ensures ToHexInt(Hex8(v), 0) == Ok(v)
    ensures ToHexInt(Lower(Hex8(v)), 0) == Ok(v)
  {
    IntHexRoundTrip(v);
    var d := Hex8(v);
    ToHexIntValue(d, 0);
    ToHexIntValue(Lower(d), 0);
    assert d[0..8] == d && Lower(d)[0..8] == Lower(d);
    LowerSameNumber(d);
  }

  // ---- what can be printed -----------------------------------------------------

  predicate FieldPrintable(f: Field) {
    R.Bare(f.nameFrom) && R.Bare(f.nameTo)
  }

  predicate MethodPrintable(e: Method) {
    R.Bare(e.nameFrom) && R.Bare(e.desc) && R.Bare(e.nameTo)
  }

  ghost predicate ClassPrintable(c: Class) {
    && |c.nameFrom| > 0 && R.Bare(c.nameFrom) && R.Bare(c.nameTo)
    && (forall k :: k in c.fields ==> FieldPrintable(c.fields[k]))
    && (forall k :: k in c.methods ==> MethodPrintable(c.methods[k]))
  }

  ghost predicate Printable(m: ClassMapping) {
    forall k :: k in m ==> ClassPrintable(m[k])
  }

  // ---- rows split into their fields ----------------------------------------------

  lemma SplitClassRow(c: Class)
    requires R.Bare(c.nameFrom) && R.Bare(c.nameTo)
    ensures Split(ClassRow(c), '\t') == [c.nameFrom, c.nameTo, Hex8(c.hash)]
  {
    R.HexDigitsBare(c.hash, 8);
    JoinThree(c.nameFrom, c.nameTo, Hex8(c.hash), '\t');
    SplitJoin([c.nameFrom, c.nameTo, Hex8(c.hash)], '\t');
  }

  lemma SplitFieldRow(f: Field)
    requires FieldPrintable(f)
    ensures Split(FieldRow(f), '\t') == ["", f.nameFrom, f.nameTo, Hex8(f.hash)]
  {
    R.HexDigitsBare(f.hash, 8);
    JoinFour("", f.nameFrom, f.nameTo, Hex8(f.hash), '\t');
    assert FieldRow(f) == Join(["", f.nameFrom, f.nameTo, Hex8(f.hash)], '\t');
    SplitJoin(["", f.nameFrom, f.nameTo, Hex8(f.hash)], '\t');
  }

  lemma SplitMethodRow(e: Method)
    requires MethodPrintable(e)
    ensures Split(MethodRow(e), '\t') == ["", e.nameFrom, e.desc, e.nameTo, Hex8(e.hash)]
  {
    R.HexDigitsBare(e.hash, 8);
    JoinFive("", e.nameFrom, e.desc, e.nameTo, Hex8(e.hash), '\t');
    assert MethodRow(e) == Join(["", e.nameFrom, e.desc, e.nameTo, Hex8(e.hash)], '\t');
    SplitJoin(["", e.nameFrom, e.desc, e.nameTo, Hex8(e.hash)], '\t');
  }

  // ---- one row read back -----------------------------------------------------------

  /** A class row opens its class, with no members yet, unless a class of that name was read. */
  lemma ReadClassRow(st: ReadState, c: Class)
    requires Tracked(st) && |c.nameFrom| > 0 && R.Bare(c.nameFrom) && R.Bare(c.nameTo)
    ensures c.nameFrom in st.m ==> Step(st, ClassRow(c)) == Ok(ReadState(st.m, Orphan))
    ensures c.nameFrom !in st.m ==>
      Step(st, ClassRow(c)) == Ok(ReadState(st.m[c.nameFrom := c.(fields := map[], methods := map[])], Current(c.nameFrom)))
  {
    var line := ClassRow(c);
    assert line[0] == c.nameFrom[0];
    SplitClassRow(c);
    IntHexRoundTrip(c.hash);
  }

  lemma ReadFieldRow(st: ReadState, f: Field)
    requires Tracked(st) && st.last != NoClass && FieldPrintable(f)
    ensures Step(st, FieldRow(f)) == Ok(WithField(st, f))
  {
    var line := FieldRow(f);
    assert line[0] == '\t';
    SplitFieldRow(f);
    IntHexRoundTrip(f.hash);
  }

  lemma ReadMethodRow(st: ReadState, e: Method)
    requires Tracked(st) && st.last != NoClass && MethodPrintable(e)
    ensures Step(st, MethodRow(e)) == Ok(WithMethod(st, e))
  {
    var line := MethodRow(e);
    assert line[0] == '\t';
    SplitMethodRow(e);
    IntHexRoundTrip(e.hash);
  }

  // ---- tables filled one entry at a time ------------------------------------------

  /** Adding the entries of `s` in order, each under `key` of it, a later one replacing an earlier one. */
  function PutAll<K, E>(t: map<K, E>, s: seq<E>, key: E -> K): (r: map<K, E>)
    decreases |s|
  {
    if |s| == 0 then t else PutAll(t, s[..|s| - 1], key)[key(s[|s| - 1]) := s[|s| - 1]]
  }

  /** Adding the entries of `s` in order, keeping the first of each key. */
  function KeepAll<K, E>(t: map<K, E>, s: seq<E>, key: E -> K): (r: map<K, E>)
    ensures forall k :: k in t ==> k in r && r[k] == t[k]
    decreases |s|
  {
    if |s| == 0 then t
    else
      var p := KeepAll(t, s[..|s| - 1], key);
      if key(s[|s| - 1]) in p then p else p[key(s[|s| - 1]) := s[|s| - 1]]
  }

  function ClassKey(c: Class): string { c.nameFrom }
  function FieldKey(f: Field): string { f.nameFrom }

  /** Every element of `s` is the entry of `t` under its own key. */
  ghost predicate Within<K, E>(t: map<K, E>, s: seq<E>, key: E -> K) {
    forall j :: 0 <= j < |s| ==> key(s[j]) in t && t[key(s[j])] == s[j]
  }

  lemma WithinPrefix<K, E>(t: map<K, E>, s: seq<E>, key: E -> K)
    requires Within(t, s, key) && |s| > 0
    ensures Within(t, s[..|s| - 1], key)
  {
    var p := s[..|s| - 1];
    forall j | 0 <= j < |p| ensures key(p[j]) in t && t[key(p[j])] == p[j] {
      assert p[j] == s[j];
    }
  }

  lemma {:induction false} PutAllWithin<K, E>(t: map<K, E>, s: seq<E>, key: E -> K)
    requires Within(t, s, key)
    ensures forall k :: k in PutAll(map[], s, key) ==> k in t && PutAll(map[], s, key)[k] == t[k]
    ensures forall j :: 0 <= j < |s| ==> key(s[j]) in PutAll(map[], s, key)
    decreases |s|
  {
    if |s| > 0 {
      var p := s[..|s| - 1];
      WithinPrefix(t, s, key);
      PutAllWithin(t, p, key);
      forall j | 0 <= j < |s| ensures key(s[j]) in PutAll(map[], s, key) {
        if j < |p| {
          assert p[j] == s[j];
        }
      }
    }
  }

  lemma {:induction false} KeepAllWithin<K, E>(t: map<K, E>, s: seq<E>, key: E -> K)
    requires Within(t, s, key)
    ensures forall k :: k in KeepAll(map[], s, key) ==> k in t && KeepAll(map[], s, key)[k] == t[k]
    ensures forall j :: 0 <= j < |s| ==> key(s[j]) in KeepAll(map[], s, key)
    decreases |s|
  {
    if |s| > 0 {
      var p := s[..|s| - 1];
      WithinPrefix(t, s, key);
      KeepAllWithin(t, p, key);
      forall j | 0 <= j < |s| ensures key(s[j]) in KeepAll(map[], s, key) {
        if j < |p| {
          assert p[j] == s[j];
        }
      }
    }
  }

  /** A listing of a keyed table is within it. */
  lemma ListingWithin<K, E>(t: map<K, E>, s: seq<E>, ks: seq<K>, key: E -> K)
    requires ListsAt(t, s, ks)
    requires forall k :: k in t ==> key(t[k]) == k
    ensures Within(t, s, key)
    ensures forall k :: k in t ==> exists j :: 0 <= j < |s| && key(s[j]) == k
  {
    forall j | 0 <= j < |s| ensures key(s[j]) in t && t[key(s[j])] == s[j] {
      assert key(t[ks[j]]) == ks[j];
    }
    forall k | k in t ensures exists j :: 0 <= j < |s| && key(s[j]) == k {
      var j :| 0 <= j < |ks| && ks[j] == k;
      assert key(s[j]) == k by {
        assert key(t[ks[j]]) == ks[j];
      }
    }
  }

  /** A listing of a keyed table, added entry by entry with replacement to an empty table, rebuilds the table. */
  lemma PutAllRebuilds<K, E>(t: map<K, E>, s: seq<E>, ks: seq<K>, key: E -> K)
    requires ListsAt(t, s, ks)
    requires forall k :: k in t ==> key(t[k]) == k
    ensures PutAll(map[], s, key) == t
  {
    ListingWithin(t, s, ks, key);
    PutAllWithin(t, s, key);
  }

  /** The same with the first of each key kept. */
  lemma KeepAllRebuilds<K, E>(t: map<K, E>, s: seq<E>, ks: seq<K>, key: E -> K)
    requires ListsAt(t, s, ks)
    requires forall k :: k in t ==> key(t[k]) == k
    ensures KeepAll(map[], s, key) == t
  {
    ListingWithin(t, s, ks, key);
    KeepAllWithin(t, s, key);
  }

  lemma ReadSnoc(st: ReadState, rows: seq<string>, row: string, s: ReadState, s2: ReadState)
    requires Tracked(st) && Tracked(s)
    requires ReadAll(st, rows) == Ok(s) && Step(s, row) == Ok(s2)
    ensures ReadAll(st, rows + [row]) == Ok(s2)
  {
    assert (rows + [row])[..|rows|] == rows;
  }

  // ---- the member rows of a class ----------------------------------------------------

  function FieldsRead(st: ReadState, fs: seq<Field>): (r: ReadState)
    requires Tracked(st)
    ensures Tracked(r) && r.last == st.last
  {
    match st.last
    case Current(k) => ReadState(st.m[k := st.m[k].(fields := PutAll(st.m[k].fields, fs, FieldKey))], st.last)
    case _ => st
  }

  function MethodsRead(st: ReadState, ms: seq<Method>): (r: ReadState)
    requires Tracked(st)
    ensures Tracked(r) && r.last == st.last
  {
    match st.last
    case Current(k) => ReadState(st.m[k := st.m[k].(methods := PutAll(st.m[k].methods, ms, KeyOfMethod))], st.last)
    case _ => st
  }

  lemma FieldsReadStep(st: ReadState, fs: seq<Field>)
    requires Tracked(st) && st.last != NoClass && |fs| > 0
    ensures FieldsRead(st, fs) == WithField(FieldsRead(st, fs[..|fs| - 1]), fs[|fs| - 1])
  {
  }

  lemma {:induction false} ReadFieldRows(st: ReadState, fs: seq<Field>)
    requires Tracked(st) && st.last != NoClass
    requires forall j :: 0 <= j < |fs| ==> FieldPrintable(fs[j])
    ensures ReadAll(st, FieldRows(fs)) == Ok(FieldsRead(st, fs))
    decreases |fs|
  {
    if |fs| > 0 {
      var p := fs[..|fs| - 1];
      var f := fs[|fs| - 1];
      ReadFieldRows(st, p);
      ReadFieldRow(FieldsRead(st, p), f);
      FieldsReadStep(st, fs);
      ReadSnoc(st, FieldRows(p), FieldRow(f), FieldsRead(st, p), FieldsRead(st, fs));
    } else if st.last.Current? {
      var k := st.last.name;
      assert st.m[k].(fields := st.m[k].fields) == st.m[k];
      assert st.m[k := st.m[k]] == st.m;
    }
  }

  lemma MethodsReadStep(st: ReadState, ms: seq<Method>)
    requires Tracked(st) && st.last != NoClass && |ms| > 0
    ensures MethodsRead(st, ms) == WithMethod(MethodsRead(st, ms[..|ms| - 1]), ms[|ms| - 1])
  {
  }

  lemma {:induction false} ReadMethodRows(st: ReadState, ms: seq<Method>)
    requires Tracked(st) && st.last != NoClass
    requires forall j :: 0 <= j < |ms| ==> MethodPrintable(ms[j])
    ensures ReadAll(st, MethodRows(ms)) == Ok(MethodsRead(st, ms))
    decreases |ms|
  {
    if |ms| > 0 {
      var p := ms[..|ms| - 1];
      var e := ms[|ms| - 1];
      ReadMethodRows(st, p);
      ReadMethodRow(MethodsRead(st, p), e);
      MethodsReadStep(st, ms);
      ReadSnoc(st, MethodRows(p), MethodRow(e), MethodsRead(st, p), MethodsRead(st, ms));
    } else if st.last.Current? {
      var k := st.last.name;
      assert st.m[k].(methods := st.m[k].methods) == st.m[k];
      assert st.m[k := st.m[k]] == st.m;
    }
  }

  // ---- one class block -----------------------------------------------------------

  lemma BlockMembersPrintable(b: Block)
    requires ClassPrintable(b.cls) && BlockLists(b)
    ensures forall j :: 0 <= j < |b.fields| ==> FieldPrintable(b.fields[j])
    ensures forall j :: 0 <= j < |b.methods| ==> MethodPrintable(b.methods[j])
  {
    forall j | 0 <= j < |b.fields| ensures FieldPrintable(b.fields[j]) {
      assert b.fields[j] == b.cls.fields[b.fieldKeys[j]];
    }
    forall j | 0 <= j < |b.methods| ensures MethodPrintable(b.methods[j]) {
      assert b.methods[j] == b.cls.methods[b.methodKeys[j]];
    }
  }

  lemma ReadOne(st: ReadState, row: string)
    requires Tracked(st)
    ensures ReadAll(st, [row]) == Step(st, row)
  {
    assert [row][..0] == [];
  }

  lemma ReadMemberRows(st: ReadState, fs: seq<Field>, ms: seq<Method>)
    requires Tracked(st) && st.last != NoClass
    requires forall j :: 0 <= j < |fs| ==> FieldPrintable(fs[j])
    requires forall j :: 0 <= j < |ms| ==> MethodPrintable(ms[j])
    ensures ReadAll(st, FieldRows(fs) + MethodRows(ms)) == Ok(MethodsRead(FieldsRead(st, fs), ms))
  {
    ReadFieldRows(st, fs);
    ReadMethodRows(FieldsRead(st, fs), ms);
    ReadConcat(st, FieldRows(fs), MethodRows(ms));
  }

  lemma RefillClass(m: ClassMapping, b: Block)
    requires BlockLists(b) && ClassKeyed(b.cls)
    ensures
      var c := b.cls;
      var st := ReadState(m[c.nameFrom := c.(fields := map[], methods := map[])], Current(c.nameFrom));
      MethodsRead(FieldsRead(st, b.fields), b.methods) == ReadState(m[c.nameFrom := c], Current(c.nameFrom))
  {
    var c := b.cls;
    var c0 := c.(fields := map[], methods := map[]);
    RefillFields(m, c0, c.fields, b.fields, b.fieldKeys);
    var c1 := c0.(fields := c.fields);
    RefillMethods(m, c1, c.methods, b.methods, b.methodKeys);
    assert c1.(methods := c.methods) == c;
  }

  lemma RefillFields(m: ClassMapping, c0: Class, t: map<string, Field>, fs: seq<Field>, ks: seq<string>)
    requires c0.fields == map[] && ListsAt(t, fs, ks) && FieldsKeyed(t)
    ensures FieldsRead(ReadState(m[c0.nameFrom := c0], Current(c0.nameFrom)), fs)
      == ReadState(m[c0.nameFrom := c0.(fields := t)], Current(c0.nameFrom))
  {
    PutAllRebuilds(t, fs, ks, FieldKey);
    assert m[c0.nameFrom := c0][c0.nameFrom := c0.(fields := t)] == m[c0.nameFrom := c0.(fields := t)];
  }

  lemma RefillMethods(m: ClassMapping, c0: Class, t: map<MethodKey, Method>, ms: seq<Method>, ks: seq<MethodKey>)
    requires c0.methods == map[] && ListsAt(t, ms, ks) && MethodsKeyed(t)
    ensures MethodsRead(ReadState(m[c0.nameFrom := c0], Current(c0.nameFrom)), ms)
      == ReadState(m[c0.nameFrom := c0.(methods := t)], Current(c0.nameFrom))
  {
    PutAllRebuilds(t, ms, ks, KeyOfMethod);
    assert m[c0.nameFrom := c0][c0.nameFrom := c0.(methods := t)] == m[c0.nameFrom := c0.(methods := t)];
  }

  lemma BlockRowsSplit(b: Block)
    ensures BlockRows(b) == [ClassRow(b.cls)] + (FieldRows(b.fields) + MethodRows(b.methods))
  {
  }

  /** A class block adds its class to what was read before, unless a class of that name was read. */
  lemma ReadBlock(st: ReadState, b: Block)
    requires Tracked(st) && ClassPrintable(b.cls) && BlockLists(b) && ClassKeyed(b.cls)
    ensures ReadAll(st, BlockRows(b)).Ok?
    ensures ReadAll(st, BlockRows(b)).value.m ==
      if b.cls.nameFrom in st.m then st.m else st.m[b.cls.nameFrom := b.cls]
  {
    var c := b.cls;
    var row := ClassRow(c);
    ReadClassRow(st, c);
    ReadOne(st, row);
    var s1 := Step(st, row).value;
    BlockMembersPrintable(b);
    ReadMemberRows(s1, b.fields, b.methods);
    BlockRowsSplit(b);
    ReadConcat(st, [row], FieldRows(b.fields) + MethodRows(b.methods));
    if c.nameFrom !in st.m {
      RefillClass(st.m, b);
    }
  }

  // ---- the whole printout -------------------------------------------------------------

  ghost predicate Readable(b: Block) {
    ClassPrintable(b.cls) && BlockLists(b) && ClassKeyed(b.cls)
  }

  lemma {:induction false} ReadBlocks(bs: seq<Block>)
    requires forall i :: 0 <= i < |bs| ==> Readable(bs[i])
    ensures ReadAll(Start, AllRows(bs)).Ok?
    ensures ReadAll(Start, AllRows(bs)).value.m == KeepAll(map[], ClassesOf(bs), ClassKey)
    decreases |bs|
  {
    if |bs| > 0 {
      var p := bs[..|bs| - 1];
      var b := bs[|bs| - 1];
      assert forall i :: 0 <= i < |p| ==> Readable(p[i]) by {
        forall i | 0 <= i < |p| ensures Readable(p[i]) {
          assert p[i] == bs[i];
        }
      }
      ReadBlocks(p);
      var s := ReadAll(Start, AllRows(p)).value;
      ReadBlock(s, b);
      assert AllRows(bs) == AllRows(p) + BlockRows(b);
      ReadConcat(Start, AllRows(p), BlockRows(b));
      ClassesOfSnoc(bs);
    }
  }

  lemma ClassesOfSnoc(bs: seq<Block>)
    requires |bs| > 0
    ensures ClassesOf(bs)[..|bs| - 1] == ClassesOf(bs[..|bs| - 1])
    ensures ClassesOf(bs)[|bs| - 1] == bs[|bs| - 1].cls
  {
    var cs := ClassesOf(bs);
    var p := bs[..|bs| - 1];
    assert forall i :: 0 <= i < |p| ==> cs[..|bs| - 1][i] == ClassesOf(p)[i];
  }

  /** Reading the rows of a printout of a keyed, printable mapping gives the mapping back. */
  lemma ReadRowsBack(m: ClassMapping, bs: seq<Block>, ks: seq<string>)
    requires Keyed(m) && Printable(m) && Written(m, bs, ks)
    ensures ReadLines(AllRows(bs)) == Ok(m)
  {
    var cs := ClassesOf(bs);
    forall i | 0 <= i < |bs| ensures Readable(bs[i]) {
      assert bs[i].cls == m[ks[i]];
    }
    ReadBlocks(bs);
    KeepAllRebuilds(m, cs, ks, ClassKey);
  }

  // ---- lines ---------------------------------------------------------------------

  lemma {:induction false} FieldRowsOneLine(fs: seq<Field>)
    requires forall j :: 0 <= j < |fs| ==> FieldPrintable(fs[j])
    ensures R.OneLineEach(FieldRows(fs))
    decreases |fs|
  {
    if |fs| > 0 {
      var f := fs[|fs| - 1];
      FieldRowsOneLine(fs[..|fs| - 1]);
      R.HexDigitsBare(f.hash, 8);
      assert '\n' !in FieldRow(f) && '\r' !in FieldRow(f);
    }
  }

  lemma {:induction false} MethodRowsOneLine(ms: seq<Method>)
    requires forall j :: 0 <= j < |ms| ==> MethodPrintable(ms[j])
    ensures R.OneLineEach(MethodRows(ms))
    decreases |ms|
  {
    if |ms| > 0 {
      var e := ms[|ms| - 1];
      MethodRowsOneLine(ms[..|ms| - 1]);
      R.HexDigitsBare(e.hash, 8);
      assert '\n' !in MethodRow(e) && '\r' !in MethodRow(e);
    }
  }

  lemma {:induction false} AllRowsOneLine(bs: seq<Block>)
    requires forall i :: 0 <= i < |bs| ==> Readable(bs[i])
    ensures R.OneLineEach(AllRows(bs))
    decreases |bs|
  {
    if |bs| > 0 {
      var p := bs[..|bs| - 1];
      var b := bs[|bs| - 1];
      forall i | 0 <= i < |p| ensures Readable(p[i]) {
        assert p[i] == bs[i];
      }
      AllRowsOneLine(p);
      BlockMembersPrintable(b);
      FieldRowsOneLine(b.fields);
      MethodRowsOneLine(b.methods);
      R.HexDigitsBare(b.cls.hash, 8);
      assert '\n' !in ClassRow(b.cls) && '\r' !in ClassRow(b.cls);
    }
  }

  /** `read` skips an empty line wherever it stands. */
  lemma SkipsEmptyLine(st: ReadState, a: seq<string>, b: seq<string>)
    requires Tracked(st)
    ensures ReadAll(st, a + [""] + b) == ReadAll(st, a + b)
  {
    ReadConcat(st, a + [""], b);
    ReadConcat(st, a, [""]);
    ReadOne(st, "");
    ReadConcat(st, a, b);
    match ReadAll(st, a)
    case Err(_) =>
    case Ok(s) => ReadOne(s, "");
  }

  /** A member row before any class row throws on the null `lastClassEntry`. */
  lemma MemberRowFirstFails(line: string, rest: seq<string>)
    requires |line| > 0 && line[0] == '\t'
    ensures ReadLines([line] + rest) == Err("NullPointerException")
  {
    var lines := [line] + rest;
    assert lines[..0] == [];
    ReadFailsAt(lines, 0, Start, "NullPointerException");
  }

  /** A class row with fewer than eight hash digits throws. */
  lemma ShortHashFails(name: string, nameTo: string, digits: string)
    requires |name| > 0 && R.Bare(name) && R.Bare(nameTo) && R.Bare(digits) && |digits| < 8
    ensures ReadLines([name + "\t" + nameTo + "\t" + digits]) == Err("StringIndexOutOfBoundsException")
  {
    var line := name + "\t" + nameTo + "\t" + digits;
    JoinThree(name, nameTo, digits, '\t');
    SplitJoin([name, nameTo, digits], '\t');
    assert line[0] == name[0];
    ReadFailsAt([line], 0, Start, "StringIndexOutOfBoundsException");
  }

  /** `read(write(m))`: the text the writer prints, read line by line as `useLines` does, is `m` again. */
  lemma RoundTrip(m: ClassMapping, bs: seq<Block>, ks: seq<string>)
    requires Keyed(m) && Printable(m) && Written(m, bs, ks)
    ensures ReadLines(Lines(C.Printed(AllRows(bs)))) == Ok(m)
  {
    var rows := AllRows(bs);
    forall i | 0 <= i < |bs| ensures Readable(bs[i]) {
      assert bs[i].cls == m[ks[i]];
    }
    AllRowsOneLine(bs);
    R.LinesOfPrinted(rows);
    ReadRowsBack(m, bs, ks);
  }

  /** Writing a mapping to a fresh buffer and reading the buffer's lines back gives the mapping. */
  method WriteThenRead(m: ClassMapping) returns (r: Result<ClassMapping>)
    requires Keyed(m) && Printable(m)
    ensures r == Ok(m)
  {
    var sb := new StringBuilder();
    var bs, ks := Write(sb, m);
    assert sb.text == C.Printed(AllRows(bs));
    RoundTrip(m, bs, ks);
    r := Read(Lines(sb.text));
  }
}
