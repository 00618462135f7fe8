/**
 * `ExternalMappingParser` of the current generation: the Tiny v2 and the
 * TSRG/TSRG2 line formats read into a class mapping. Both keep the class of
 * the latest class row in `lastClassEntry` and add member rows to it; a
 * repeated class goes through `getOrCreate` and so reuses its first entry,
 * and a repeated member keeps the first entry, as the tables do.
 */
module ExternalParsers {
  import opened Wrappers
  import opened Jvm
  import opened Text
  import opened Mappings
  import opened Folds

  /** The parse so far: the mapping, the key of `lastClassEntry`, and `skippedHeader`. */
  datatype ParseState = ParseState(m: ClassMapping, last: Option<U64>, skipped: bool)

  /** `lastClassEntry` is a class of the mapping. */
  type Parsing = st: ParseState | st.last.Some? ==> st.last.value in st.m
    witness ParseState(map[], None, false)

  /** `lastClassEntry = result.getOrCreate(nameFrom, nameTo)`. */
  function OpenClass(st: Parsing, nameFrom: string, nameTo: string): (r: Parsing)
    ensures r.last == Some(ClassHash(nameFrom)) && r.skipped == st.skipped
    ensures ClassHash(nameFrom) in st.m ==> r.m == st.m
    ensures ClassHash(nameFrom) !in st.m ==> r.m == st.m[ClassHash(nameFrom) := NewClass(nameFrom, nameTo)]
  {
    var (m, k) := GetOrCreate(st.m, nameFrom, nameTo);
    ParseState(m, Some(k), st.skipped)
  }

  /** `lastClassEntry!!.fieldMapping.add(f)`, once `lastClassEntry!!` has been checked. */
  function PutField(st: Parsing, f: Field): (r: Parsing)
    requires st.last.Some?
    ensures r.last == st.last && r.skipped == st.skipped
    ensures r.m == AddField(st.m, st.last.value, f)
  {
    ParseState(AddField(st.m, st.last.value, f), st.last, st.skipped)
  }

  /** `lastClassEntry!!.methodMapping.add(Method(nameFrom, desc, nameTo))`: the fingerprint needs both strings non-empty. */
  function PutMethod(st: Parsing, nameFrom: string, desc: string, nameTo: string): (r: Result<Parsing>)
    requires st.last.Some?
    ensures r.Ok? <==> |nameFrom| > 0 && |desc| > 0
    ensures r.Ok? ==> r.value.last == st.last && r.value.skipped == st.skipped
    ensures r.Ok? ==> r.value.m == AddMethod(st.m, st.last.value, NewMethod(nameFrom, desc, nameTo).value)
  {
    match NewMethod(nameFrom, desc, nameTo)
    case None => Err("StringIndexOutOfBoundsException")
    case Some(e) => Ok(ParseState(AddMethod(st.m, st.last.value, e), st.last, st.skipped))
  }

  // ---- TINY ------------------------------------------------------------------

  /**
   * One line of `TINY.parse`. The first line is the header and is skipped,
   * as are empty lines. A line led by `c` is a class, its columns after the
   * second character split at tabs. Otherwise the second character decides:
   * `f` a field, `m` a method, both split after the third character, and
   * any other line is ignored. `lastClassEntry!!` is checked before the
   * columns are read.
   */
  function TinyStep(st: Parsing, line: string): (r: Result<Parsing>)
    ensures r.Ok? ==> r.value.skipped
  {
    if !st.skipped then Ok(st.(skipped := true))
    else if |line| == 0 then Ok(st)
    else if line[0] == 'c' then
      if |line| < 2 then Err("StringIndexOutOfBoundsException")
      else
        var split := Split(line[2..], '\t');
        if |split| < 2 then Err("IndexOutOfBoundsException")
        else Ok(OpenClass(st, split[0], IfEmpty(split[1], split[0])))
    else if |line| < 2 then Err("StringIndexOutOfBoundsException")
    else if line[1] == 'f' || line[1] == 'm' then
      if |line| < 3 then Err("StringIndexOutOfBoundsException")
      else
        var split := Split(line[3..], '\t');
        if st.last.None? then Err("NullPointerException")
        else if |split| < 3 then Err("IndexOutOfBoundsException")
        else if line[1] == 'f' then Ok(PutField(st, NewField(split[1], IfEmpty(split[2], split[1]))))
        else PutMethod(st, split[0], split[1], IfEmpty(split[2], split[0]))
    else Ok(st)
  }

  const Start: Parsing := ParseState(map[], None, false)

  /** `TINY.parse(lines)`. */
  function Tiny(lines: seq<string>): Result<ClassMapping> {
    match Fold<Parsing, string>(TinyStep, Start, lines)
    case Err(e) => Err(e)
    case Ok(st) => Ok(st.m)
  }

  /** `TINY.parse(lines)` as the loop over the lines. */
  method ParseTiny(lines: seq<string>) returns (r: Result<ClassMapping>)
    ensures r == Tiny(lines)
  {
    var st := Walk<Parsing, string>(TinyStep, Start, lines);
    r := if st.Ok? then Ok(st.value.m) else Err(st.msg);
  }

  /** Whatever the first line holds, it is skipped. */
  lemma TinySkipsHeader(header: string, rest: seq<string>)
    ensures Fold<Parsing, string>(TinyStep, Start, [header] + rest) == Fold<Parsing, string>(TinyStep, Start.(skipped := true), rest)
  {
    FoldConcat<Parsing, string>(TinyStep, Start, [header], rest);
    assert [header][..0] == [];
  }

  /** After the header, an empty line changes nothing wherever it stands. */
  lemma TinySkipsEmpty(header: string, a: seq<string>, b: seq<string>)
    ensures Tiny([header] + a + [""] + b) == Tiny([header] + a + b)
  {
    forall s | Fold<Parsing, string>(TinyStep, Start, [header] + a) == Ok(s) ensures TinyStep(s, "") == Ok(s) {
      FoldConcat<Parsing, string>(TinyStep, Start, [header], a);
      assert [header][..0] == [];
    }
    FoldSkip<Parsing, string>(TinyStep, Start, [header] + a, "", b);
  }

  /** A class row opens the class named in its second column, or reuses the entry already there. */
  lemma TinyClassRow(st: Parsing, nameFrom: string, nameTo: string)
    requires st.skipped && '\t' !in nameFrom && '\t' !in nameTo
    ensures TinyStep(st, "c\t" + nameFrom + "\t" + nameTo) == Ok(OpenClass(st, nameFrom, IfEmpty(nameTo, nameFrom)))
    ensures ClassHash(nameFrom) in st.m ==> TinyStep(st, "c\t" + nameFrom + "\t" + nameTo).value.m == st.m
  {
    var line := "c\t" + nameFrom + "\t" + nameTo;
    assert line[2..] == nameFrom + "\t" + nameTo;
    JoinTwo(nameFrom, nameTo, '\t');
    SplitJoin([nameFrom, nameTo], '\t');
  }

  /** The columns of a member row `\t<kind>\t<a>\t<b>\t<c>` after its third character. */
  lemma MemberColumns(kind: char, a: string, b: string, c: string)
    requires '\t' !in a && '\t' !in b && '\t' !in c
    ensures Split(("\t" + [kind] + "\t" + a + "\t" + b + "\t" + c)[3..], '\t') == [a, b, c]
  {
    assert ("\t" + [kind] + "\t" + a + "\t" + b + "\t" + c)[3..] == a + "\t" + b + "\t" + c;
    JoinThree(a, b, c, '\t');
    SplitJoin([a, b, c], '\t');
  }

  /** A field row `\tf\t<desc>\t<from>\t<to>` adds Field(from, to or from) to the latest class. */
  lemma TinyFieldRow(st: Parsing, desc: string, nameFrom: string, nameTo: string)
    requires st.skipped && st.last.Some?
    requires '\t' !in desc && '\t' !in nameFrom && '\t' !in nameTo
    ensures TinyStep(st, "\t" + ['f'] + "\t" + desc + "\t" + nameFrom + "\t" + nameTo)
      == Ok(PutField(st, NewField(nameFrom, IfEmpty(nameTo, nameFrom))))
  {
    MemberColumns('f', desc, nameFrom, nameTo);
  }

  /**
   * A method row `\tm\t<desc>\t<from>\t<to>` is read positionally: its first
   * column, the descriptor, becomes the method's nameFrom and its second the desc.
   */
  lemma TinyMethodRow(st: Parsing, desc: string, nameFrom: string, nameTo: string)
    requires st.skipped && st.last.Some?
    requires '\t' !in desc && '\t' !in nameFrom && '\t' !in nameTo
    ensures TinyStep(st, "\t" + ['m'] + "\t" + desc + "\t" + nameFrom + "\t" + nameTo)
      == PutMethod(st, desc, nameFrom, IfEmpty(nameTo, desc))
  {
    var line := "\t" + ['m'] + "\t" + desc + "\t" + nameFrom + "\t" + nameTo;
    MemberColumns('m', desc, nameFrom, nameTo);
    assert line[0] == '\t' && line[1] == 'm';
    TinyMethodStep(st, line, [desc, nameFrom, nameTo]);
  }

  lemma TinyMethodStep(st: Parsing, line: string, split: seq<string>)
    requires st.skipped && st.last.Some? && |line| >= 3 && line[0] != 'c' && line[1] == 'm'
    requires Split(line[3..], '\t') == split && |split| == 3
    ensures TinyStep(st, line) == PutMethod(st, split[0], split[1], IfEmpty(split[2], split[0]))
  {
  }

  /** A line whose second character is neither `f` nor `m`, and which is not a class row, is ignored. */
  lemma TinyIgnoresOther(st: Parsing, line: string)
    requires st.skipped && |line| >= 2 && line[0] != 'c' && line[1] != 'f' && line[1] != 'm'
    ensures TinyStep(st, line) == Ok(st)
  {
  }

  /** A member row right after the header, before any class row, throws on `lastClassEntry!!`. */
  lemma TinyMemberFirstFails(header: string, line: string, rest: seq<string>)
    requires |line| >= 3 && line[0] != 'c' && (line[1] == 'f' || line[1] == 'm')
    ensures Tiny([header, line] + rest) == Err("NullPointerException")
  {
    var lines := [header, line] + rest;
    var st := Start.(skipped := true);
    assert lines[..1] == [header];
    TinySkipsHeader(header, []);
    assert [header] + [] == [header];
    FoldStops<Parsing, string>(TinyStep, Start, lines, 1, st);
  }

  // ---- TSRG ------------------------------------------------------------------

  /** `methodFieldCount`: a first line of four or more space-separated columns means a method row has four. */
  function Threshold(first: string): (r: nat)
    ensures r == 3 || r == 4
  {
    if |Split(first, ' ')| >= 4 then 4 else 3
  }

  /**
   * One line of `TSRG.parse`. A line not led by a tab is a class, split at
   * spaces; a line led by one tab is a member, split at spaces after the tab,
   * a method when it has at least `count` columns and a field otherwise; a
   * line led by two tabs (a parameter or a `static` marker) is ignored.
   */
  function TsrgStep(count: nat, st: Parsing, line: string): (r: Result<Parsing>)
    requires count >= 3
    ensures r.Ok? ==> r.value.skipped
  {
    if !st.skipped then Ok(st.(skipped := true))
    else if |line| == 0 then Ok(st)
    else if line[0] != '\t' then
      var split := Split(line, ' ');
      if |split| < 2 then Err("IndexOutOfBoundsException")
      else Ok(OpenClass(st, split[0], IfEmpty(split[1], split[0])))
    else if |line| < 2 then Err("StringIndexOutOfBoundsException")
    else if line[1] != '\t' then
      var split := Split(line[1..], ' ');
      if st.last.None? then Err("NullPointerException")
      else if |split| >= count then PutMethod(st, split[0], split[1], IfEmpty(split[2], split[0]))
      else if |split| < 2 then Err("IndexOutOfBoundsException")
      else Ok(PutField(st, NewField(split[0], IfEmpty(split[1], split[0]))))
    else Ok(st)
  }

  /** The step with its column count fixed. */
  function TsrgSteps(count: nat): (Parsing, string) -> Result<Parsing>
    requires count >= 3
  {
    (st: Parsing, line: string) => TsrgStep(count, st, line)
  }

  /** The state before the first line: the header is to be skipped only when it starts with `tsrg2`. */
  function TsrgStart(first: string): (r: Parsing)
    ensures r.m == map[] && r.last == None
    ensures r.skipped <==> !StartsWith(first, "tsrg2")
  {
    ParseState(map[], None, !StartsWith(first, "tsrg2"))
  }

  /** `TSRG.parse(lines)`: `lines[0]` is read first, so no lines at all throws. */
  function Tsrg(lines: seq<string>): Result<ClassMapping> {
    if |lines| == 0 then Err("IndexOutOfBoundsException")
    else
      match Fold<Parsing, string>(TsrgSteps(Threshold(lines[0])), TsrgStart(lines[0]), lines)
      case Err(e) => Err(e)
      case Ok(st) => Ok(st.m)
  }

  method ParseTsrg(lines: seq<string>) returns (r: Result<ClassMapping>)
    ensures r == Tsrg(lines)
  {
    if |lines| == 0 {
      return Err("IndexOutOfBoundsException");
    }
    var skippedHeader := !StartsWith(lines[0], "tsrg2");
    var methodFieldCount := if |Split(lines[0], ' ')| >= 4 then 4 else 3;
    var st := Walk<Parsing, string>(TsrgSteps(methodFieldCount), ParseState(map[], None, skippedHeader), lines);
    r := if st.Ok? then Ok(st.value.m) else Err(st.msg);
  }

  /** A `tsrg2` header is skipped; any other first line is read as a row. */
  lemma TsrgHeader(first: string, rest: seq<string>)
    ensures StartsWith(first, "tsrg2") ==>
      Tsrg([first] + rest) == match Fold<Parsing, string>(TsrgSteps(Threshold(first)), Start.(skipped := true), rest)
        case Err(e) => Err(e)
        case Ok(st) => Ok(st.m)
    ensures !StartsWith(first, "tsrg2") ==> TsrgStart(first) == Start.(skipped := true)
  {
    var step := TsrgSteps(Threshold(first));
    FoldConcat<Parsing, string>(step, TsrgStart(first), [first], rest);
    assert [first][..0] == [];
  }

  /** A `tsrg2` header naming three namespaces makes method rows four columns long; one naming two, three. */
  lemma TsrgNamespaces(a: string, b: string, c: string)
    requires ' ' !in a && ' ' !in b && ' ' !in c
    ensures Threshold("tsrg2" + " " + a + " " + b + " " + c) == 4
    ensures Threshold("tsrg2" + " " + a + " " + b) == 3
  {
    JoinFour("tsrg2", a, b, c, ' ');
    SplitJoin(["tsrg2", a, b, c], ' ');
    JoinThree("tsrg2", a, b, ' ');
    SplitJoin(["tsrg2", a, b], ' ');
  }

  /** A member row: a method exactly when it has at least `count` columns, a field otherwise. */
  lemma TsrgMemberRow(count: nat, st: Parsing, line: string)
    requires count >= 3 && st.skipped && st.last.Some? && |line| >= 2 && line[0] == '\t' && line[1] != '\t'
    ensures
      var split := Split(line[1..], ' ');
      && (|split| >= count ==> TsrgStep(count, st, line) == PutMethod(st, split[0], split[1], IfEmpty(split[2], split[0])))
      && (2 <= |split| < count ==> TsrgStep(count, st, line) == Ok(PutField(st, NewField(split[0], IfEmpty(split[1], split[0])))))
  {
  }

  /** A row led by two tabs changes nothing. */
  lemma TsrgIgnoresNested(count: nat, st: Parsing, line: string)
    requires count >= 3 && st.skipped && |line| >= 2 && line[0] == '\t' && line[1] == '\t'
    ensures TsrgStep(count, st, line) == Ok(st)
  {
  }

  /** A member row before any class row throws on `lastClassEntry!!`. */
  lemma TsrgMemberFirstFails(count: nat, st: Parsing, line: string)
    requires count >= 3 && st.skipped && st.last.None? && |line| >= 2 && line[0] == '\t' && line[1] != '\t'
    ensures TsrgStep(count, st, line) == Err("NullPointerException")
  {
  }

  // ---- the asserted sizes ----------------------------------------------------------

  /** `assert(result.size == prevSize + 1)` after a class row holds exactly when the class is new. */
  lemma ClassRowGrows(st: Parsing, nameFrom: string, nameTo: string)
    ensures |OpenClass(st, nameFrom, nameTo).m| == |st.m| + 1 <==> ClassHash(nameFrom) !in st.m
  {
  }

  /** The member asserts hold exactly when the member's fingerprint is new to its class. */
  lemma MemberRowGrows(st: Parsing, f: Field, e: Method)
    requires st.last.Some?
    ensures
      var k := st.last.value;
      |PutField(st, f).m[k].fields| == |st.m[k].fields| + 1 <==> f.hash !in st.m[k].fields
    ensures
      var k := st.last.value;
      |AddMethod(st.m, k, e)[k].methods| == |st.m[k].methods| + 1 <==> e.hash !in st.m[k].methods
  {
  }
}
