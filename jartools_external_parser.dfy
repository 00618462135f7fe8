/**
 * The earlier `ExternalMappingParser` of `dev.fastmc.jartools.mapping`: the
 * same line walk as the current parsers, without the empty-name fallbacks,
 * with the Tiny v2 method columns in their format order, and with a TSRG2
 * method recognised by exactly three columns. The entry tables of that
 * package are not part of this model; the current tables stand in for them.
 */
module JartoolsParsers {
  import opened Wrappers
  import opened Jvm
  import opened Text
  import opened Mappings
  import opened Folds
  import opened ExternalParsers

  /** One line of the older `TINY.parse`: `getOrCreate(split[0], split[1])`, `Field(split[1], split[2])`, `Method(split[1], split[0], split[2])`. */
  function TinyStep(st: Parsing, line: string): (r: Result<Parsing>)
    ensures r.Ok? ==> r.value.skipped
  {
    if !st.skipped then Ok(st.(skipped := true))
    else if |line| == 0 then Ok(st)
    else if line[0] == 'c' then
      if |line| < 2 then Err("StringIndexOutOfBoundsException")
      else
        var split := Split(line[2..], '\t');
        if |split| < 2 then Err("IndexOutOfBoundsException")
        else Ok(OpenClass(st, split[0], split[1]))
    else if |line| < 2 then Err("StringIndexOutOfBoundsException")
    else if line[1] == 'f' || line[1] == 'm' then
      if |line| < 3 then Err("StringIndexOutOfBoundsException")
      else
        var split := Split(line[3..], '\t');
        if st.last.None? then Err("NullPointerException")
        else if |split| < 3 then Err("IndexOutOfBoundsException")
        else if line[1] == 'f' then Ok(PutField(st, NewField(split[1], split[2])))
        else PutMethod(st, split[1], split[0], split[2])
    else Ok(st)
  }

  function Tiny(lines: seq<string>): Result<ClassMapping> {
    match Fold<Parsing, string>(TinyStep, Start, lines)
    case Err(e) => Err(e)
    case Ok(st) => Ok(st.m)
  }

  method ParseTiny(lines: seq<string>) returns (r: Result<ClassMapping>)
    ensures r == Tiny(lines)
  {
    var st := Walk<Parsing, string>(TinyStep, Start, lines);
    r := if st.Ok? then Ok(st.value.m) else Err(st.msg);
  }

  /** One line of the older `TSRG2.parse`: a member row is a method when it has exactly three columns. */
  function Tsrg2Step(st: Parsing, line: string): (r: Result<Parsing>)
    ensures r.Ok? ==> r.value.skipped
  {
    if !st.skipped then Ok(st.(skipped := true))
    else if |line| == 0 then Ok(st)
    else if line[0] != '\t' then
      var split := Split(line, ' ');
      if |split| < 2 then Err("IndexOutOfBoundsException")
      else Ok(OpenClass(st, split[0], split[1]))
    else if |line| < 2 then Err("StringIndexOutOfBoundsException")
    else if line[1] != '\t' then
      var split := Split(line[1..], ' ');
      if st.last.None? then Err("NullPointerException")
      else if |split| == 3 then PutMethod(st, split[0], split[1], split[2])
      else if |split| < 2 then Err("IndexOutOfBoundsException")
      else Ok(PutField(st, NewField(split[0], split[1])))
    else Ok(st)
  }

  function Tsrg2(lines: seq<string>): Result<ClassMapping> {
    if |lines| == 0 then Err("IndexOutOfBoundsException")
    else
      match Fold<Parsing, string>(Tsrg2Step, TsrgStart(lines[0]), lines)
      case Err(e) => Err(e)
      case Ok(st) => Ok(st.m)
  }

  method ParseTsrg2(lines: seq<string>) returns (r: Result<ClassMapping>)
    ensures r == Tsrg2(lines)
  {
    if |lines| == 0 {
      return Err("IndexOutOfBoundsException");
    }
    var skippedHeader := !StartsWith(lines[0], "tsrg2");
    var st := Walk<Parsing, string>(Tsrg2Step, ParseState(map[], None, skippedHeader), lines);
    r := if st.Ok? then Ok(st.value.m) else Err(st.msg);
  }

  // ---- the provider ------------------------------------------------------------

  /**
   * `Tsrg2MappingProvider`: the file must have the extension `tsrg`; its
   * parse is computed on the first `get` and kept once it succeeds, and every
   * `get` returns it whatever previous mapping it is handed.
   */
  class Tsrg2MappingProvider {
    const path: string
    const lines: seq<string>
    var cached: Option<ClassMapping>

    /** A kept parse is the parse of the file. */
    ghost predicate Valid()
      reads this
    {
      cached.Some? ==> Tsrg2(lines) == Ok(cached.value)
    }

    constructor(path: string, lines: seq<string>)
      requires Extension(path) == "tsrg"
      ensures Valid() && this.path == path && this.lines == lines && cached.None?
    {
      this.path := path;
      this.lines := lines;
      cached := None;
    }

    method Get(prev: Option<ClassMapping>) returns (r: Result<ClassMapping>)
      requires Valid()
      modifies this
      ensures Valid() && r == Tsrg2(lines)
      ensures r.Ok? ==> cached == Some(r.value)
      ensures r.Err? ==> cached == old(cached)
    {
      if cached.Some? {
        return Ok(cached.value);
      }
      r := ParseTsrg2(lines);
      if r.Ok? {
        cached := Some(r.value);
      }
    }
  }

  /** The provider's constructor: a file whose extension is not `tsrg` is refused. */
  method NewTsrg2MappingProvider(path: string, lines: seq<string>) returns (r: Result<Tsrg2MappingProvider>)
    ensures r.Err? <==> Extension(path) != "tsrg"
    ensures r.Err? ==> r.msg == "Invalid file " + path
    ensures r.Ok? ==> fresh(r.value) && r.value.Valid() && r.value.path == path && r.value.lines == lines
  {
    if Extension(path) != "tsrg" {
      return Err("Invalid file " + path);
    }
    var p := new Tsrg2MappingProvider(path, lines);
    r := Ok(p);
  }

  // ---- how the two generations differ -------------------------------------------

  /** A Tiny v2 method row: the older parser takes the name from the second column, the current one from the first. */
  lemma TinyMethodColumns(st: Parsing, desc: string, nameFrom: string, nameTo: string)
    requires st.skipped && st.last.Some? && |nameTo| > 0
    requires '\t' !in desc && '\t' !in nameFrom && '\t' !in nameTo
    ensures
      var line := "\t" + ['m'] + "\t" + desc + "\t" + nameFrom + "\t" + nameTo;
      && TinyStep(st, line) == PutMethod(st, nameFrom, desc, nameTo)
      && ExternalParsers.TinyStep(st, line) == PutMethod(st, desc, nameFrom, nameTo)
  {
    var line := "\t" + ['m'] + "\t" + desc + "\t" + nameFrom + "\t" + nameTo;
    MemberColumns('m', desc, nameFrom, nameTo);
    assert line[0] == '\t' && line[1] == 'm';
    OldTinyMethodStep(st, line, [desc, nameFrom, nameTo]);
    TinyMethodStep(st, line, [desc, nameFrom, nameTo]);
  }

  lemma OldTinyMethodStep(st: Parsing, line: string, split: seq<string>)
    requires st.skipped && st.last.Some? && |line| >= 3 && line[0] != 'c' && line[1] == 'm'
    requires Split(line[3..], '\t') == split && |split| == 3
    ensures TinyStep(st, line) == PutMethod(st, split[1], split[0], split[2])
  {
  }

  /** A class row with an empty target name: the older parser keeps it empty, the current one falls back to nameFrom. */
  lemma TinyEmptyClassTarget(st: Parsing, nameFrom: string)
    requires st.skipped && '\t' !in nameFrom
    ensures TinyStep(st, "c\t" + nameFrom + "\t") == Ok(OpenClass(st, nameFrom, ""))
    ensures ExternalParsers.TinyStep(st, "c\t" + nameFrom + "\t") == Ok(OpenClass(st, nameFrom, nameFrom))
  {
    var line := "c\t" + nameFrom + "\t";
    assert line[2..] == nameFrom + "\t" + "";
    JoinTwo(nameFrom, "", '\t');
    SplitJoin([nameFrom, ""], '\t');
    ClassSteps(st, line, [nameFrom, ""]);
  }

  lemma ClassSteps(st: Parsing, line: string, split: seq<string>)
    requires st.skipped && |line| >= 2 && line[0] == 'c'
    requires Split(line[2..], '\t') == split && |split| == 2
    ensures TinyStep(st, line) == Ok(OpenClass(st, split[0], split[1]))
    ensures ExternalParsers.TinyStep(st, line) == Ok(OpenClass(st, split[0], IfEmpty(split[1], split[0])))
  {
  }

  /**
   * A member row of four columns, as a TSRG2 file with three namespaces writes
   * its methods: the older parser reads it as a field, the current one (with
   * a four-column header) as a method.
   */
  lemma Tsrg2FourColumns(st: Parsing, line: string)
    requires st.skipped && st.last.Some? && |line| >= 2 && line[0] == '\t' && line[1] != '\t'
    requires |Split(line[1..], ' ')| == 4
    ensures
      var split := Split(line[1..], ' ');
      && Tsrg2Step(st, line) == Ok(PutField(st, NewField(split[0], split[1])))
      && TsrgStep(4, st, line) == PutMethod(st, split[0], split[1], IfEmpty(split[2], split[0]))
  {
  }
}
