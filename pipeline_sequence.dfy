/**
 * Composing the stages of `dev.fastmc.jartools.mapping`: a sequence of
 * stages, each handed the result of the one before it and merged in order
 * into one mapping that is kept after the first run, and a stage whose result
 * is computed once. `SequenceMappingPipeline` and `SequenceMappingProvider`
 * share one body and are modelled by one class; so are the two generations
 * of subclass and mixin stages, as the variants of `Stage`.
 */
module PipelineSequences {
  import opened Wrappers
  import opened Jvm
  import opened Asm
  import opened Mappings
  import opened Derivations
  import opened ClassHeaps
  import opened Pipelines

  /** A stage of a sequence. */
  datatype Stage =
    | SubclassPipeline(externals: seq<ClassNode>, order: seq<string>)
    | MixinPipeline
    | SubClassProvider(inputNodes: seq<ClassNode>)
    | MixinProvider(mixins: map<string, ClassNode>, order: seq<string>)
      /** `MappingProviderPipeline`, or any stage whose mapping is given: the previous mapping is ignored. */
    | Given(table: Heap)

  /** What the stage needs of its inputs: an order that lists a hash map's keys, a given table of distinct entries. */
  ghost predicate Ready(s: Stage, entries: seq<ClassNode>) {
    match s
    case SubclassPipeline(externals, order) => Enumerates(order, InputClasses(entries, externals))
    case MixinProvider(mixins, order) => Enumerates(order, mixins)
    case Given(table) => Distinct(table)
    case _ => true
  }

  /** The message of the `require(prev != null)` of a stage that builds on the previous mapping. */
  function Requirement(s: Stage): string
    requires !s.Given?
  {
    match s
    case SubclassPipeline(_, _) => "SubclassMappingPipeline requires a previous mapping"
    case MixinPipeline => "MixinMappingPipeline requires a previous mapping"
    case SubClassProvider(_) => "SubClassMappingProvider requires a previous mapping"
    case MixinProvider(_, _) => "MixinMappingProvider requires a previous mapping"
  }

  /** The previous mappings for which the value of a stage is stated. */
  ghost predicate Applies(s: Stage, pm: ClassMapping) {
    match s
    case SubclassPipeline(_, _) => Fingerprinted(pm)
    case SubClassProvider(_) => Fingerprinted(pm)
    case MixinPipeline => Keyed(pm)
    case MixinProvider(_, _) => Keyed(pm)
    case Given(_) => false
  }

  /** The mapping a stage that builds on `pm` computes. */
  ghost function StageValue(s: Stage, pm: ClassMapping, entries: seq<ClassNode>): ClassMapping
    requires Ready(s, entries) && !s.Given?
  {
    match s
    case SubclassPipeline(externals, order) => Subclassed(pm, ValuesIn(InputClasses(entries, externals), order))
    case SubClassProvider(nodes) => Subclassed(pm, nodes)
    case MixinPipeline => Mixed(pm, entries, PipelineTargets)
    case MixinProvider(mixins, order) => Mixed(pm, ValuesIn(mixins, order), ProviderTargets)
  }

  /**
   * One stage ran from the previous result `p` (showing `pv`) to `h`
   * (showing `mv`): a given table is the result itself; any other stage
   * holds the previous mapping's entries and computes its value.
   */
  ghost predicate StageStep(s: Stage, entries: seq<ClassNode>, p: Option<Heap>, pv: ClassMapping, h: Heap, mv: ClassMapping) {
    && (s.Given? ==> h == s.table)
    && (!s.Given? ==> p.Some? && Shares(p.value, h))
    && (!s.Given? && Ready(s, entries) && Applies(s, pv) ==> mv == StageValue(s, pv, entries))
  }

  /** The mapping the entries of `h` hold now. */
  ghost function View(h: Heap): (m: ClassMapping)
    reads h.Values
    ensures Shows(h, m)
  {
    map k | k in h :: h[k].Value()
  }

  /** `provider.get(prev, classEntries)` for any stage. */
  method RunStage(s: Stage, prev: Option<Heap>, entries: seq<ClassNode>, ghost pm: ClassMapping)
    returns (r: Result<Heap>, ghost m2: ClassMapping)
    requires Ready(s, entries)
    requires prev.Some? ==> Distinct(prev.value) && Shows(prev.value, pm)
    modifies if prev.Some? then prev.value.Values else {}
    ensures r.Ok? ==> Distinct(r.value) && Shows(r.value, m2) && StageStep(s, entries, prev, pm, r.value, m2)
    ensures r.Ok? && !s.Given? ==> forall k :: k in r.value && k !in prev.value ==> fresh(r.value[k])
    ensures s.Given? ==> r == Ok(s.table)
    ensures !s.Given? && prev.None? ==> r == Err(Requirement(s))
    ensures !s.Given? && prev.Some? && Applies(s, pm) ==> r.Ok?
  {
    match s
    case SubclassPipeline(externals, order) =>
      r, m2 := SubclassPipelineGet(prev, entries, externals, order, pm);
    case MixinPipeline =>
      r, m2 := MixinPipelineGet(prev, entries, pm);
    case SubClassProvider(nodes) =>
      r, m2 := SubClassProviderGet(prev, nodes, pm);
    case MixinProvider(mixins, order) =>
      r, m2 := MixinProviderGet(prev, mixins, order, pm);
    case Given(table) =>
      r, m2 := Ok(table), View(table);
  }

  /** `MutableClassMapping()` followed by `addAll` of each table in order: the first table to hold a fingerprint gives its entry. */
  function UnionAll(hs: seq<Heap>): (r: Heap)
    ensures forall k :: k in r <==> exists i :: 0 <= i < |hs| && k in hs[i]
  {
    if |hs| == 0 then map[] else KeepUnion(UnionAll(hs[..|hs| - 1]), hs[|hs| - 1])
  }

  /**
   * When every table holds the entries of the one before it, the merge is
   * the last table: the merged result of a sequence whose later stages all
   * build on the earlier ones is the last stage's own table.
   */
  lemma {:induction false} UnionOfChain(hs: seq<Heap>)
    requires |hs| > 0
    requires forall i :: 0 < i < |hs| ==> Shares(hs[i - 1], hs[i])
    ensures UnionAll(hs) == hs[|hs| - 1]
  {
    if |hs| > 1 {
      var init := hs[..|hs| - 1];
      UnionOfChain(init);
      var last := hs[|hs| - 1];
      assert Shares(init[|init| - 1], last);
      assert KeepUnion(init[|init| - 1], last) == last;
    }
  }

  /** The objects a sequence may update: the previous mapping's entries and those of every given table. */
  function Reachable(prev: Option<Heap>, stages: seq<Stage>): set<Entry> {
    (if prev.Some? then prev.value.Values else {}) +
    set i, e | 0 <= i < |stages| && stages[i].Given? && e in stages[i].table.Values :: e
  }

  /** Stage `i` of a sequence ran from the result before it (or from `prev`) to `hs[i]`. */
  ghost predicate StepAt(stages: seq<Stage>, entries: seq<ClassNode>, prev: Option<Heap>, pm: ClassMapping,
                         hs: seq<Heap>, ms: seq<ClassMapping>, i: int) {
    && 0 <= i < |hs| == |ms| <= |stages|
    && StageStep(stages[i], entries, if i == 0 then prev else Some(hs[i - 1]), if i == 0 then pm else ms[i - 1], hs[i], ms[i])
  }

  /** The first `|hs|` stages ran, each from the result of the one before. */
  ghost predicate Ran(stages: seq<Stage>, entries: seq<ClassNode>, prev: Option<Heap>, pm: ClassMapping,
                      hs: seq<Heap>, ms: seq<ClassMapping>) {
    && |hs| == |ms| <= |stages|
    && forall i :: 0 <= i < |hs| ==> StepAt(stages, entries, prev, pm, hs, ms, i)
  }

  /**
   * `SequenceMappingPipeline` / `SequenceMappingProvider`: the stages, and
   * the merged mapping once it has been computed.
   */
  class Sequence {
    const stages: seq<Stage>
    var cached: Option<Heap>

    /** The body of `init` after `require(providers.isNotEmpty())`. */
    constructor(stages: seq<Stage>)
      requires |stages| > 0
      ensures this.stages == stages && cached.None?
    {
      this.stages := stages;
      cached := None;
    }

    /**
     * `get(prev, classEntries)`: the cached mapping when there is one; else
     * each stage in turn from the previous result, then the merge of all the
     * results in order, which is cached.
     */
    method Get(prev: Option<Heap>, entries: seq<ClassNode>, ghost pm: ClassMapping)
      returns (r: Result<Heap>, ghost hs: seq<Heap>, ghost ms: seq<ClassMapping>)
      requires |stages| > 0 && forall i :: 0 <= i < |stages| ==> Ready(stages[i], entries)
      requires prev.Some? ==> Distinct(prev.value) && Shows(prev.value, pm)
      modifies this, Reachable(prev, stages)
      ensures old(cached).Some? ==> r == Ok(old(cached).value) && cached == old(cached)
      ensures old(cached).None? && r.Ok? ==> |hs| == |stages| && Ran(stages, entries, prev, pm, hs, ms)
      ensures old(cached).None? && r.Ok? ==> r.value == UnionAll(hs) && cached == Some(r.value)
      ensures old(cached).None? && !stages[0].Given? && prev.None? ==> r == Err(Requirement(stages[0]))
      ensures r.Err? ==> cached == old(cached)
    {
      hs, ms := [], [];
      if cached.Some? {
        return Ok(cached.value), hs, ms;
      }
      var results;
      results, ms := RunAll(stages, prev, entries, pm);
      if results.Err? {
        return Err(results.msg), hs, ms;
      }
      hs := results.value;
      var merged := Merge(results.value);
      cached := Some(merged);
      r := Ok(merged);
    }
  }

  /** The stages of a sequence in turn, each from the result of the one before; the first failure ends the run. */
  method RunAll(stages: seq<Stage>, prev: Option<Heap>, entries: seq<ClassNode>, ghost pm: ClassMapping)
    returns (r: Result<seq<Heap>>, ghost ms: seq<ClassMapping>)
    requires |stages| > 0 && forall i :: 0 <= i < |stages| ==> Ready(stages[i], entries)
    requires prev.Some? ==> Distinct(prev.value) && Shows(prev.value, pm)
    modifies Reachable(prev, stages)
    ensures r.Ok? ==> |r.value| == |stages| && Ran(stages, entries, prev, pm, r.value, ms)
    ensures r.Ok? ==> Shows(r.value[|r.value| - 1], ms[|ms| - 1])
    ensures !stages[0].Given? && prev.None? ==> r == Err(Requirement(stages[0]))
  {
    var hs: seq<Heap> := [];
    ms := [];
    ghost var allowed := Reachable(prev, stages);
    for i := 0 to |stages|
      invariant |hs| == i && Ran(stages, entries, prev, pm, hs, ms)
      invariant i > 0 ==> Distinct(hs[i - 1]) && Shows(hs[i - 1], ms[i - 1]) && hs[i - 1].Values <= allowed
      invariant Reachable(prev, stages) <= allowed
      invariant forall o | o in allowed :: o in Reachable(prev, stages) || fresh(o)
      invariant i > 0 && !stages[0].Given? ==> prev.Some?
      invariant i == 0 && prev.Some? ==> Distinct(prev.value) && Shows(prev.value, pm)
    {
      var next;
      next, hs, ms := Advance(stages, prev, entries, pm, hs, ms, allowed);
      if next.Ok? {
        allowed := allowed + next.value.Values;
      }
      if next.Err? {
        return Err(next.msg), ms;
      }
    }
    r := Ok(hs);
  }

  /** The next stage of a sequence, from the last result (or from `prev`). */
  method Advance(stages: seq<Stage>, prev: Option<Heap>, entries: seq<ClassNode>, ghost pm: ClassMapping,
                 hs: seq<Heap>, ghost ms: seq<ClassMapping>, ghost allowed: set<Entry>)
    returns (r: Result<Heap>, hs2: seq<Heap>, ghost ms2: seq<ClassMapping>)
    requires |hs| < |stages| && Ready(stages[|hs|], entries) && Ran(stages, entries, prev, pm, hs, ms)
    requires |hs| == 0 && prev.Some? ==> Distinct(prev.value) && Shows(prev.value, pm)
    requires |hs| > 0 ==> Distinct(hs[|hs| - 1]) && Shows(hs[|hs| - 1], ms[|ms| - 1])
    requires Reachable(prev, stages) <= allowed && (|hs| > 0 ==> hs[|hs| - 1].Values <= allowed)
    modifies allowed
    ensures r.Ok? ==> hs2 == hs + [r.value] && Ran(stages, entries, prev, pm, hs2, ms2)
    ensures r.Ok? ==> Distinct(r.value) && Shows(r.value, ms2[|ms2| - 1])
    ensures r.Ok? ==> forall o | o in r.value.Values :: o in allowed || fresh(o)
    ensures |hs| == 0 && !stages[0].Given? && prev.None? ==> r == Err(Requirement(stages[0]))
    ensures |hs| == 0 && r.Ok? && !stages[0].Given? ==> prev.Some?
  {
    var i := |hs|;
    var p := if i == 0 then prev else Some(hs[i - 1]);
    ghost var pv := if i == 0 then pm else ms[i - 1];
    GivenReachable(prev, stages, i);
    ghost var mv;
    r, mv := RunStage(stages[i], p, entries, pv);
    hs2, ms2 := hs, ms;
    if r.Ok? {
      RanSnoc(stages, entries, prev, pm, hs, ms, r.value, mv);
      hs2, ms2 := hs + [r.value], ms + [mv];
    }
  }

  /** `result.addAll(deferred.await())` for each result in order, into a fresh mapping. */
  method Merge(results: seq<Heap>) returns (merged: Heap)
    ensures merged == UnionAll(results)
  {
    merged := map[];
    for i := 0 to |results|
      invariant merged == UnionAll(results[..i])
    {
      assert results[..i + 1][..i] == results[..i];
      merged := KeepUnion(merged, results[i]);
    }
    assert results[..|results|] == results;
  }

  /** A given table's entries are among the objects a sequence may update. */
  lemma GivenReachable(prev: Option<Heap>, stages: seq<Stage>, i: nat)
    requires i < |stages|
    ensures stages[i].Given? ==> stages[i].table.Values <= Reachable(prev, stages)
  {
  }

  lemma RanSnoc(stages: seq<Stage>, entries: seq<ClassNode>, prev: Option<Heap>, pm: ClassMapping,
                hs: seq<Heap>, ms: seq<ClassMapping>, h: Heap, mv: ClassMapping)
    requires |hs| < |stages| && Ran(stages, entries, prev, pm, hs, ms)
    requires StageStep(stages[|hs|], entries, if |hs| == 0 then prev else Some(hs[|hs| - 1]),
                       if |hs| == 0 then pm else ms[|hs| - 1], h, mv)
    ensures Ran(stages, entries, prev, pm, hs + [h], ms + [mv])
  {
    var hs2, ms2 := hs + [h], ms + [mv];
    forall i | 0 <= i < |hs2| ensures StepAt(stages, entries, prev, pm, hs2, ms2, i) {
      if i < |hs| {
        assert StepAt(stages, entries, prev, pm, hs, ms, i);
        assert hs2[i] == hs[i] && ms2[i] == ms[i];
        assert i > 0 ==> hs2[i - 1] == hs[i - 1] && ms2[i - 1] == ms[i - 1];
      }
    }
  }

  /** The sequence constructor: `require(providers.isNotEmpty())`. */
  method NewSequence(stages: seq<Stage>) returns (r: Result<Sequence>)
    ensures |stages| == 0 <==> r.Err?
    ensures r.Err? ==> r.msg == "No providers provided"
    ensures r.Ok? ==> fresh(r.value) && r.value.stages == stages && r.value.cached.None?
  {
    if |stages| == 0 {
      return Err("No providers provided");
    }
    var q := new Sequence(stages);
    r := Ok(q);
  }

  /** `CachedMappingPipeline`: a stage whose mapping is computed on the first call and returned from then on. */
  class Cached {
    const stage: Stage
    var cache: Option<Heap>

    constructor(stage: Stage)
      ensures this.stage == stage && cache.None?
    {
      this.stage := stage;
      cache := None;
    }

    /** `get(prev, classEntries)`: the cached mapping, else the stage's, which is then cached; a failure caches nothing. */
    method Get(prev: Option<Heap>, entries: seq<ClassNode>, ghost pm: ClassMapping)
      returns (r: Result<Heap>, ghost m2: ClassMapping)
      requires Ready(stage, entries)
      requires prev.Some? ==> Distinct(prev.value) && Shows(prev.value, pm)
      modifies this, if prev.Some? then prev.value.Values else {}
      ensures old(cache).Some? ==> r == Ok(old(cache).value) && cache == old(cache)
      ensures old(cache).None? && r.Ok? ==> cache == Some(r.value) && Shows(r.value, m2)
      ensures old(cache).None? && r.Ok? ==> StageStep(stage, entries, prev, pm, r.value, m2)
      ensures old(cache).None? && !stage.Given? && prev.None? ==> r == Err(Requirement(stage))
      ensures r.Err? ==> cache == old(cache)
    {
      if cache.Some? {
        return Ok(cache.value), pm;
      }
      r, m2 := RunStage(stage, prev, entries, pm);
      if r.Ok? {
        cache := Some(r.value);
      }
    }
  }
}
