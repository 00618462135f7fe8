/**
 * The member walks of the `dev.fastmc.jartools.mapping` stages as folds: the
 * stages visit the methods of a class, then its fields, and for each member
 * look up or create the receiving class and `add` a copy to it. The folds
 * below say what the walks compute step by step; the lemmas show that when
 * the copies reproduce the members under their own keys, a whole walk is
 * `Receive` of the members it visits.
 */
module MemberWalks {
  import opened Wrappers
  import opened Jvm
  import opened Mappings
  import opened Derivations

  /** The copy a stage adds: the member itself, or rebuilt with `MappingEntry.Method(nameFrom, desc, nameTo)`. */
  function CopyMethod(e: Method, recompute: bool): (r: Option<Method>)
    ensures !recompute ==> r == Some(e)
    ensures recompute ==> (r.Some? <==> |e.nameFrom| > 0 && |e.desc| > 0)
  {
    if recompute then NewMethod(e.nameFrom, e.desc, e.nameTo) else Some(e)
  }

  /** The copy of a field: the field itself, or rebuilt with `MappingEntry.Field(nameFrom, nameTo)`. */
  function CopyField(f: Field, recompute: bool): (r: Field)
    ensures r.nameFrom == f.nameFrom && r.nameTo == f.nameTo
    ensures !recompute ==> r == f
    ensures recompute ==> r.hash == FieldHash(f.nameFrom)
  {
    if recompute then NewField(f.nameFrom, f.nameTo) else f
  }

  /** `getOrCreate(name)` followed by one `add` of a method to that class. */
  function AfterMethod(m: ClassMapping, name: string, e: Method): ClassMapping
  {
    var c, k := GetOrCreate(m, name, name).0, ClassHash(name);
    c[k := c[k].(methods := Add(c[k].methods, e.hash, e))]
  }

  /** `getOrCreate(name)` followed by one `add` of a field to that class. */
  function AfterField(m: ClassMapping, name: string, f: Field): ClassMapping
  {
    var c, k := GetOrCreate(m, name, name).0, ClassHash(name);
    c[k := c[k].(fields := Add(c[k].fields, f.hash, f))]
  }

  /** The first `i` steps of the method walk over `pm` in the order `ks`; None once a copy throws. */
  function WalkMethods(m: ClassMapping, name: string, pm: Table<Method>, ks: seq<U64>, i: nat, recompute: bool): Option<ClassMapping>
    requires i <= |ks| && Listed(pm, ks)
  {
    if i == 0 then Some(m)
    else
      match WalkMethods(m, name, pm, ks, i - 1, recompute)
      case None => None
      case Some(c) =>
        match CopyMethod(pm[ks[i - 1]], recompute)
        case None => None
        case Some(e) => Some(AfterMethod(c, name, e))
  }

  /** The first `j` steps of the field walk: each field the rule keeps is added. */
  function WalkFields(m: ClassMapping, name: string, pf: Table<Field>, fks: seq<U64>, j: nat, rule: Rule, recompute: bool): ClassMapping
    requires j <= |fks| && Listed(pf, fks)
  {
    if j == 0 then m
    else
      var c := WalkFields(m, name, pf, fks, j - 1, rule, recompute);
      var f := pf[fks[j - 1]];
      if Keeps(rule, f.nameFrom) then AfterField(c, name, CopyField(f, recompute)) else c
  }

  /** Keys of the table, in some order. */
  ghost predicate Listed<E>(t: Table<E>, ks: seq<U64>) {
    forall j :: 0 <= j < |ks| ==> ks[j] in t
  }

  /** Keys of the table, each once. */
  ghost predicate Walkable<E>(t: Table<E>, ks: seq<U64>) {
    && Listed(t, ks)
    && (forall a, b :: 0 <= a < b < |ks| ==> ks[a] != ks[b])
  }

  /** A walk order: every key of the table, each once. */
  ghost predicate Order<E>(t: Table<E>, ks: seq<U64>) {
    Walkable(t, ks) && forall k :: k in t ==> k in ks
  }

  /** Copying reproduces every method under its own key. */
  ghost predicate MethodsCopyable(pm: Table<Method>, recompute: bool) {
    if recompute then MethodsFingerprinted(pm) else MethodsKeyed(pm)
  }

  ghost predicate FieldsCopyable(pf: Table<Field>, recompute: bool) {
    if recompute then FieldsFingerprinted(pf) else FieldsKeyed(pf)
  }

  /** Each method copies to itself, under its own key. */
  ghost predicate MethodsCopy(pm: Table<Method>, recompute: bool) {
    forall j :: j in pm ==> CopyMethod(pm[j], recompute) == Some(pm[j]) && pm[j].hash == j
  }

  ghost predicate FieldsCopy(pf: Table<Field>, recompute: bool) {
    forall j :: j in pf ==> CopyField(pf[j], recompute) == pf[j] && pf[j].hash == j
  }

  lemma MethodsCopyableCopy(pm: Table<Method>, recompute: bool)
    requires MethodsCopyable(pm, recompute)
    ensures MethodsCopy(pm, recompute)
  {
  }

  lemma FieldsCopyableCopy(pf: Table<Field>, recompute: bool)
    requires FieldsCopyable(pf, recompute)
    ensures FieldsCopy(pf, recompute)
  {
  }

  /** One more step of the method walk. */
  lemma WalkMethodsStep(m: ClassMapping, name: string, pm: Table<Method>, ks: seq<U64>, i: nat, recompute: bool, c: ClassMapping, e: Method)
    requires i < |ks| && Listed(pm, ks)
    requires WalkMethods(m, name, pm, ks, i, recompute) == Some(c)
    requires CopyMethod(pm[ks[i]], recompute) == Some(e)
    ensures WalkMethods(m, name, pm, ks, i + 1, recompute) == Some(AfterMethod(c, name, e))
  {
  }

  /** Once a copy has thrown, the method walk stays thrown. */
  lemma WalkMethodsThrown(m: ClassMapping, name: string, pm: Table<Method>, ks: seq<U64>, i: nat, j: nat, recompute: bool)
    requires i <= j <= |ks| && Listed(pm, ks)
    requires WalkMethods(m, name, pm, ks, i, recompute).None?
    ensures WalkMethods(m, name, pm, ks, j, recompute).None?
    decreases j - i
  {
    if i < j {
      WalkMethodsThrowStep(m, name, pm, ks, i, recompute);
      WalkMethodsThrown(m, name, pm, ks, i + 1, j, recompute);
    }
  }

  /** A step throws when the walk has thrown already or its copy throws. */
  lemma WalkMethodsThrowStep(m: ClassMapping, name: string, pm: Table<Method>, ks: seq<U64>, i: nat, recompute: bool)
    requires i < |ks| && Listed(pm, ks)
    requires WalkMethods(m, name, pm, ks, i, recompute).None? || CopyMethod(pm[ks[i]], recompute).None?
    ensures WalkMethods(m, name, pm, ks, i + 1, recompute).None?
  {
  }

  /** One more step of the field walk. */
  lemma WalkFieldsStep(m: ClassMapping, name: string, pf: Table<Field>, fks: seq<U64>, j: nat, rule: Rule, recompute: bool)
    requires j < |fks| && Listed(pf, fks)
    ensures WalkFields(m, name, pf, fks, j + 1, rule, recompute) ==
      if Keeps(rule, pf[fks[j]].nameFrom) then AfterField(WalkFields(m, name, pf, fks, j, rule, recompute), name, CopyField(pf[fks[j]], recompute))
      else WalkFields(m, name, pf, fks, j, rule, recompute)
  {
  }

  /**
   * When every method copies to itself, the first `i` steps of the method walk
   * cannot throw and receive exactly the methods visited so far.
   */
  lemma {:induction false} WalkMethodsReceive(m: ClassMapping, name: string, pm: Table<Method>, ks: seq<U64>, i: nat, recompute: bool)
    requires Walkable(pm, ks) && i <= |ks| && MethodsCopy(pm, recompute)
    ensures WalkMethods(m, name, pm, ks, i, recompute) == Some(Receive(m, name, Part(pm, ks[..i]), map[]))
  {
    if i == 0 {
      PartNone(pm, ks);
      ReceiveExtends(m, name, map[], map[]);
    } else {
      WalkMethodsReceive(m, name, pm, ks, i - 1, recompute);
      WalkMethodsReceiveStep(m, name, pm, ks, i, recompute);
    }
  }

  lemma WalkMethodsReceiveStep(m: ClassMapping, name: string, pm: Table<Method>, ks: seq<U64>, i: nat, recompute: bool)
    requires Walkable(pm, ks) && 0 < i <= |ks|
    requires CopyMethod(pm[ks[i - 1]], recompute) == Some(pm[ks[i - 1]]) && pm[ks[i - 1]].hash == ks[i - 1]
    requires WalkMethods(m, name, pm, ks, i - 1, recompute) == Some(Receive(m, name, Part(pm, ks[..i - 1]), map[]))
    ensures WalkMethods(m, name, pm, ks, i, recompute) == Some(Receive(m, name, Part(pm, ks[..i]), map[]))
  {
    var j, e := ks[i - 1], pm[ks[i - 1]];
    var P := Part(pm, ks[..i - 1]);
    WalkMethodsStep(m, name, pm, ks, i - 1, recompute, Receive(m, name, P, map[]), e);
    PartStep(pm, ks, i - 1);
    ReceiveAddMethod(m, name, P, map[], j, e);
  }

  /** The whole method walk receives every method of the class. */
  lemma WalkMethodsDone(m: ClassMapping, name: string, pm: Table<Method>, ks: seq<U64>, recompute: bool)
    requires Order(pm, ks) && MethodsCopyable(pm, recompute)
    ensures WalkMethods(m, name, pm, ks, |ks|, recompute) == Some(Receive(m, name, pm, map[]))
  {
    MethodsCopyableCopy(pm, recompute);
    WalkMethodsReceive(m, name, pm, ks, |ks|, recompute);
    PartDone(pm, ks);
  }

  /**
   * After the methods, the first `j` steps of the field walk receive exactly
   * the visited fields the rule keeps.
   */
  lemma {:induction false} WalkFieldsReceive(m: ClassMapping, name: string, pm: Table<Method>, pf: Table<Field>, fks: seq<U64>, j: nat,
                                             rule: Rule, recompute: bool)
    requires Walkable(pf, fks) && j <= |fks| && FieldsCopy(pf, recompute)
    ensures WalkFields(Receive(m, name, pm, map[]), name, pf, fks, j, rule, recompute)
         == Receive(m, name, pm, Part(Kept(pf, rule), fks[..j]))
  {
    if j == 0 {
      PartNone(Kept(pf, rule), fks);
    } else {
      WalkFieldsReceive(m, name, pm, pf, fks, j - 1, rule, recompute);
      WalkFieldsReceiveStep(m, name, pm, pf, fks, j, rule, recompute);
    }
  }

  lemma WalkFieldsReceiveStep(m: ClassMapping, name: string, pm: Table<Method>, pf: Table<Field>, fks: seq<U64>, j: nat,
                              rule: Rule, recompute: bool)
    requires Walkable(pf, fks) && 0 < j <= |fks|
    requires CopyField(pf[fks[j - 1]], recompute) == pf[fks[j - 1]] && pf[fks[j - 1]].hash == fks[j - 1]
    requires WalkFields(Receive(m, name, pm, map[]), name, pf, fks, j - 1, rule, recompute)
          == Receive(m, name, pm, Part(Kept(pf, rule), fks[..j - 1]))
    ensures WalkFields(Receive(m, name, pm, map[]), name, pf, fks, j, rule, recompute)
         == Receive(m, name, pm, Part(Kept(pf, rule), fks[..j]))
  {
    var F := Kept(pf, rule);
    var f := pf[fks[j - 1]];
    if Keeps(rule, f.nameFrom) {
      PartStep(F, fks, j - 1);
      ReceiveAddField(m, name, pm, Part(F, fks[..j - 1]), fks[j - 1], f);
    } else {
      PartSkip(F, fks, j - 1);
    }
  }

  /** The whole field walk receives every field the rule keeps. */
  lemma WalkFieldsDone(m: ClassMapping, name: string, pm: Table<Method>, pf: Table<Field>, fks: seq<U64>, rule: Rule, recompute: bool)
    requires Order(pf, fks) && FieldsCopyable(pf, recompute)
    ensures WalkFields(Receive(m, name, pm, map[]), name, pf, fks, |fks|, rule, recompute) == Receive(m, name, pm, Kept(pf, rule))
  {
    FieldsCopyableCopy(pf, recompute);
    WalkFieldsReceive(m, name, pm, pf, fks, |fks|, rule, recompute);
    PartDone(Kept(pf, rule), fks);
  }

  // ---- walk prefixes ---------------------------------------------------------------

  /** Visiting one more key of a walk adds that key's entry, which the earlier visits had not. */
  lemma PartStep<E>(t: Table<E>, ks: seq<U64>, i: nat)
    requires i < |ks| && ks[i] in t
    requires forall a, b :: 0 <= a < b < |ks| ==> ks[a] != ks[b]
    ensures ks[i] !in Part(t, ks[..i])
    ensures Part(t, ks[..i + 1]) == Part(t, ks[..i])[ks[i] := t[ks[i]]]
  {
    assert ks[..i + 1] == ks[..i] + [ks[i]];
    PartSnoc(t, ks[..i], ks[i]);
  }

  /** Visiting a key whose entry the rule drops changes nothing. */
  lemma PartSkip<E>(t: Table<E>, ks: seq<U64>, i: nat)
    requires i < |ks| && ks[i] !in t
    ensures Part(t, ks[..i + 1]) == Part(t, ks[..i])
  {
    assert ks[..i + 1] == ks[..i] + [ks[i]];
    PartSnoc(t, ks[..i], ks[i]);
  }

  /** A walk that has visited no key has gathered nothing. */
  lemma PartNone<E>(t: Table<E>, ks: seq<U64>)
    ensures Part(t, ks[..0]) == map[]
  {
    assert ks[..0] == [];
  }

  /** A walk that has visited every key has gathered the whole table. */
  lemma PartDone<E>(t: Table<E>, ks: seq<U64>)
    requires forall k :: k in t ==> k in ks
    ensures Part(t, ks[..|ks|]) == t
  {
    assert ks[..|ks|] == ks;
    PartAll(t, ks);
  }
}
