/**
 * The derivation rules of the `dev.fastmc.jartools.mapping` stages, stated on
 * the abstract view of the class tables: a subclass receives its parent's
 * methods and the fields it does not redeclare; a mixin receives its
 * target's methods and the fields it redeclares with `@Shadow`. The entry
 * tables of that package are not part of this model; the current tables
 * (fingerprint-keyed, keep-first `add`) stand in for them, so a received
 * member never displaces one the class already holds.
 */
module Derivations {
  import opened Wrappers
  import opened Jvm
  import opened Asm
  import opened Mappings
  import opened SubclassInfos

  // ---- members added one by one to a keep-first table ------------------------------

  /** `t` after adding every entry of `u` under its key with `BackingMap.add`: the entries of `t` stay. */
  function KeepUnion<E>(t: Table<E>, u: Table<E>): (r: Table<E>)
    ensures r.Keys == t.Keys + u.Keys
    ensures SubTable(t, r)
    ensures forall k :: k in u && k !in t ==> r[k] == u[k]
  {
    map k | k in t.Keys + u.Keys :: if k in t then t[k] else u[k]
  }

  /** Every entry of `t` is in `r`, unchanged. */
  ghost predicate SubTable<E>(t: Table<E>, r: Table<E>) {
    forall k :: k in t ==> k in r && r[k] == t[k]
  }

  /**
   * `r` holds every class of `m` with its names and fingerprint, and every
   * member each of them held: stages only ever add.
   */
  ghost predicate Extends(m: ClassMapping, r: ClassMapping) {
    forall h :: h in m ==> h in r && ClassExtends(m[h], r[h])
  }

  /** `b` is the class `a` with possibly more members. */
  ghost predicate ClassExtends(a: Class, b: Class) {
    && b.nameFrom == a.nameFrom && b.nameTo == a.nameTo && b.hash == a.hash
    && SubTable(a.methods, b.methods) && SubTable(a.fields, b.fields)
  }

  /** Storing an extension of a class's entry (or a new class) extends the mapping. */
  lemma UpdateExtends(m: ClassMapping, k: U64, c: Class)
    requires k in m ==> ClassExtends(m[k], c)
    ensures Extends(m, m[k := c])
  {
  }

  lemma ExtendsTransitive(a: ClassMapping, b: ClassMapping, c: ClassMapping)
    requires Extends(a, b) && Extends(b, c)
    ensures Extends(a, c)
  {
  }

  /** Every stored member sits under the fingerprint its constructor computes, and equals what the constructor builds. */
  ghost predicate FieldsFingerprinted(t: Table<Field>) {
    forall k :: k in t ==> t[k] == NewField(t[k].nameFrom, t[k].nameTo) && k == t[k].hash
  }

  ghost predicate MethodsFingerprinted(t: Table<Method>) {
    forall k :: k in t ==> NewMethod(t[k].nameFrom, t[k].desc, t[k].nameTo) == Some(t[k]) && k == t[k].hash
  }

  ghost predicate ClassFingerprinted(c: Class) {
    FieldsFingerprinted(c.fields) && MethodsFingerprinted(c.methods)
  }

  ghost predicate Fingerprinted(m: ClassMapping) {
    forall h :: h in m ==> ClassFingerprinted(m[h])
  }

  // ---- the lazily created receiving class ------------------------------------------

  /**
   * The members `ms` and `fs` added to the class named `name`. The class is
   * looked up with `getOrCreate(name)` (a new one maps the name to itself)
   * only when there is something to add: the lazy `set` of the stages.
   */
  function Receive(m: ClassMapping, name: string, ms: Table<Method>, fs: Table<Field>): (r: ClassMapping)
    ensures m.Keys <= r.Keys
  {
    if ms == map[] && fs == map[] then m
    else
      var m1 := GetOrCreate(m, name, name).0;
      var k := ClassHash(name);
      m1[k := Fill(m1[k], ms, fs)]
  }

  /** The class `c` with the members `ms` and `fs` added, keep-first. */
  function Fill(c: Class, ms: Table<Method>, fs: Table<Field>): (r: Class)
    ensures ClassExtends(c, r)
    ensures r.methods.Keys == c.methods.Keys + ms.Keys && r.fields.Keys == c.fields.Keys + fs.Keys
    ensures forall j :: j in ms && j !in c.methods ==> r.methods[j] == ms[j]
    ensures forall j :: j in fs && j !in c.fields ==> r.fields[j] == fs[j]
  {
    c.(methods := KeepUnion(c.methods, ms), fields := KeepUnion(c.fields, fs))
  }

  /** Receiving only adds; with nothing to add, nothing changes and no class is created. */
  lemma ReceiveExtends(m: ClassMapping, name: string, ms: Table<Method>, fs: Table<Field>)
    ensures Extends(m, Receive(m, name, ms, fs))
    ensures ms == map[] && fs == map[] ==> Receive(m, name, ms, fs) == m
  {
    if ms != map[] || fs != map[] {
      var (m1, k) := GetOrCreate(m, name, name);
      DepositExtends(m, m1, k, ms, fs);
    }
  }

  lemma DepositExtends(m: ClassMapping, m1: ClassMapping, k: U64, ms: Table<Method>, fs: Table<Field>)
    requires k in m1 && (m1 == m || (k !in m && m1 == m[k := m1[k]]))
    ensures Extends(m, m1[k := Fill(m1[k], ms, fs)])
  {
    if k !in m {
      UpdateExtends(m, k, m1[k]);
    }
    UpdateExtends(m1, k, Fill(m1[k], ms, fs));
    ExtendsTransitive(m, m1, m1[k := Fill(m1[k], ms, fs)]);
  }

  /**
   * With something to add, the class named `name` exists afterwards (a new
   * one maps the name to itself) and holds a member under every key of `ms`
   * and `fs`; no other class appears.
   */
  lemma ReceiveCreates(m: ClassMapping, name: string, ms: Table<Method>, fs: Table<Field>)
    requires ms != map[] || fs != map[]
    ensures var r := Receive(m, name, ms, fs); var k := ClassHash(name);
      && r.Keys == m.Keys + {k}
      && (k !in m ==> r[k].nameFrom == name && r[k].nameTo == name)
      && ms.Keys <= r[k].methods.Keys && fs.Keys <= r[k].fields.Keys
  {
    var (m1, k) := GetOrCreate(m, name, name);
    Deposited(m, m1, k, ms, fs);
  }

  /** Each member the receiving class did not hold before comes from `ms` or `fs`. */
  lemma ReceiveOnly(m: ClassMapping, name: string, ms: Table<Method>, fs: Table<Field>)
    requires ms != map[] || fs != map[]
    ensures var r := Receive(m, name, ms, fs); var k := ClassHash(name);
      && (forall j :: j in r[k].methods && (k !in m || j !in m[k].methods) ==> j in ms && r[k].methods[j] == ms[j])
      && (forall j :: j in r[k].fields && (k !in m || j !in m[k].fields) ==> j in fs && r[k].fields[j] == fs[j])
  {
    var (m1, k) := GetOrCreate(m, name, name);
    Deposited(m, m1, k, ms, fs);
  }

  /** The members arrive in the class under `k`, whether it was there before (`m1 == m`) or was just created empty. */
  lemma Deposited(m: ClassMapping, m1: ClassMapping, k: U64, ms: Table<Method>, fs: Table<Field>)
    requires k in m1
    requires m1 == m || (k !in m && m1 == m[k := m1[k]] && m1[k].methods == map[] && m1[k].fields == map[])
    ensures var r := m1[k := Fill(m1[k], ms, fs)];
      && r.Keys == m.Keys + {k}
      && (k !in m ==> r[k].nameFrom == m1[k].nameFrom && r[k].nameTo == m1[k].nameTo)
      && ms.Keys <= r[k].methods.Keys && fs.Keys <= r[k].fields.Keys
      && (forall j :: j in r[k].methods && (k !in m || j !in m[k].methods) ==> j in ms && r[k].methods[j] == ms[j])
      && (forall j :: j in r[k].fields && (k !in m || j !in m[k].fields) ==> j in fs && r[k].fields[j] == fs[j])
  {
  }

  // ---- receiving member by member, as the stages' loops do ----------------------------

  /** The entries of `t` under the keys listed in `ks`: the part of a table a walk has visited. */
  function Part<E>(t: Table<E>, ks: seq<U64>): (r: Table<E>)
    ensures forall k :: k in r <==> k in t && k in ks
    ensures forall k :: k in r ==> r[k] == t[k]
  {
    map k | k in t && k in ks :: t[k]
  }

  /** Visiting one more key of the walk adds that key's entry, if it is kept. */
  lemma PartSnoc<E>(t: Table<E>, ks: seq<U64>, k: U64)
    ensures k in t ==> Part(t, ks + [k]) == Part(t, ks)[k := t[k]]
    ensures k !in t ==> Part(t, ks + [k]) == Part(t, ks)
  {
  }

  /** A walk over every key visits the whole table. */
  lemma PartAll<E>(t: Table<E>, ks: seq<U64>)
    requires forall k :: k in t ==> k in ks
    ensures Part(t, ks) == t
  {
  }

  lemma KeepUnionSnoc<E>(t: Table<E>, u: Table<E>, j: U64, e: E)
    requires j !in u
    ensures KeepUnion(t, u[j := e]) == Add(KeepUnion(t, u), j, e)
  {
  }

  lemma KeepUnionEmpty<E>(t: Table<E>)
    ensures KeepUnion(t, map[]) == t
  {
  }

  /** Filling with nothing leaves a class as it is. */
  lemma FillNothing(c: Class)
    ensures Fill(c, map[], map[]) == c
  {
    KeepUnionEmpty(c.methods);
    KeepUnionEmpty(c.fields);
  }

  lemma FillAddMethod(c: Class, ms: Table<Method>, fs: Table<Field>, j: U64, e: Method)
    requires j !in ms
    ensures Fill(c, ms[j := e], fs) == Fill(c, ms, fs).(methods := Add(Fill(c, ms, fs).methods, j, e))
  {
    KeepUnionSnoc(c.methods, ms, j, e);
  }

  lemma FillAddField(c: Class, ms: Table<Method>, fs: Table<Field>, j: U64, f: Field)
    requires j !in fs
    ensures Fill(c, ms, fs[j := f]) == Fill(c, ms, fs).(fields := Add(Fill(c, ms, fs).fields, j, f))
  {
    KeepUnionSnoc(c.fields, fs, j, f);
  }

  /**
   * Adding one more method to the received ones is `getOrCreate(name)`
   * followed by one keep-first `add` of that method: the step of the loops.
   */
  lemma ReceiveAddMethod(m: ClassMapping, name: string, ms: Table<Method>, fs: Table<Field>, j: U64, e: Method)
    requires j !in ms
    ensures var before := GetOrCreate(Receive(m, name, ms, fs), name, name).0; var k := ClassHash(name);
      Receive(m, name, ms[j := e], fs) == before[k := before[k].(methods := Add(before[k].methods, j, e))]
  {
    var m1, k := GetOrCreate(m, name, name).0, ClassHash(name);
    AfterReceive(m, name, ms, fs);
    ReceiveUnfold(m, name, ms[j := e], fs);
    FillAddMethod(m1[k], ms, fs, j, e);
    Restore(m1, k, Fill(m1[k], ms, fs), Fill(m1[k], ms[j := e], fs));
  }

  lemma ReceiveAddField(m: ClassMapping, name: string, ms: Table<Method>, fs: Table<Field>, j: U64, f: Field)
    requires j !in fs
    ensures var before := GetOrCreate(Receive(m, name, ms, fs), name, name).0; var k := ClassHash(name);
      Receive(m, name, ms, fs[j := f]) == before[k := before[k].(fields := Add(before[k].fields, j, f))]
  {
    var m1, k := GetOrCreate(m, name, name).0, ClassHash(name);
    AfterReceive(m, name, ms, fs);
    ReceiveUnfold(m, name, ms, fs[j := f]);
    FillAddField(m1[k], ms, fs, j, f);
    Restore(m1, k, Fill(m1[k], ms, fs), Fill(m1[k], ms, fs[j := f]));
  }

  lemma ReceiveUnfold(m: ClassMapping, name: string, ms: Table<Method>, fs: Table<Field>)
    requires ms != map[] || fs != map[]
    ensures var m1, k := GetOrCreate(m, name, name).0, ClassHash(name);
      Receive(m, name, ms, fs) == m1[k := Fill(m1[k], ms, fs)]
  {
  }

  /** `getOrCreate(name)` after receiving finds the class as receiving filled it, or creates it as receiving would have. */
  lemma AfterReceive(m: ClassMapping, name: string, ms: Table<Method>, fs: Table<Field>)
    ensures var m1, k := GetOrCreate(m, name, name).0, ClassHash(name);
      GetOrCreate(Receive(m, name, ms, fs), name, name).0 == m1[k := Fill(m1[k], ms, fs)]
  {
    var m1, k := GetOrCreate(m, name, name).0, ClassHash(name);
    if ms == map[] && fs == map[] {
      FillNothing(m1[k]);
      assert m1[k := m1[k]] == m1;
    }
  }

  lemma Restore(m: ClassMapping, k: U64, c: Class, d: Class)
    ensures m[k := c][k := d] == m[k := d]
  {
  }

  /** Receiving keyed members keeps the mapping keyed, and fingerprinted ones keep it fingerprinted. */
  lemma ReceiveKeyed(m: ClassMapping, name: string, ms: Table<Method>, fs: Table<Field>)
    requires Keyed(m) && MethodsKeyed(ms) && FieldsKeyed(fs)
    ensures Keyed(Receive(m, name, ms, fs))
  {
    if ms != map[] || fs != map[] {
      var (m1, k) := GetOrCreate(m, name, name);
      if k !in m {
        UpdateKeyed(m, k, m1[k]);
      }
      assert ClassKeyed(m1[k]);
      FillKeyed(m1[k], ms, fs);
      UpdateKeyed(m1, k, Fill(m1[k], ms, fs));
    }
  }

  /** Filling a class with keyed (fingerprinted) members keeps it keyed (fingerprinted). */
  lemma FillKeyed(c: Class, ms: Table<Method>, fs: Table<Field>)
    requires ClassKeyed(c) && MethodsKeyed(ms) && FieldsKeyed(fs)
    ensures ClassKeyed(Fill(c, ms, fs))
  {
  }

  lemma FillFingerprinted(c: Class, ms: Table<Method>, fs: Table<Field>)
    requires MethodsFingerprinted(c.methods) && MethodsFingerprinted(ms)
    requires FieldsFingerprinted(c.fields) && FieldsFingerprinted(fs)
    ensures MethodsFingerprinted(Fill(c, ms, fs).methods) && FieldsFingerprinted(Fill(c, ms, fs).fields)
  {
    UnionFingerprinted(c.methods, c.fields, ms, fs);
  }

  lemma UnionFingerprinted(cm: Table<Method>, cf: Table<Field>, ms: Table<Method>, fs: Table<Field>)
    requires MethodsFingerprinted(cm) && MethodsFingerprinted(ms)
    requires FieldsFingerprinted(cf) && FieldsFingerprinted(fs)
    ensures MethodsFingerprinted(KeepUnion(cm, ms)) && FieldsFingerprinted(KeepUnion(cf, fs))
  {
    var rm, rf := KeepUnion(cm, ms), KeepUnion(cf, fs);
    forall j | j in rm
      ensures NewMethod(rm[j].nameFrom, rm[j].desc, rm[j].nameTo) == Some(rm[j]) && j == rm[j].hash
    {
      assert rm[j] == if j in cm then cm[j] else ms[j];
    }
    forall j | j in rf
      ensures rf[j] == NewField(rf[j].nameFrom, rf[j].nameTo) && j == rf[j].hash
    {
      assert rf[j] == if j in cf then cf[j] else fs[j];
    }
  }

  /** Storing a keyed class under its own fingerprint keeps the mapping keyed. */
  lemma UpdateKeyed(m: ClassMapping, k: U64, c: Class)
    requires Keyed(m) && c.hash == k && ClassKeyed(c)
    ensures Keyed(m[k := c])
  {
  }

  lemma UpdateFingerprinted(m: ClassMapping, k: U64, c: Class)
    requires Fingerprinted(m) && MethodsFingerprinted(c.methods) && FieldsFingerprinted(c.fields)
    ensures Fingerprinted(m[k := c])
  {
  }

  lemma ReceiveFingerprinted(m: ClassMapping, name: string, ms: Table<Method>, fs: Table<Field>)
    requires Fingerprinted(m) && MethodsFingerprinted(ms) && FieldsFingerprinted(fs)
    ensures Fingerprinted(Receive(m, name, ms, fs))
  {
    if ms != map[] || fs != map[] {
      var (m1, k) := GetOrCreate(m, name, name);
      if k !in m {
        UpdateFingerprinted(m, k, m1[k]);
      }
      FillFingerprinted(m1[k], ms, fs);
      UpdateFingerprinted(m1, k, Fill(m1[k], ms, fs));
    }
  }

  // ---- the subclass rule --------------------------------------------------------------

  /** `subclass.classNode.fields.none { it.name == name }`. */
  predicate Undeclared(c: ClassNode, name: string) {
    forall i :: 0 <= i < |c.fields| ==> c.fields[i].name != name
  }

  /** Which fields a receiving class takes: a subclass those it does not declare, a mixin those it shadows. */
  datatype Rule = Inherit(sub: ClassNode) | Shadow(mixin: ClassNode)

  predicate Keeps(rule: Rule, name: string) {
    match rule
    case Inherit(sub) => Undeclared(sub, name)
    case Shadow(mixin) => ShadowDeclared(mixin, name)
  }

  /** The fields of `fs` the rule lets through. */
  function Kept(fs: Table<Field>, rule: Rule): (r: Table<Field>)
    ensures forall k :: k in r <==> k in fs && Keeps(rule, fs[k].nameFrom)
    ensures forall k :: k in r ==> r[k] == fs[k]
  {
    map k | k in fs && Keeps(rule, fs[k].nameFrom) :: fs[k]
  }

  /** The parent's fields a subclass inherits: those whose name it does not declare. */
  function Inherited(fs: Table<Field>, sub: ClassNode): (r: Table<Field>)
    ensures forall k :: k in r <==> k in fs && Undeclared(sub, fs[k].nameFrom)
    ensures forall k :: k in r ==> r[k] == fs[k]
  {
    Kept(fs, Inherit(sub))
  }

  /** One visit of the subclass stage: the class under `pk` hands its members down to `sub`. */
  function Propagate(m: ClassMapping, pk: U64, sub: ClassNode): (r: ClassMapping)
    requires pk in m
    ensures m.Keys <= r.Keys
  {
    Receive(m, sub.name, m[pk].methods, Inherited(m[pk].fields, sub))
  }

  /**
   * The subclass rule: the subclass receives every method of its parent and
   * every field whose name it does not declare, and no field whose name it
   * declares; it is created only when the parent has something to hand down.
   */
  lemma PropagateRule(m: ClassMapping, pk: U64, sub: ClassNode)
    requires pk in m
    ensures Extends(m, Propagate(m, pk, sub))
    ensures var r := Propagate(m, pk, sub); var k := ClassHash(sub.name); var p := m[pk];
      && (k in r <==> k in m || p.methods != map[] || Inherited(p.fields, sub) != map[])
      && (k in r ==> p.methods.Keys <= r[k].methods.Keys)
      && (forall j :: j in p.fields && Undeclared(sub, p.fields[j].nameFrom) ==> k in r && j in r[k].fields)
      && (forall j :: k in r && j in r[k].fields && (k !in m || j !in m[k].fields) ==>
            j in p.fields && Undeclared(sub, p.fields[j].nameFrom))
  {
    var ms, fs := m[pk].methods, Inherited(m[pk].fields, sub);
    ReceiveExtends(m, sub.name, ms, fs);
    if ms != map[] || fs != map[] {
      ReceiveCreates(m, sub.name, ms, fs);
      ReceiveOnly(m, sub.name, ms, fs);
    }
  }

  /** The visits of one parent's subclasses, in order. */
  function PropagateAll(m: ClassMapping, pk: U64, subs: seq<nat>, nodes: seq<ClassNode>): (r: ClassMapping)
    requires pk in m
    ensures m.Keys <= r.Keys
    decreases |subs|
  {
    if |subs| == 0 then m
    else
      var m1 := PropagateAll(m, pk, subs[..|subs| - 1], nodes);
      var s := subs[|subs| - 1];
      if s < |nodes| then Propagate(m1, pk, nodes[s]) else m1
  }

  /** Every subclass position an info lists is a position of the class list. */
  lemma InfoSubclassesInRange(nodes: seq<ClassNode>, i: nat, j: nat)
    requires i < |nodes| && j < |SubclassInfo(nodes)[i].subclasses|
    ensures SubclassInfo(nodes)[i].subclasses[j] < |nodes|
  {
    InfosSorted(nodes);
    var info := SubclassInfo(nodes)[i];
    assert info in multiset(Unsorted(nodes));
    var p :| 0 <= p < |nodes| && Unsorted(nodes)[p] == info;
    EdgesWellFormed(nodes);
  }

  /** `forEach { info -> … }` over the infos in order: each mapped class hands down to its subclasses. */
  function SubclassPass(m: ClassMapping, infos: seq<Info>, nodes: seq<ClassNode>): (r: ClassMapping)
    ensures m.Keys <= r.Keys
    decreases |infos|
  {
    if |infos| == 0 then m
    else
      var m1 := SubclassPass(m, infos[..|infos| - 1], nodes);
      var pk := ClassHash(infos[|infos| - 1].node.name);
      if pk in m1 then PropagateAll(m1, pk, infos[|infos| - 1].subclasses, nodes) else m1
  }

  /** What the subclass stage computes from the previous mapping and the classes, in `SubclassInfo` order. */
  function Subclassed(prev: ClassMapping, nodes: seq<ClassNode>): ClassMapping {
    SubclassPass(prev, SubclassInfo(nodes), nodes)
  }

  lemma {:induction false} PropagateAllExtends(m: ClassMapping, pk: U64, subs: seq<nat>, nodes: seq<ClassNode>)
    requires pk in m
    ensures Extends(m, PropagateAll(m, pk, subs, nodes))
    decreases |subs|
  {
    if |subs| > 0 {
      var m1 := PropagateAll(m, pk, subs[..|subs| - 1], nodes);
      PropagateAllExtends(m, pk, subs[..|subs| - 1], nodes);
      var s := subs[|subs| - 1];
      if s < |nodes| {
        PropagateRule(m1, pk, nodes[s]);
        ExtendsTransitive(m, m1, Propagate(m1, pk, nodes[s]));
      }
    }
  }

  lemma {:induction false} SubclassPassExtends(m: ClassMapping, infos: seq<Info>, nodes: seq<ClassNode>)
    ensures Extends(m, SubclassPass(m, infos, nodes))
    decreases |infos|
  {
    if |infos| > 0 {
      var m1 := SubclassPass(m, infos[..|infos| - 1], nodes);
      SubclassPassExtends(m, infos[..|infos| - 1], nodes);
      var pk := ClassHash(infos[|infos| - 1].node.name);
      if pk in m1 {
        PropagateAllExtends(m1, pk, infos[|infos| - 1].subclasses, nodes);
        ExtendsTransitive(m, m1, PropagateAll(m1, pk, infos[|infos| - 1].subclasses, nodes));
      }
    }
  }

  /** The subclass stage keeps every class and member of the previous mapping (`result.addAll(prev)` first). */
  lemma SubclassedExtends(prev: ClassMapping, nodes: seq<ClassNode>)
    ensures Extends(prev, Subclassed(prev, nodes))
  {
    SubclassPassExtends(prev, SubclassInfo(nodes), nodes);
  }

  lemma {:induction false} PropagateAllKeyed(m: ClassMapping, pk: U64, subs: seq<nat>, nodes: seq<ClassNode>)
    requires pk in m && Keyed(m)
    ensures Keyed(PropagateAll(m, pk, subs, nodes))
    decreases |subs|
  {
    if |subs| > 0 {
      var m1 := PropagateAll(m, pk, subs[..|subs| - 1], nodes);
      PropagateAllKeyed(m, pk, subs[..|subs| - 1], nodes);
      var s := subs[|subs| - 1];
      if s < |nodes| {
        ReceiveKeyed(m1, nodes[s].name, m1[pk].methods, Inherited(m1[pk].fields, nodes[s]));
      }
    }
  }

  lemma {:induction false} PropagateAllFingerprinted(m: ClassMapping, pk: U64, subs: seq<nat>, nodes: seq<ClassNode>)
    requires pk in m && Fingerprinted(m)
    ensures Fingerprinted(PropagateAll(m, pk, subs, nodes))
    decreases |subs|
  {
    if |subs| > 0 {
      var m1 := PropagateAll(m, pk, subs[..|subs| - 1], nodes);
      PropagateAllFingerprinted(m, pk, subs[..|subs| - 1], nodes);
      var s := subs[|subs| - 1];
      if s < |nodes| {
        ReceiveFingerprinted(m1, nodes[s].name, m1[pk].methods, Inherited(m1[pk].fields, nodes[s]));
      }
    }
  }

  lemma {:induction false} SubclassPassInvariants(m: ClassMapping, infos: seq<Info>, nodes: seq<ClassNode>)
    ensures Keyed(m) ==> Keyed(SubclassPass(m, infos, nodes))
    ensures Fingerprinted(m) ==> Fingerprinted(SubclassPass(m, infos, nodes))
    decreases |infos|
  {
    if |infos| > 0 {
      var m1 := SubclassPass(m, infos[..|infos| - 1], nodes);
      SubclassPassInvariants(m, infos[..|infos| - 1], nodes);
      var pk := ClassHash(infos[|infos| - 1].node.name);
      if pk in m1 {
        if Keyed(m) {
          PropagateAllKeyed(m1, pk, infos[|infos| - 1].subclasses, nodes);
        }
        if Fingerprinted(m) {
          PropagateAllFingerprinted(m1, pk, infos[|infos| - 1].subclasses, nodes);
        }
      }
    }
  }

  // ---- the mixin rule ----------------------------------------------------------------

  /** Some field of the mixin with that name carries `@Shadow`. */
  predicate ShadowDeclared(c: ClassNode, name: string) {
    exists i :: 0 <= i < |c.fields| && c.fields[i].name == name && ContainsAnnotation(c.fields[i].annotations, SHADOW)
  }

  /** The target's fields a mixin receives: those it redeclares with `@Shadow`. */
  function Shadowed(fs: Table<Field>, mixin: ClassNode): (r: Table<Field>)
    ensures forall k :: k in r <==> k in fs && ShadowDeclared(mixin, fs[k].nameFrom)
    ensures forall k :: k in r ==> r[k] == fs[k]
  {
    Kept(fs, Shadow(mixin))
  }

  /** One target of a mixin: the class under `tk` hands its methods and shadowed fields to the mixin class. */
  function Adopt(m: ClassMapping, tk: U64, mixin: ClassNode): (r: ClassMapping)
    requires tk in m
    ensures m.Keys <= r.Keys
  {
    Receive(m, mixin.name, m[tk].methods, Shadowed(m[tk].fields, mixin))
  }

  /**
   * The mixin rule: the mixin class receives every method of its target and
   * exactly the target's fields it redeclares with `@Shadow`; it is created
   * only when the target has something to hand over.
   */
  lemma AdoptRule(m: ClassMapping, tk: U64, mixin: ClassNode)
    requires tk in m
    ensures Extends(m, Adopt(m, tk, mixin))
    ensures var r := Adopt(m, tk, mixin); var k := ClassHash(mixin.name); var t := m[tk];
      && (k in r <==> k in m || t.methods != map[] || Shadowed(t.fields, mixin) != map[])
      && (k in r ==> t.methods.Keys <= r[k].methods.Keys)
      && (forall j :: j in t.fields && ShadowDeclared(mixin, t.fields[j].nameFrom) ==> k in r && j in r[k].fields)
      && (forall j :: k in r && j in r[k].fields && (k !in m || j !in m[k].fields) ==>
            j in t.fields && ShadowDeclared(mixin, t.fields[j].nameFrom))
  {
    var ms, fs := m[tk].methods, Shadowed(m[tk].fields, mixin);
    ReceiveExtends(m, mixin.name, ms, fs);
    if ms != map[] || fs != map[] {
      ReceiveCreates(m, mixin.name, ms, fs);
      ReceiveOnly(m, mixin.name, ms, fs);
    }
  }

  /**
   * The targets of one mixin, in order. A target counts only when the
   * previous mapping (`prevKeys`) has it; its members are read from the
   * current table, which holds the same entry and whatever earlier mixins
   * added to it.
   */
  function AdoptAll(m: ClassMapping, prevKeys: set<U64>, targets: seq<string>, mixin: ClassNode): (r: ClassMapping)
    ensures m.Keys <= r.Keys
    decreases |targets|
  {
    if |targets| == 0 then m
    else
      var m1 := AdoptAll(m, prevKeys, targets[..|targets| - 1], mixin);
      var tk := ClassHash(targets[|targets| - 1]);
      if tk in prevKeys && tk in m1 then Adopt(m1, tk, mixin) else m1
  }

  /** The mixin stage over `classes` in order, `targetsOf` naming the targets each class's `@Mixin` lists. */
  function MixinPass(m: ClassMapping, prevKeys: set<U64>, classes: seq<ClassNode>, targetsOf: ClassNode -> seq<string>): (r: ClassMapping)
    ensures m.Keys <= r.Keys
    decreases |classes|
  {
    if |classes| == 0 then m
    else
      var m1 := MixinPass(m, prevKeys, classes[..|classes| - 1], targetsOf);
      var c := classes[|classes| - 1];
      AdoptAll(m1, prevKeys, targetsOf(c), c)
  }

  /** What the mixin stage computes from the previous mapping. */
  function Mixed(prev: ClassMapping, classes: seq<ClassNode>, targetsOf: ClassNode -> seq<string>): ClassMapping {
    MixinPass(prev, prev.Keys, classes, targetsOf)
  }

  lemma {:induction false} AdoptAllExtends(m: ClassMapping, prevKeys: set<U64>, targets: seq<string>, mixin: ClassNode)
    ensures Extends(m, AdoptAll(m, prevKeys, targets, mixin))
    ensures Keyed(m) ==> Keyed(AdoptAll(m, prevKeys, targets, mixin))
    decreases |targets|
  {
    if |targets| > 0 {
      var m1 := AdoptAll(m, prevKeys, targets[..|targets| - 1], mixin);
      AdoptAllExtends(m, prevKeys, targets[..|targets| - 1], mixin);
      var tk := ClassHash(targets[|targets| - 1]);
      if tk in prevKeys && tk in m1 {
        AdoptRule(m1, tk, mixin);
        ExtendsTransitive(m, m1, Adopt(m1, tk, mixin));
        if Keyed(m) {
          ReceiveKeyed(m1, mixin.name, m1[tk].methods, Shadowed(m1[tk].fields, mixin));
        }
      }
    }
  }

  lemma {:induction false} MixinPassExtends(m: ClassMapping, prevKeys: set<U64>, classes: seq<ClassNode>, targetsOf: ClassNode -> seq<string>)
    ensures Extends(m, MixinPass(m, prevKeys, classes, targetsOf))
    ensures Keyed(m) ==> Keyed(MixinPass(m, prevKeys, classes, targetsOf))
    decreases |classes|
  {
    if |classes| > 0 {
      var m1 := MixinPass(m, prevKeys, classes[..|classes| - 1], targetsOf);
      MixinPassExtends(m, prevKeys, classes[..|classes| - 1], targetsOf);
      var c := classes[|classes| - 1];
      AdoptAllExtends(m1, prevKeys, targetsOf(c), c);
      ExtendsTransitive(m, m1, AdoptAll(m1, prevKeys, targetsOf(c), c));
    }
  }

  /** The mixin stage keeps every class and member of the previous mapping. */
  lemma MixedExtends(prev: ClassMapping, classes: seq<ClassNode>, targetsOf: ClassNode -> seq<string>)
    ensures Extends(prev, Mixed(prev, classes, targetsOf))
    ensures Keyed(prev) ==> Keyed(Mixed(prev, classes, targetsOf))
  {
    MixinPassExtends(prev, prev.Keys, classes, targetsOf);
  }

  /** A class the previous mapping lacks is never a source: with no mapped target, the mixin stage changes nothing. */
  lemma {:induction false} UnmappedTargetsChangeNothing(m: ClassMapping, prevKeys: set<U64>, targets: seq<string>, mixin: ClassNode)
    requires forall i :: 0 <= i < |targets| ==> ClassHash(targets[i]) !in prevKeys
    ensures AdoptAll(m, prevKeys, targets, mixin) == m
    decreases |targets|
  {
    if |targets| > 0 {
      UnmappedTargetsChangeNothing(m, prevKeys, targets[..|targets| - 1], mixin);
    }
  }
}
