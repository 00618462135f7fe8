/**
 * `SubclassInfo.getSubclassInfo`: the class hierarchy inside a set of class
 * nodes. Each node gets the list of nodes of the set that name it as their
 * super class (other than `java/lang/Object`) or as an interface, and a depth:
 * 0 for a node with neither a super class nor interfaces, `Int.MIN_VALUE` for
 * every other one to start with, then raised to one more than each parent's
 * depth until a whole pass changes nothing. The infos come out sorted by
 * depth, stably.
 *
 * An info object is modelled by its position: node `i` of the input has
 * `depth[i]` and `subclasses[i]`, and a subclass is named by its position.
 */
module SubclassInfos {
  import opened Wrappers
  import opened Jvm
  import opened Asm
  import opened Sorting

  const OBJECT := "java/lang/Object"
  const MIN_INT: I32 := -0x8000_0000
  const MAX_INT: I32 := 0x7fff_ffff

  // ---------------------------------------------------------------------------
  // The subclass lists
  // ---------------------------------------------------------------------------

  /** `className2ClassNode[name]`: `associateBy` keeps the last node of each name. */
  function Named(nodes: seq<ClassNode>, name: string): (r: Option<nat>)
    ensures r.Some? ==> r.value < |nodes| && nodes[r.value].name == name
    ensures r.Some? ==> forall j :: r.value < j < |nodes| ==> nodes[j].name != name
    ensures r.None? ==> forall j :: 0 <= j < |nodes| ==> nodes[j].name != name
    decreases |nodes|
  {
    if |nodes| == 0 then None
    else if nodes[|nodes| - 1].name == name then Some(|nodes| - 1)
    else Named(nodes[..|nodes| - 1], name)
  }

  /** The node of the set a class extends, if it names one other than `java/lang/Object`. */
  function SuperParent(nodes: seq<ClassNode>, c: ClassNode): (r: Option<nat>)
    ensures r.Some? ==> r.value < |nodes|
  {
    match c.superName
    case None => None
    case Some(s) => if s == OBJECT then None else Named(nodes, s)
  }

  /** The nodes of the set among the interfaces, in the order they are listed. */
  function InterfaceParents(nodes: seq<ClassNode>, ifs: seq<string>): (r: seq<nat>)
    ensures forall k :: 0 <= k < |r| ==> r[k] < |nodes|
    decreases |ifs|
  {
    if |ifs| == 0 then []
    else
      InterfaceParents(nodes, ifs[..|ifs| - 1]) +
        match Named(nodes, ifs[|ifs| - 1]) case None => [] case Some(p) => [p]
  }

  /** The lists a node adds itself to: its super class's, then each interface's. */
  function Parents(nodes: seq<ClassNode>, c: ClassNode): (r: seq<nat>)
    ensures forall k :: 0 <= k < |r| ==> r[k] < |nodes|
  {
    (match SuperParent(nodes, c) case None => [] case Some(p) => [p]) + InterfaceParents(nodes, c.interfaces)
  }

  /** `subclasses.add(child)` on the list of each parent in turn. */
  function Register(subs: seq<seq<nat>>, parents: seq<nat>, child: nat): (r: seq<seq<nat>>)
    requires forall k :: 0 <= k < |parents| ==> parents[k] < |subs|
    ensures |r| == |subs|
    decreases |parents|
  {
    if |parents| == 0 then subs
    else
      var s := Register(subs, parents[..|parents| - 1], child);
      var p := parents[|parents| - 1];
      s[p := s[p] + [child]]
  }

  /** The lists once the first `k` nodes have added themselves. */
  function EdgesAfter(nodes: seq<ClassNode>, k: nat): (r: seq<seq<nat>>)
    requires k <= |nodes|
    ensures |r| == |nodes|
    decreases k
  {
    if k == 0 then seq(|nodes|, _ => [])
    else Register(EdgesAfter(nodes, k - 1), Parents(nodes, nodes[k - 1]), k - 1)
  }

  /** The `subclasses` list of every node. */
  function Edges(nodes: seq<ClassNode>): (r: seq<seq<nat>>)
    ensures |r| == |nodes|
  {
    EdgesAfter(nodes, |nodes|)
  }

  lemma {:induction false} RegisterHas(subs: seq<seq<nat>>, parents: seq<nat>, child: nat, p: nat, x: nat)
    requires forall k :: 0 <= k < |parents| ==> parents[k] < |subs|
    requires p < |subs|
    ensures x in Register(subs, parents, child)[p] <==> x in subs[p] || (x == child && p in parents)
    decreases |parents|
  {
    if |parents| > 0 {
      var init := parents[..|parents| - 1];
      RegisterHas(subs, init, child, p, x);
      assert parents == init + [parents[|parents| - 1]];
    }
  }

  lemma {:induction false} EdgesAfterHas(nodes: seq<ClassNode>, k: nat, p: nat, x: nat)
    requires k <= |nodes| && p < |nodes|
    ensures x in EdgesAfter(nodes, k)[p] <==> x < k && p in Parents(nodes, nodes[x])
    decreases k
  {
    if k > 0 {
      EdgesAfterHas(nodes, k - 1, p, x);
      RegisterHas(EdgesAfter(nodes, k - 1), Parents(nodes, nodes[k - 1]), k - 1, p, x);
    }
  }

  lemma {:induction false} InterfaceParentsHas(nodes: seq<ClassNode>, ifs: seq<string>, p: nat)
    ensures p in InterfaceParents(nodes, ifs) <==> exists k :: 0 <= k < |ifs| && Named(nodes, ifs[k]) == Some(p)
    decreases |ifs|
  {
    if |ifs| > 0 {
      var init := ifs[..|ifs| - 1];
      InterfaceParentsHas(nodes, init, p);
      if exists k :: 0 <= k < |ifs| && Named(nodes, ifs[k]) == Some(p) {
        var k :| 0 <= k < |ifs| && Named(nodes, ifs[k]) == Some(p);
        if k < |init| {
          assert init[k] == ifs[k];
        }
      }
      if exists k :: 0 <= k < |init| && Named(nodes, init[k]) == Some(p) {
        var k :| 0 <= k < |init| && Named(nodes, init[k]) == Some(p);
        assert ifs[k] == init[k];
      }
    }
  }

  /**
   * Node `x` is in the `subclasses` list of node `p` exactly when `p` is the
   * last node of its name and `x` extends it (`java/lang/Object` aside) or
   * lists it among its interfaces.
   */
  lemma SubclassEdge(nodes: seq<ClassNode>, p: nat, x: nat)
    requires p < |nodes| && x < |nodes|
    ensures x in Edges(nodes)[p] <==>
      var n := nodes[p].name;
      Named(nodes, n) == Some(p) &&
      ((nodes[x].superName == Some(n) && n != OBJECT) || n in nodes[x].interfaces)
  {
    var n := nodes[p].name;
    var c := nodes[x];
    EdgesAfterHas(nodes, |nodes|, p, x);
    InterfaceParentsHas(nodes, c.interfaces, p);
    if n in c.interfaces && Named(nodes, n) == Some(p) {
      var k :| 0 <= k < |c.interfaces| && c.interfaces[k] == n;
      assert Named(nodes, c.interfaces[k]) == Some(p);
    }
  }

  /** The body of the first `forEach` for node `i`: it adds itself to its super class's list, then to each interface's. */
  method AddToParents(subclasses: array<seq<nat>>, nodes: seq<ClassNode>, i: nat)
    requires subclasses.Length == |nodes| && i < |nodes|
    modifies subclasses
    ensures subclasses[..] == Register(old(subclasses[..]), Parents(nodes, nodes[i]), i)
  {
    var c := nodes[i];
    ghost var base := subclasses[..];
    var sp := SuperParent(nodes, c);
    var head: seq<nat> := if sp.Some? then [sp.value] else [];
    if sp.Some? {
      AddChild(subclasses, sp.value, i);
    }
    assert subclasses[..] == Register(base, head, i);
    var ifs := c.interfaces;
    for k := 0 to |ifs|
      invariant subclasses[..] == Register(base, head + InterfaceParents(nodes, ifs[..k]), i)
    {
      AddToInterface(subclasses, nodes, ifs, k, i, base, head);
    }
    assert ifs[..|ifs|] == ifs;
  }

  /** One step of the interfaces' `forEach`: the child joins the list of interface `k`, when it names a node. */
  method AddToInterface(subclasses: array<seq<nat>>, nodes: seq<ClassNode>, ifs: seq<string>, k: nat, i: nat,
                        ghost base: seq<seq<nat>>, ghost head: seq<nat>)
    requires subclasses.Length == |nodes| == |base| && k < |ifs|
    requires forall j :: 0 <= j < |head| ==> head[j] < |nodes|
    requires subclasses[..] == Register(base, head + InterfaceParents(nodes, ifs[..k]), i)
    modifies subclasses
    ensures subclasses[..] == Register(base, head + InterfaceParents(nodes, ifs[..k + 1]), i)
  {
    ghost var ps := head + InterfaceParents(nodes, ifs[..k]);
    InterfaceParentsNext(nodes, head, ifs, k);
    match Named(nodes, ifs[k])
    case None =>
      assert ps + [] == ps;
    case Some(p) =>
      RegisterNext(base, ps, p, i);
      AddChild(subclasses, p, i);
  }

  /** `subclasses[p].add(child)`. */
  method AddChild(subclasses: array<seq<nat>>, p: nat, child: nat)
    requires p < subclasses.Length
    modifies subclasses
    ensures subclasses[..] == old(subclasses[..])[p := old(subclasses[p]) + [child]]
  {
    subclasses[p] := subclasses[p] + [child];
  }

  /** One more interface of `ifs` adds its node, when it names one. */
  lemma InterfaceParentsNext(nodes: seq<ClassNode>, head: seq<nat>, ifs: seq<string>, k: nat)
    requires k < |ifs|
    ensures head + InterfaceParents(nodes, ifs[..k + 1]) == head + InterfaceParents(nodes, ifs[..k]) +
      match Named(nodes, ifs[k]) case None => [] case Some(p) => [p]
  {
    assert ifs[..k + 1][..k] == ifs[..k];
  }

  /** Registering with one more parent adds the child to that parent's list last. */
  lemma RegisterNext(subs: seq<seq<nat>>, ps: seq<nat>, p: nat, child: nat)
    requires forall k :: 0 <= k < |ps| ==> ps[k] < |subs|
    requires p < |subs|
    ensures Register(subs, ps + [p], child) == Register(subs, ps, child)[p := Register(subs, ps, child)[p] + [child]]
  {
    assert (ps + [p])[..|ps|] == ps;
  }

  /** The first `forEach`: every node adds itself to its parents' lists, in input order. */
  method BuildEdges(nodes: seq<ClassNode>) returns (subclasses: array<seq<nat>>)
    ensures fresh(subclasses) && subclasses[..] == Edges(nodes)
  {
    subclasses := new seq<nat>[|nodes|](_ => []);
    assert subclasses[..] == EdgesAfter(nodes, 0);
    for i := 0 to |nodes|
      invariant subclasses[..] == EdgesAfter(nodes, i)
    {
      AddToParents(subclasses, nodes, i);
    }
  }

  // ---------------------------------------------------------------------------
  // The depths
  // ---------------------------------------------------------------------------

  /** A node with no super class (or `java/lang/Object`) and no interfaces. */
  predicate Root(c: ClassNode) {
    (c.superName.None? || c.superName == Some(OBJECT)) && |c.interfaces| == 0
  }

  /** The depth before the passes: 0 for a root, `Int.MIN_VALUE` otherwise. */
  function StartDepth(c: ClassNode): I32 {
    if Root(c) then 0 else MIN_INT
  }

  function Start(nodes: seq<ClassNode>): (r: seq<I32>)
    ensures |r| == |nodes| && forall i :: 0 <= i < |nodes| ==> r[i] == StartDepth(nodes[i])
  {
    seq(|nodes|, i requires 0 <= i < |nodes| => StartDepth(nodes[i]))
  }

  /** `depth + 1` on a Kotlin `Int`, which wraps from `Int.MAX_VALUE` to `Int.MIN_VALUE`. */
  function Inc(d: I32): (r: I32)
    ensures r == Signed32(Wrap32(d + 1))
  {
    if d == MAX_INT then MIN_INT else d + 1
  }

  /** Every subclass position names a node. */
  predicate WellFormed(edges: seq<seq<nat>>, n: nat) {
    |edges| == n && forall p, k :: 0 <= p < n && 0 <= k < |edges[p]| ==> edges[p][k] < n
  }

  /** `a` is at most `b`, position by position. */
  predicate Below(a: seq<I32>, b: seq<I32>) {
    |a| == |b| && forall i :: 0 <= i < |a| ==> a[i] <= b[i]
  }

  /** One step on subclass `s` of `p`: raise its depth to `p`'s plus one if that is greater. */
  function Relax(d: seq<I32>, p: nat, s: nat): (r: seq<I32>)
    requires p < |d| && s < |d|
    ensures Below(d, r)
  {
    if Inc(d[p]) > d[s] then d[s := Inc(d[p])] else d
  }

  /** The steps on the subclasses of `p`, in list order. */
  function RelaxAll(d: seq<I32>, p: nat, subs: seq<nat>): (r: seq<I32>)
    requires p < |d| && forall k :: 0 <= k < |subs| ==> subs[k] < |d|
    ensures Below(d, r)
    decreases |subs|
  {
    if |subs| == 0 then d
    else Relax(RelaxAll(d, p, subs[..|subs| - 1]), p, subs[|subs| - 1])
  }

  /** A pass over the first `k` infos; each step sees the depths the earlier ones left. */
  function PassUpTo(d: seq<I32>, edges: seq<seq<nat>>, k: nat): (r: seq<I32>)
    requires WellFormed(edges, |d|) && k <= |d|
    ensures Below(d, r)
    decreases k
  {
    if k == 0 then d
    else RelaxAll(PassUpTo(d, edges, k - 1), k - 1, edges[k - 1])
  }

  /** One run of the body of `while (updated)`. */
  function Pass(d: seq<I32>, edges: seq<seq<nat>>): (r: seq<I32>)
    requires WellFormed(edges, |d|)
    ensures Below(d, r)
  {
    PassUpTo(d, edges, |d|)
  }

  /** How far the depths are from `Int.MAX_VALUE` altogether; each pass that changes something lowers it. */
  function Potential(d: seq<I32>): nat
    decreases |d|
  {
    if |d| == 0 then 0 else Potential(d[..|d| - 1]) + (MAX_INT - d[|d| - 1])
  }

  lemma {:induction false} PotentialDrops(a: seq<I32>, b: seq<I32>)
    requires Below(a, b)
    ensures Potential(b) <= Potential(a)
    ensures a != b ==> Potential(b) < Potential(a)
    decreases |a|
  {
    if |a| > 0 {
      var n := |a| - 1;
      PotentialDrops(a[..n], b[..n]);
      if a != b && a[..n] == b[..n] {
        assert a == a[..n] + [a[n]] && b == b[..n] + [b[n]];
      }
    }
  }

  /** The passes until one changes nothing. */
  function Fix(d: seq<I32>, edges: seq<seq<nat>>): (r: seq<I32>)
    requires WellFormed(edges, |d|)
    ensures |r| == |d|
    decreases Potential(d)
  {
    var next := Pass(d, edges);
    if next == d then d
    else
      PotentialDrops(d, next);
      Fix(next, edges)
  }

  /** The steps on the subclasses of `p`, in place; `raised` tells whether one raised a depth. */
  method RelaxChildren(depth: array<I32>, p: nat, subs: seq<nat>) returns (raised: bool)
    requires p < depth.Length && forall k :: 0 <= k < |subs| ==> subs[k] < depth.Length
    modifies depth
    ensures depth[..] == RelaxAll(old(depth[..]), p, subs)
    ensures raised <==> depth[..] != old(depth[..])
  {
    ghost var before := depth[..];
    raised := false;
    for k := 0 to |subs|
      invariant depth[..] == RelaxAll(before, p, subs[..k])
      invariant raised <==> depth[..] != before
    {
      assert subs[..k + 1][..k] == subs[..k];
      ghost var cur := depth[..];
      var s := subs[k];
      var newDepth := Inc(depth[p]);
      if newDepth > depth[s] {
        depth[s] := newDepth;
        raised := true;
        assert depth[s] > before[s];
      }
      assert depth[..] == Relax(cur, p, s);
    }
    assert subs[..|subs|] == subs;
  }

  /** One run of the loop body, in place; `updated` tells whether any depth was raised. */
  method RunPass(depth: array<I32>, edges: seq<seq<nat>>) returns (updated: bool)
    requires WellFormed(edges, depth.Length)
    modifies depth
    ensures depth[..] == Pass(old(depth[..]), edges)
    ensures updated <==> depth[..] != old(depth[..])
  {
    ghost var start := depth[..];
    updated := false;
    for p := 0 to depth.Length
      invariant depth[..] == PassUpTo(start, edges, p)
      invariant updated <==> depth[..] != start
    {
      ghost var cur := depth[..];
      var raised := RelaxChildren(depth, p, edges[p]);
      if raised {
        updated := true;
        assert Below(start, cur) && Below(cur, depth[..]);
        assert exists i :: 0 <= i < depth.Length && depth[i] > start[i];
      }
    }
  }

  /** The `while (updated)` loop over the depths of `nodes`, in place. */
  method ComputeDepths(nodes: seq<ClassNode>, edges: seq<seq<nat>>) returns (depth: array<I32>)
    requires WellFormed(edges, |nodes|)
    ensures fresh(depth) && depth[..] == Fix(Start(nodes), edges)
  {
    depth := new I32[|nodes|](i requires 0 <= i < |nodes| => StartDepth(nodes[i]));
    assert depth[..] == Start(nodes);
    var updated := true;
    while updated
      invariant depth.Length == |nodes|
      invariant updated ==> Fix(depth[..], edges) == Fix(Start(nodes), edges)
      invariant !updated ==> depth[..] == Fix(Start(nodes), edges)
      decreases Potential(depth[..]), if updated then 1 else 0
    {
      ghost var start := depth[..];
      updated := RunPass(depth, edges);
      PotentialDrops(start, depth[..]);
    }
  }

  // ---------------------------------------------------------------------------
  // What the passes reach
  // ---------------------------------------------------------------------------

  /** No step would raise any depth: every subclass is at least its parent's depth plus one. */
  predicate Closed(d: seq<I32>, edges: seq<seq<nat>>)
    requires WellFormed(edges, |d|)
  {
    forall p, k :: 0 <= p < |d| && 0 <= k < |edges[p]| ==> d[edges[p][k]] >= Inc(d[p])
  }

  lemma BelowBoth(a: seq<I32>, b: seq<I32>)
    requires Below(a, b) && Below(b, a)
    ensures a == b
  {
  }

  lemma {:induction false} RelaxAllChain(d: seq<I32>, p: nat, subs: seq<nat>, j: nat, k: nat)
    requires p < |d| && forall i :: 0 <= i < |subs| ==> subs[i] < |d|
    requires j <= k <= |subs|
    ensures Below(RelaxAll(d, p, subs[..j]), RelaxAll(d, p, subs[..k]))
    decreases k
  {
    if j < k {
      RelaxAllChain(d, p, subs, j, k - 1);
      assert subs[..k][..k - 1] == subs[..k - 1];
    }
  }

  lemma {:induction false} PassChain(d: seq<I32>, edges: seq<seq<nat>>, j: nat, k: nat)
    requires WellFormed(edges, |d|) && j <= k <= |d|
    ensures Below(PassUpTo(d, edges, j), PassUpTo(d, edges, k))
    decreases k
  {
    if j < k {
      PassChain(d, edges, j, k - 1);
    }
  }

  /** Steps that change nothing all together change nothing one by one. */
  lemma RelaxAllStill(d: seq<I32>, p: nat, subs: seq<nat>)
    requires p < |d| && forall i :: 0 <= i < |subs| ==> subs[i] < |d|
    requires RelaxAll(d, p, subs) == d
    ensures forall k :: 0 <= k < |subs| ==> d[subs[k]] >= Inc(d[p])
  {
    forall k | 0 <= k < |subs| ensures d[subs[k]] >= Inc(d[p]) {
      RelaxAllChain(d, p, subs, 0, k);
      RelaxAllChain(d, p, subs, k, |subs|);
      assert subs[..|subs|] == subs;
      BelowBoth(d, RelaxAll(d, p, subs[..k]));
      RelaxAllChain(d, p, subs, k + 1, |subs|);
      BelowBoth(d, RelaxAll(d, p, subs[..k + 1]));
      assert subs[..k + 1][..k] == subs[..k];
    }
  }

  /** A pass that changes nothing ends the loop on depths that are closed. */
  lemma StillClosed(d: seq<I32>, edges: seq<seq<nat>>)
    requires WellFormed(edges, |d|) && Pass(d, edges) == d
    ensures Closed(d, edges)
  {
    forall p | 0 <= p < |d| ensures forall k :: 0 <= k < |edges[p]| ==> d[edges[p][k]] >= Inc(d[p]) {
      PassChain(d, edges, 0, p);
      PassChain(d, edges, p, |d|);
      BelowBoth(d, PassUpTo(d, edges, p));
      PassChain(d, edges, p + 1, |d|);
      BelowBoth(d, PassUpTo(d, edges, p + 1));
      RelaxAllStill(d, p, edges[p]);
    }
  }

  /** The depths only grow, and the loop stops on depths no further step would raise. */
  lemma {:induction false} FixClosed(d: seq<I32>, edges: seq<seq<nat>>)
    requires WellFormed(edges, |d|)
    ensures Below(d, Fix(d, edges)) && Closed(Fix(d, edges), edges)
    decreases Potential(d)
  {
    var next := Pass(d, edges);
    if next == d {
      StillClosed(d, edges);
    } else {
      PotentialDrops(d, next);
      FixClosed(next, edges);
    }
  }

  /** Depths above `d` that are closed and never at `Int.MAX_VALUE`. */
  predicate Bound(d: seq<I32>, bound: seq<I32>, edges: seq<seq<nat>>)
    requires WellFormed(edges, |d|)
  {
    Below(d, bound) && Closed(bound, edges) && forall i :: 0 <= i < |bound| ==> bound[i] < MAX_INT
  }

  lemma {:induction false} RelaxAllBelow(d: seq<I32>, p: nat, subs: seq<nat>, bound: seq<I32>)
    requires p < |d| && forall k :: 0 <= k < |subs| ==> subs[k] < |d|
    requires Below(d, bound) && bound[p] < MAX_INT
    requires forall k :: 0 <= k < |subs| ==> bound[subs[k]] >= Inc(bound[p])
    ensures Below(RelaxAll(d, p, subs), bound)
    decreases |subs|
  {
    if |subs| > 0 {
      RelaxAllBelow(d, p, subs[..|subs| - 1], bound);
    }
  }

  lemma {:induction false} PassBelow(d: seq<I32>, edges: seq<seq<nat>>, k: nat, bound: seq<I32>)
    requires WellFormed(edges, |d|) && k <= |d| && Bound(d, bound, edges)
    ensures Below(PassUpTo(d, edges, k), bound)
    decreases k
  {
    if k > 0 {
      PassBelow(d, edges, k - 1, bound);
      RelaxAllBelow(PassUpTo(d, edges, k - 1), k - 1, edges[k - 1], bound);
    }
  }

  /**
   * The loop stops at the least closed depths: it never overshoots any
   * closed choice of depths above the start that stays below `Int.MAX_VALUE`.
   */
  lemma {:induction false} FixLeast(d: seq<I32>, edges: seq<seq<nat>>, bound: seq<I32>)
    requires WellFormed(edges, |d|) && Bound(d, bound, edges)
    ensures Below(Fix(d, edges), bound)
    decreases Potential(d)
  {
    var next := Pass(d, edges);
    if next != d {
      PotentialDrops(d, next);
      PassBelow(d, edges, |d|, bound);
      FixLeast(next, edges, bound);
    }
  }

  /** A node in no list keeps the depth it starts with. */
  lemma {:induction false} FixKeepsUntargeted(d: seq<I32>, edges: seq<seq<nat>>, x: nat)
    requires WellFormed(edges, |d|) && x < |d|
    requires forall p, k :: 0 <= p < |d| && 0 <= k < |edges[p]| ==> edges[p][k] != x
    ensures Fix(d, edges)[x] == d[x]
    decreases Potential(d)
  {
    var next := Pass(d, edges);
    if next != d {
      PassKeeps(d, edges, |d|, x);
      PotentialDrops(d, next);
      FixKeepsUntargeted(next, edges, x);
    }
  }

  lemma {:induction false} PassKeeps(d: seq<I32>, edges: seq<seq<nat>>, k: nat, x: nat)
    requires WellFormed(edges, |d|) && x < |d| && k <= |d|
    requires forall p, j :: 0 <= p < |d| && 0 <= j < |edges[p]| ==> edges[p][j] != x
    ensures PassUpTo(d, edges, k)[x] == d[x]
    decreases k
  {
    if k > 0 {
      PassKeeps(d, edges, k - 1, x);
      RelaxAllKeeps(PassUpTo(d, edges, k - 1), k - 1, edges[k - 1], x);
    }
  }

  lemma {:induction false} RelaxAllKeeps(d: seq<I32>, p: nat, subs: seq<nat>, x: nat)
    requires p < |d| && x < |d| && forall k :: 0 <= k < |subs| ==> subs[k] < |d| && subs[k] != x
    ensures RelaxAll(d, p, subs)[x] == d[x]
    decreases |subs|
  {
    if |subs| > 0 {
      RelaxAllKeeps(d, p, subs[..|subs| - 1], x);
    }
  }

  // ---------------------------------------------------------------------------
  // The infos
  // ---------------------------------------------------------------------------

  /** One `SubclassInfo`: the node, its final depth and its subclasses by position. */
  datatype Info = Info(node: ClassNode, depth: I32, subclasses: seq<nat>)

  /** `sortedBy { it.depth }`. */
  function ByDepth(a: Info, b: Info): int { CompareInt(a.depth, b.depth) }

  lemma ByDepthAntisymmetric()
    ensures Antisymmetric(ByDepth)
  {
  }

  /** The infos in input order, before sorting. */
  function Unsorted(nodes: seq<ClassNode>): (r: seq<Info>)
    ensures |r| == |nodes|
  {
    var edges := Edges(nodes);
    EdgesWellFormed(nodes);
    var depth := Fix(Start(nodes), edges);
    seq(|nodes|, i requires 0 <= i < |nodes| => Info(nodes[i], depth[i], edges[i]))
  }

  /** What `getSubclassInfo` returns. */
  function SubclassInfo(nodes: seq<ClassNode>): (r: seq<Info>)
    ensures |r| == |nodes|
  {
    Sort(Unsorted(nodes), ByDepth)
  }

  lemma EdgesWellFormed(nodes: seq<ClassNode>)
    ensures WellFormed(Edges(nodes), |nodes|)
  {
    forall p, k | 0 <= p < |nodes| && 0 <= k < |Edges(nodes)[p]| ensures Edges(nodes)[p][k] < |nodes| {
      var x := Edges(nodes)[p][k];
      EdgesAfterHas(nodes, |nodes|, p, x);
    }
  }

  /** `getSubclassInfo`: the subclass lists, the depth loop, then the stable sort by depth. */
  method GetSubclassInfo(nodes: seq<ClassNode>) returns (infos: seq<Info>)
    ensures infos == SubclassInfo(nodes)
  {
    var subclasses := BuildEdges(nodes);
    var edges := subclasses[..];
    EdgesWellFormed(nodes);
    var depth := ComputeDepths(nodes, edges);
    var unsorted := seq(|nodes|, i requires 0 <= i < |nodes| reads depth, subclasses =>
      Info(nodes[i], depth[i], subclasses[i]));
    assert unsorted == Unsorted(nodes);
    infos := Sort(unsorted, ByDepth);
  }

  /** The infos are the nodes' infos rearranged, ordered by depth. */
  lemma InfosSorted(nodes: seq<ClassNode>)
    ensures multiset(SubclassInfo(nodes)) == multiset(Unsorted(nodes))
    ensures forall i :: 0 < i < |nodes| ==> SubclassInfo(nodes)[i - 1].depth <= SubclassInfo(nodes)[i].depth
  {
    ByDepthAntisymmetric();
    var r := SubclassInfo(nodes);
    assert Sorted(r, ByDepth);
    forall i | 0 < i < |nodes| ensures r[i - 1].depth <= r[i].depth {
      assert ByDepth(r[i - 1], r[i]) <= 0;
    }
  }

  /**
   * The final depths: each at least its start, each subclass deeper than its
   * parent unless the parent sits at `Int.MAX_VALUE`, and none above a closed
   * choice that stays below `Int.MAX_VALUE`.
   */
  lemma DepthFacts(nodes: seq<ClassNode>, p: nat, x: nat)
    requires p < |nodes| && x < |nodes| && x in Edges(nodes)[p]
    ensures var u := Unsorted(nodes);
      u[x].depth >= StartDepth(nodes[x]) && (u[p].depth < MAX_INT ==> u[x].depth > u[p].depth)
  {
    var edges := Edges(nodes);
    EdgesWellFormed(nodes);
    FixClosed(Start(nodes), edges);
    var k :| 0 <= k < |edges[p]| && edges[p][k] == x;
  }

  /** A root is in no list, so it stays at depth 0. */
  lemma RootAtZero(nodes: seq<ClassNode>, x: nat)
    requires x < |nodes| && Root(nodes[x])
    ensures Unsorted(nodes)[x].depth == 0
  {
    var edges := Edges(nodes);
    EdgesWellFormed(nodes);
    forall p, k | 0 <= p < |nodes| && 0 <= k < |edges[p]| ensures edges[p][k] != x {
      SubclassEdge(nodes, p, x);
    }
    FixKeepsUntargeted(Start(nodes), edges, x);
  }
}
