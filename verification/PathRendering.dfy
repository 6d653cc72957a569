/**
 Rendering a path operator as a derived relation: scopes, zero-length pairs, and the pushdown of a
 bound endpoint into the walk. The theorems: an unseeded, untruncated walk is the path's relation; a
 seeded walk is the unseeded one restricted to the seed, under the same depth bound.
 */
module PathRendering {
  import opened Sequences
  import opened Terms
  import opened Relations
  import opened PathCompiler
  import opened PathWalk

  /** Unscoped patterns span all graphs; `GRAPH <g>` one graph; `GRAPH ?g` each named graph by itself. */
  datatype Scope = AllGraphs | OneGraph(g: int) | EachGraph

  /** Which end is bound, and its value at run time; None is SQL's NULL. */
  datatype Seed = Unseeded | FromSubject(value: Option<int>) | FromObject(value: Option<int>)

  datatype WalkSpec = WalkSpec(preds: set<int>, scope: Scope, swapped: bool, maxDepth: int, reflexive: bool)

  /** A row of the derived relation; gid only under `GRAPH ?g`. */
  datatype Derived = Derived(src: int, dst: int, gid: Option<int>)

  function ScopeGraph(scope: Scope): Option<int> {
    if scope.OneGraph? then Some(scope.g) else None
  }

  predicate InScope(q: Quad, graph: Option<int>) {
    graph.Some? ==> q.g == graph.value
  }

  /** A NULL seed is no node, never "unseeded". */
  function SeedNode(seed: Seed): int
    requires !seed.Unseeded?
  {
    if seed.value.Some? then seed.value.value else -1
  }

  predicate Seeded(spec: WalkSpec, seed: Seed) {
    !seed.Unseeded? && !spec.scope.EachGraph?
  }

  /** The walk's arguments; an object seed walks the edges the other way round. */
  function WalkFor(spec: WalkSpec, seed: Seed): Walk {
    Walk(spec.preds, ScopeGraph(spec.scope),
         if Seeded(spec, seed) then Some(SeedNode(seed)) else None,
         spec.swapped != (Seeded(spec, seed) && seed.FromObject?),
         spec.maxDepth, spec.scope.EachGraph?)
  }

  function Oriented(spec: WalkSpec, seed: Seed, r: Row): Derived {
    var gid := if spec.scope.EachGraph? then r.gid else None;
    if Seeded(spec, seed) && seed.FromObject? then Derived(r.reached, r.start, gid) else Derived(r.start, r.reached, gid)
  }

  /** The nodes of a graph: its subjects and objects. */
  function Nodes(quads: seq<Quad>, graph: Option<int>): set<int> {
    (set q | q in quads && InScope(q, graph) :: q.s) + (set q | q in quads && InScope(q, graph) :: q.o)
  }

  /** The zero-length pairs of the scope's nodes. */
  function NodePairs(quads: seq<Quad>, scope: Scope): set<Derived> {
    if scope.EachGraph? then
      (set q | q in quads && q.g != 0 :: Derived(q.s, q.s, Some(q.g))) + (set q | q in quads && q.g != 0 :: Derived(q.o, q.o, Some(q.g)))
    else set n | n in Nodes(quads, ScopeGraph(scope)) :: Derived(n, n, None)
  }

  /** The zero-length pairs of a walk: the seed's own when seeded, else those of the scope's nodes. */
  function Zero(quads: seq<Quad>, spec: WalkSpec, seed: Seed): set<Derived> {
    if Seeded(spec, seed) then {Derived(SeedNode(seed), SeedNode(seed), None)} else NodePairs(quads, spec.scope)
  }

  ghost function Walked(quads: seq<Quad>, spec: WalkSpec, seed: Seed): set<Derived> {
    set r | r in WalkRows(quads, WalkFor(spec, seed)) :: Oriented(spec, seed, r)
  }

  /** The rendered relation. */
  ghost function Rendered(quads: seq<Quad>, spec: WalkSpec, seed: Seed): set<Derived> {
    Walked(quads, spec, seed) + if spec.reflexive then Zero(quads, spec, seed) else {}
  }

  /** One step in the path's direction, inside one graph or across all. */
  function PathStep(quads: seq<Quad>, spec: WalkSpec, graph: Option<int>): Rel {
    Flip(spec.swapped, Hops(quads, spec.preds, graph, false))
  }

  lemma HopsFlip(quads: seq<Quad>, preds: set<int>, graph: Option<int>, inverse: bool)
    ensures Hops(quads, preds, graph, inverse) == Flip(inverse, Hops(quads, preds, graph, false))
  {
    var r, c := Hops(quads, preds, graph, false), Hops(quads, preds, graph, true);
    forall x, y ensures Pair(x, y) in c <==> Pair(y, x) in r {
      if Pair(x, y) in c {
        var q :| q in quads && Selected(q, preds, graph) && Pair(q.o, q.s) == Pair(x, y);
        assert Pair(From(q, false), To(q, false)) == Pair(y, x);
      }
      if Pair(y, x) in r {
        var q :| q in quads && Selected(q, preds, graph) && Pair(q.s, q.o) == Pair(y, x);
        assert Pair(From(q, true), To(q, true)) == Pair(x, y);
      }
    }
    SameRelation(c, Converse(r));
  }

  lemma WalkStep(quads: seq<Quad>, spec: WalkSpec, seed: Seed, s: Start)
    requires !spec.scope.EachGraph? || s.gid.Some?
    ensures var graph := if spec.scope.EachGraph? then s.gid else ScopeGraph(spec.scope);
      HopsOf(quads, WalkFor(spec, seed), s)
        == Flip(Seeded(spec, seed) && seed.FromObject?, PathStep(quads, spec, graph))
  {
    var k := WalkFor(spec, seed);
    var graph := if spec.scope.EachGraph? then s.gid else ScopeGraph(spec.scope);
    var turned := Seeded(spec, seed) && seed.FromObject?;
    assert WalkGraph(k, s) == graph;
    HopsFlip(quads, spec.preds, graph, k.inverse);
    FlipTwice(turned, spec.swapped, Hops(quads, spec.preds, graph, false));
  }

  // ----- the unseeded walk -----

  lemma HasStart(quads: seq<Quad>, k: Walk, g: Option<int>, x: int, y: int)
    requires k.seed.None? && (k.perGraph ==> g.Some? && g.value != 0) && (!k.perGraph ==> g == k.graph)
    requires Pair(x, y) in Hops(quads, k.preds, g, k.inverse)
    ensures Start(x, g) in StartSet(quads, k)
  {
    var q :| q in quads && Selected(q, k.preds, g) && Pair(From(q, k.inverse), To(q, k.inverse)) == Pair(x, y);
    assert Begins(k, q) && StartOf(k, q) == Start(x, g);
  }

  lemma StartGraph(quads: seq<Quad>, k: Walk, s: Start)
    requires k.seed.None? && s in StartSet(quads, k)
    ensures if k.perGraph then s.gid.Some? && s.gid.value != 0 else s.gid == k.graph
  {
  }

  lemma FirstStep(r: Rel, d: nat, x: int, y: int) returns (z: int)
    requires Pair(x, y) in Within(r, d)
    ensures Pair(x, z) in r
  {
    var a :| a in r && a.src == x;
    z := a.dst;
    assert a == Pair(x, z);
  }

  /** The graph a derived row was walked in. */
  function RowGraph(scope: Scope, gid: Option<int>): Option<int> {
    if scope.EachGraph? then gid else ScopeGraph(scope)
  }

  predicate GraphFits(scope: Scope, gid: Option<int>) {
    if scope.EachGraph? then gid.Some? && gid.value != 0 else gid.None?
  }

  lemma WalkedRow(quads: seq<Quad>, spec: WalkSpec, seed: Seed, d: Derived) returns (s: Start, y: int)
    requires d in Walked(quads, spec, seed)
    ensures s in StartSet(quads, WalkFor(spec, seed)) && d == Oriented(spec, seed, Row(s.node, y, s.gid))
    ensures Pair(s.node, y) in Within(HopsOf(quads, WalkFor(spec, seed), s), Cap(WalkFor(spec, seed)))
  {
    hide StartSet, HopsOf, Within, Ball;
    var k := WalkFor(spec, seed);
    var r :| r in WalkRows(quads, k) && Oriented(spec, seed, r) == d;
    var t, z :| t in StartSet(quads, k) && z in Ball(HopsOf(quads, k, t), t.node, Cap(k)) && r == Row(t.node, z, t.gid);
    s, y := t, z;
    InBallIsWithin(HopsOf(quads, k, s), s.node, Cap(k), y);
  }

  /** Unseeded, the walk is the bounded closure: of the scope's step, or of each named graph's. */
  lemma UnseededWalk(quads: seq<Quad>, spec: WalkSpec, d: Derived)
    ensures d in Walked(quads, spec, Unseeded)
      <==> GraphFits(spec.scope, d.gid) && Pair(d.src, d.dst) in Within(PathStep(quads, spec, RowGraph(spec.scope, d.gid)), Cap(WalkFor(spec, Unseeded)))
  {
    hide StartSet, HopsOf, Within, WalkRows, PathStep;
    var k, g := WalkFor(spec, Unseeded), RowGraph(spec.scope, d.gid);
    if d in Walked(quads, spec, Unseeded) {
      var s, y := WalkedRow(quads, spec, Unseeded, d);
      StartGraph(quads, k, s);
      WalkStep(quads, spec, Unseeded, s);
    }
    if GraphFits(spec.scope, d.gid) && Pair(d.src, d.dst) in Within(PathStep(quads, spec, g), Cap(k)) {
      var s := Start(d.src, g);
      WalkStep(quads, spec, Unseeded, s);
      var z := FirstStep(PathStep(quads, spec, g), Cap(k), d.src, d.dst);
      HopsAre(quads, k, s);
      HasStart(quads, k, g, d.src, z);
      WalkRowsMeaning(quads, k, s, d.dst);
      assert Oriented(spec, Unseeded, Row(d.src, d.dst, g)) == d;
    }
  }

  lemma HopsAre(quads: seq<Quad>, k: Walk, s: Start)
    ensures HopsOf(quads, k, s) == Hops(quads, k.preds, WalkGraph(k, s), k.inverse)
  {
  }

  // ----- seeding -----

  /** Does a row meet the seed? */
  predicate Meets(seed: Seed, d: Derived) {
    match seed
    case Unseeded => true
    case FromSubject(_) => d.src == SeedNode(seed)
    case FromObject(_) => d.dst == SeedNode(seed)
  }

  lemma SeededWalk(quads: seq<Quad>, spec: WalkSpec, seed: Seed, d: Derived)
    requires Seeded(spec, seed)
    ensures d in Walked(quads, spec, seed)
      <==> d.gid.None? && Meets(seed, d) && Pair(d.src, d.dst) in Within(PathStep(quads, spec, ScopeGraph(spec.scope)), Cap(WalkFor(spec, seed)))
  {
    hide HopsOf, Within, WalkRows, PathStep;
    var k, x := WalkFor(spec, seed), SeedNode(seed);
    var s := Start(x, ScopeGraph(spec.scope));
    var r := PathStep(quads, spec, ScopeGraph(spec.scope));
    assert StartSet(quads, k) == {s};
    WalkStep(quads, spec, seed, s);
    WithinConverse(r, Cap(k));
    if d in Walked(quads, spec, seed) {
      var t, y := WalkedRow(quads, spec, seed, d);
      assert t == s;
    }
    if d.gid.None? && Meets(seed, d) && Pair(d.src, d.dst) in Within(r, Cap(k)) {
      var y := if seed.FromObject? then d.src else d.dst;
      WalkRowsMeaning(quads, k, s, y);
      assert Oriented(spec, seed, Row(x, y, s.gid)) == d;
    }
  }

  ghost function Restricted(rows: set<Derived>, seed: Seed): set<Derived> {
    set d | d in rows && Meets(seed, d)
  }

  lemma SeededWalkRestricts(quads: seq<Quad>, spec: WalkSpec, seed: Seed)
    requires Seeded(spec, seed)
    ensures Walked(quads, spec, seed) == Restricted(Walked(quads, spec, Unseeded), seed)
  {
    hide Walked, Within, PathStep;
    forall d ensures d in Walked(quads, spec, seed) <==> d in Restricted(Walked(quads, spec, Unseeded), seed) {
      SeededWalk(quads, spec, seed, d);
      UnseededWalk(quads, spec, d);
    }
  }

  /** Seeding is a correct pushdown for +: the same rows as walking everything and then filtering, from
      either end, in either direction, under the same depth bound. */
  lemma SeedingPlus(quads: seq<Quad>, spec: WalkSpec, seed: Seed)
    requires Seeded(spec, seed) && !spec.reflexive
    ensures Rendered(quads, spec, seed) == Restricted(Rendered(quads, spec, Unseeded), seed)
  {
    hide Walked;
    SeededWalkRestricts(quads, spec, seed);
  }

  /** For * it agrees when the seed is a node of the scope, and otherwise adds exactly the seed's own
      zero-length pair. */
  lemma SeedingStar(quads: seq<Quad>, spec: WalkSpec, seed: Seed)
    requires Seeded(spec, seed) && spec.reflexive
    ensures var x, own := SeedNode(seed), Derived(SeedNode(seed), SeedNode(seed), None);
      && Rendered(quads, spec, seed) == Restricted(Rendered(quads, spec, Unseeded), seed) + {own}
      && (own in Restricted(Rendered(quads, spec, Unseeded), seed) <==> x in Nodes(quads, ScopeGraph(spec.scope)))
  {
    var x, own := SeedNode(seed), Derived(SeedNode(seed), SeedNode(seed), None);
    var nodes := Nodes(quads, ScopeGraph(spec.scope));
    SeededWalkRestricts(quads, spec, seed);
    UnseededWalk(quads, spec, own);
    var r := PathStep(quads, spec, ScopeGraph(spec.scope));
    if Pair(x, x) in Within(r, Cap(WalkFor(spec, Unseeded))) {
      var z := FirstStep(r, Cap(WalkFor(spec, Unseeded)), x, x);
      StepEndsAreNodes(quads, spec, x, z);
    }
    hide Walked, Nodes, Within, PathStep;
    var zs := Zero(quads, spec, Unseeded);
    forall d ensures d in Restricted(zs, seed) <==> d == own && x in nodes {
      if d in Restricted(zs, seed) {
        var n :| n in nodes && d == Derived(n, n, None);
      }
    }
  }

  lemma StepEndsAreNodes(quads: seq<Quad>, spec: WalkSpec, x: int, z: int)
    requires !spec.scope.EachGraph? && Pair(x, z) in PathStep(quads, spec, ScopeGraph(spec.scope))
    ensures x in Nodes(quads, ScopeGraph(spec.scope)) && z in Nodes(quads, ScopeGraph(spec.scope))
  {
    var g := ScopeGraph(spec.scope);
    HopsFlip(quads, spec.preds, g, spec.swapped);
    var q :| q in quads && Selected(q, spec.preds, g) && Pair(From(q, spec.swapped), To(q, spec.swapped)) == Pair(x, z);
    assert InScope(q, g);
  }

  /** Under `GRAPH ?g` a seed changes nothing. */
  lemma EachGraphIgnoresSeeds(quads: seq<Quad>, spec: WalkSpec, seed: Seed)
    requires spec.scope.EachGraph?
    ensures Rendered(quads, spec, seed) == Rendered(quads, spec, Unseeded)
  {
    assert WalkFor(spec, seed) == WalkFor(spec, Unseeded);
    hide WalkRows;
    forall r | r in WalkRows(quads, WalkFor(spec, seed)) ensures Oriented(spec, seed, r) == Oriented(spec, Unseeded, r) {}
    assert Walked(quads, spec, seed) == Walked(quads, spec, Unseeded);
  }

  /** A NULL seed matches nothing: no walk row, and no zero-length pair of a stored id. */
  lemma NullSeedMatchesNothing(quads: seq<Quad>, spec: WalkSpec, seed: Seed)
    requires Seeded(spec, seed) && seed.value.None?
    requires forall q :: q in quads ==> q.s >= 0 && q.o >= 0
    ensures Rendered(quads, spec, seed) <= {Derived(-1, -1, None)}
  {
    hide Walked;
    forall d ensures d !in Walked(quads, spec, seed) {
      SeededWalk(quads, spec, seed, d);
      hide Walked, Within, PathStep;
      NoStepAtMinusOne(quads, spec, d);
    }
  }

  lemma NoStepAtMinusOne(quads: seq<Quad>, spec: WalkSpec, d: Derived)
    requires !spec.scope.EachGraph? && forall q :: q in quads ==> q.s >= 0 && q.o >= 0
    ensures d.src == -1 || d.dst == -1 ==> forall k: nat :: Pair(d.src, d.dst) !in Within(PathStep(quads, spec, ScopeGraph(spec.scope)), k)
  {
    hide PathStep, Nodes;
    var r := PathStep(quads, spec, ScopeGraph(spec.scope));
    forall a | a in r ensures a.src >= 0 && a.dst >= 0 {
      assert a == Pair(a.src, a.dst);
      StepEndsAreNodes(quads, spec, a.src, a.dst);
      NodesAreIds(quads, ScopeGraph(spec.scope), a.src);
      NodesAreIds(quads, ScopeGraph(spec.scope), a.dst);
    }
  }

  lemma NodesAreIds(quads: seq<Quad>, graph: Option<int>, n: int)
    requires (forall q :: q in quads ==> q.s >= 0 && q.o >= 0) && n in Nodes(quads, graph)
    ensures n >= 0
  {
  }

  // ----- the path itself -----

  /** The scope's rows with their predicates by name. */
  function Decoded(quads: seq<Quad>, graph: Option<int>, name: int -> string): set<Edge> {
    set q | q in quads && InScope(q, graph) :: Edge(q.s, name(q.p), q.o)
  }

  /** The predicate ids are those the dictionary gives the path's predicates; a predicate that was
      never stored may be any id no row carries. */
  ghost predicate Resolves(quads: seq<Quad>, name: int -> string, iris: seq<string>, preds: set<int>) {
    forall q :: q in quads ==> (q.p in preds <==> name(q.p) in iris)
  }

  lemma StepIsStep(quads: seq<Quad>, graph: Option<int>, name: int -> string, iris: seq<string>, preds: set<int>)
    requires Resolves(quads, name, iris, preds)
    ensures Hops(quads, preds, graph, false) == StepOver(Decoded(quads, graph, name), iris)
  {
    var rows := Decoded(quads, graph, name);
    forall p ensures p in Hops(quads, preds, graph, false) <==> p in StepOver(rows, iris) {
      if p in Hops(quads, preds, graph, false) {
        var q :| q in quads && Selected(q, preds, graph) && Pair(q.s, q.o) == p;
        assert Edge(q.s, name(q.p), q.o) in rows;
      }
      if p in StepOver(rows, iris) {
        var e :| e in rows && e.iri in iris && Pair(e.src, e.dst) == p;
        var q :| q in quads && InScope(q, graph) && e == Edge(q.s, name(q.p), q.o);
        assert Selected(q, preds, graph) && Pair(From(q, false), To(q, false)) == p;
      }
    }
  }

  /** The spec of a compiled + or * path. */
  function SpecOf(plan: Plan, preds: set<int>, scope: Scope, maxDepth: int): WalkSpec
    requires plan.PlusPlan? || plan.StarPlan?
  {
    WalkSpec(preds, scope, plan.swapped, maxDepth, plan.StarPlan?)
  }

  lemma WithinIsPlus(quads: seq<Quad>, spec: WalkSpec, s: Start, x: int, y: int)
    requires !Truncates(quads, WalkFor(spec, Unseeded))
    requires s in StartSet(quads, WalkFor(spec, Unseeded)) && s.node == x
    ensures Pair(x, y) in Plus(HopsOf(quads, WalkFor(spec, Unseeded), s))
      <==> Pair(x, y) in Within(HopsOf(quads, WalkFor(spec, Unseeded), s), Cap(WalkFor(spec, Unseeded)))
  {
    hide StartSet, HopsOf, Plus, Within;
    var k := WalkFor(spec, Unseeded);
    var r := HopsOf(quads, k, s);
    PlusMeaning(r, x, y);
    WithinMeaning(r, Cap(k), x, y);
  }

  /** A walk that was not truncated, from no particular node, is the closure of the path's step in
      every graph the scope ranges over. */
  lemma UntruncatedWalk(quads: seq<Quad>, spec: WalkSpec, d: Derived)
    requires !Truncates(quads, WalkFor(spec, Unseeded))
    ensures d in Walked(quads, spec, Unseeded)
      <==> GraphFits(spec.scope, d.gid) && Pair(d.src, d.dst) in Plus(PathStep(quads, spec, RowGraph(spec.scope, d.gid)))
  {
    hide StartSet, HopsOf, Plus, Within, PathStep, Walked, Truncates;
    UnseededWalk(quads, spec, d);
    var k, g := WalkFor(spec, Unseeded), RowGraph(spec.scope, d.gid);
    var r, s := PathStep(quads, spec, g), Start(d.src, g);
    PlusMeaning(r, d.src, d.dst);
    WithinMeaning(r, Cap(k), d.src, d.dst);
    if GraphFits(spec.scope, d.gid) && Pair(d.src, d.dst) in Plus(r) {
      var z := FirstOfPlus(r, d.src, d.dst);
      WalkStep(quads, spec, Unseeded, s);
      HopsAre(quads, k, s);
      HasStart(quads, k, g, d.src, z);
      WithinIsPlus(quads, spec, s, d.src, d.dst);
    }
  }

  lemma FirstOfPlus(r: Rel, x: int, y: int) returns (z: int)
    requires Pair(x, y) in Plus(r)
    ensures Pair(x, z) in r
  {
    var a :| a in r && a.src == x;
    z := a.dst;
    assert a == Pair(x, z);
  }

  /** End to end: what is rendered for an untruncated + or * path is the meaning of the plan over the
      graph the row belongs to. */
  lemma RenderedIsPlan(quads: seq<Quad>, plan: Plan, preds: set<int>, scope: Scope, maxDepth: int, name: int -> string, d: Derived)
    requires plan.PlusPlan? || plan.StarPlan?
    requires Resolves(quads, name, plan.iris, preds)
    requires !Truncates(quads, WalkFor(SpecOf(plan, preds, scope, maxDepth), Unseeded))
    ensures var spec := SpecOf(plan, preds, scope, maxDepth);
      var g := RowGraph(spec.scope, d.gid);
      d in Rendered(quads, spec, Unseeded) <==>
        GraphFits(spec.scope, d.gid) && Pair(d.src, d.dst) in PlanRelation(Decoded(quads, g, name), Nodes(quads, g), plan)
  {
    var spec := SpecOf(plan, preds, scope, maxDepth);
    var g := RowGraph(spec.scope, d.gid);
    StepIsStep(quads, g, name, plan.iris, preds);
    UntruncatedWalk(quads, spec, d);
    hide Walked, Plus, Truncates, Nodes, StepOver, Decoded;
    ZeroIsZero(quads, spec, d);
  }

  /** And so, for a compiled path between two variables, it is the path's own SPARQL relation. */
  lemma RenderedIsPath(quads: seq<Quad>, e: PathExpr, plan: Plan, x: string, y: string, preds: set<int>, scope: Scope, maxDepth: int, name: int -> string, d: Derived)
    requires plan.PlusPlan? || plan.StarPlan?
    requires x != y && Compiles(plan, Var(x), e, Var(y))
    requires Resolves(quads, name, plan.iris, preds)
    requires !Truncates(quads, WalkFor(SpecOf(plan, preds, scope, maxDepth), Unseeded))
    ensures var spec := SpecOf(plan, preds, scope, maxDepth);
      var g := RowGraph(spec.scope, d.gid);
      d in Rendered(quads, spec, Unseeded) <==>
        GraphFits(spec.scope, d.gid) && Pair(d.src, d.dst) in Denote(Decoded(quads, g, name), Nodes(quads, g), e)
  {
    hide Rendered, PlanRelation, Denote, Resolves, Truncates, Decoded, Nodes;
    RenderedIsPlan(quads, plan, preds, scope, maxDepth, name, d);
    var g := RowGraph(scope, d.gid);
    var binding := (v: string) => if v == x then d.src else d.dst;
    assert PlanHolds(Decoded(quads, g, name), Nodes(quads, g), plan, Var(x), Var(y), binding)
      <==> PathHolds(Decoded(quads, g, name), Nodes(quads, g), e, Var(x), Var(y), binding);
  }

  lemma ZeroIsZero(quads: seq<Quad>, spec: WalkSpec, d: Derived)
    ensures d in Zero(quads, spec, Unseeded)
      <==> GraphFits(spec.scope, d.gid) && Pair(d.src, d.dst) in ZeroLength(Nodes(quads, RowGraph(spec.scope, d.gid)))
  {
  }

  // ----- the operators without recursion -----

  /** The edges over the predicate set, in the plan's direction, within the scope. */
  function DirectEdges(quads: seq<Quad>, preds: set<int>, scope: Scope, swapped: bool): set<Derived> {
    if scope.EachGraph? then set q | q in quads && q.p in preds && q.g != 0 :: Derived(From(q, swapped), To(q, swapped), Some(q.g))
    else set q | q in quads && Selected(q, preds, ScopeGraph(scope)) :: Derived(From(q, swapped), To(q, swapped), None)
  }

  /** Bound endpoints count as nodes, except under `GRAPH ?g`, where a node needs a named graph. */
  function BoundNodes(scope: Scope, bound: set<int>): set<int> {
    if scope.EachGraph? then {} else bound
  }

  function BoundPairs(scope: Scope, bound: set<int>): set<Derived> {
    set n | n in BoundNodes(scope, bound) :: Derived(n, n, None)
  }

  /** `|` is the direct edges; `?` adds the zero-length pairs. */
  function DirectRelation(quads: seq<Quad>, plan: Plan, preds: set<int>, scope: Scope, bound: set<int>): set<Derived>
    requires plan.OptionalPlan? || plan.AlternationPlan?
  {
    DirectEdges(quads, preds, scope, plan.swapped)
    + if plan.OptionalPlan? then NodePairs(quads, scope) + BoundPairs(scope, bound) else {}
  }

  lemma DirectEdge(quads: seq<Quad>, preds: set<int>, scope: Scope, swapped: bool, d: Derived)
    ensures d in DirectEdges(quads, preds, scope, swapped)
      <==> GraphFits(scope, d.gid) && Pair(d.src, d.dst) in Hops(quads, preds, RowGraph(scope, d.gid), swapped)
  {
    if d in DirectEdges(quads, preds, scope, swapped) && scope.EachGraph? {
      var q :| q in quads && q.p in preds && q.g != 0 && d == Derived(From(q, swapped), To(q, swapped), Some(q.g));
      assert Selected(q, preds, d.gid);
    }
  }

  lemma NodePair(quads: seq<Quad>, scope: Scope, d: Derived)
    ensures d in NodePairs(quads, scope)
      <==> GraphFits(scope, d.gid) && Pair(d.src, d.dst) in ZeroLength(Nodes(quads, RowGraph(scope, d.gid)))
  {
  }

  /** In every scope, `GRAPH ?g` included, the rows of `?` and `|` are the plan's meaning over the graph
      the row belongs to. */
  lemma DirectRelations(quads: seq<Quad>, plan: Plan, preds: set<int>, scope: Scope, name: int -> string, bound: set<int>, d: Derived)
    requires (plan.OptionalPlan? || plan.AlternationPlan?) && Resolves(quads, name, plan.iris, preds)
    ensures var g := RowGraph(scope, d.gid);
      d in DirectRelation(quads, plan, preds, scope, bound) <==>
        GraphFits(scope, d.gid)
        && Pair(d.src, d.dst) in PlanRelation(Decoded(quads, g, name), Nodes(quads, g) + BoundNodes(scope, bound), plan)
  {
    var g := RowGraph(scope, d.gid);
    StepIsStep(quads, g, name, plan.iris, preds);
    HopsFlip(quads, preds, g, plan.swapped);
    hide Nodes, StepOver, Decoded, Hops, DirectEdges, NodePairs;
    DirectEdge(quads, preds, scope, plan.swapped, d);
    NodePair(quads, scope, d);
  }

  // ----- truncation under a seed -----

  /** A seeded walk reports a cut exactly when something the seed concerns lies beyond the cap; the
      cuts elsewhere in the graph are not its business. */
  lemma SeededTruncation(quads: seq<Quad>, spec: WalkSpec, seed: Seed)
    requires Seeded(spec, seed)
    ensures var r, x := PathStep(quads, spec, ScopeGraph(spec.scope)), SeedNode(seed);
      Truncates(quads, WalkFor(spec, seed)) <==>
        if seed.FromObject? then exists y :: Pair(y, x) in Plus(r) && Pair(y, x) !in Within(r, Cap(WalkFor(spec, seed)))
        else exists y :: Pair(x, y) in Plus(r) && Pair(x, y) !in Within(r, Cap(WalkFor(spec, seed)))
  {
    var k, x := WalkFor(spec, seed), SeedNode(seed);
    var s := Start(x, ScopeGraph(spec.scope));
    var r := PathStep(quads, spec, ScopeGraph(spec.scope));
    assert StartSet(quads, k) == {s};
    WalkStep(quads, spec, seed, s);
    WithinConverse(r, Cap(k));
    PlusConverse(r);
    hide StartSet, HopsOf, Plus, Within, PathStep;
    if seed.FromObject? {
      forall y
        ensures Pair(x, y) in Plus(HopsOf(quads, k, s)) <==> Pair(y, x) in Plus(r)
        ensures Pair(x, y) in Within(HopsOf(quads, k, s), Cap(k)) <==> Pair(y, x) in Within(r, Cap(k))
      {
      }
    }
  }
}
