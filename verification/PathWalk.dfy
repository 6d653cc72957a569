/**
 The breadth-first walk behind + and *: many starts advance together, one visited set per start, under
 a depth cap and a budget on the pairs held.

 For every start the walk returns each node that a walk of one to maxDepth edges reaches, exactly once,
 and it notes truncation exactly when the cap hides something reachable.
 */
module PathWalk {
  import opened Sequences
  import opened Terms
  import opened Relations

  datatype Quad = Quad(s: int, p: int, o: int, g: int)

  /** The arguments of one walk; `graph` None spans all graphs. */
  datatype Walk = Walk(preds: set<int>, graph: Option<int>, seed: Option<int>, inverse: bool, maxDepth: int, perGraph: bool)

  datatype Start = Start(node: int, gid: Option<int>)

  datatype Row = Row(start: int, reached: int, gid: Option<int>)

  /** A frontier entry: walk number and node. */
  datatype Entry = Entry(w: nat, node: int)

  function From(q: Quad, inverse: bool): int {
    if inverse then q.o else q.s
  }

  function To(q: Quad, inverse: bool): int {
    if inverse then q.s else q.o
  }

  predicate Selected(q: Quad, preds: set<int>, graph: Option<int>) {
    q.p in preds && (graph.Some? ==> q.g == graph.value)
  }

  /** The edges a walk follows inside one graph, or inside all of them. */
  function Hops(quads: seq<Quad>, preds: set<int>, graph: Option<int>, inverse: bool): Rel {
    set q | q in quads && Selected(q, preds, graph) :: Pair(From(q, inverse), To(q, inverse))
  }

  /** The graph a start's walk stays in. */
  function WalkGraph(k: Walk, s: Start): Option<int> {
    if k.perGraph then Some(if s.gid.Some? then s.gid.value else 0) else k.graph
  }

  function HopsOf(quads: seq<Quad>, k: Walk, s: Start): Rel {
    Hops(quads, k.preds, WalkGraph(k, s), k.inverse)
  }

  /** The starts: the seed, or every node with an edge to follow, per named graph under `GRAPH ?g`. */
  function StartOf(k: Walk, q: Quad): Start {
    Start(From(q, k.inverse), if k.perGraph then Some(q.g) else k.graph)
  }

  predicate Begins(k: Walk, q: Quad) {
    q.p in k.preds && if k.perGraph then q.g != 0 else k.graph.Some? ==> q.g == k.graph.value
  }

  function StartSet(quads: seq<Quad>, k: Walk): set<Start> {
    if k.seed.Some? then {Start(k.seed.value, k.graph)}
    else set q | q in quads && Begins(k, q) :: StartOf(k, q)
  }

  function Cap(k: Walk): nat {
    if k.maxDepth < 0 then 0 else k.maxDepth
  }

  /** Everything the walk is to return. */
  ghost function WalkRows(quads: seq<Quad>, k: Walk): set<Row> {
    set s, y | s in StartSet(quads, k) && y in Ball(HopsOf(quads, k, s), s.node, Cap(k)) :: Row(s.node, y, s.gid)
  }

  /** Some node is reachable, but only beyond the cap. */
  ghost predicate Truncates(quads: seq<Quad>, k: Walk) {
    exists s, y :: s in StartSet(quads, k)
      && Pair(s.node, y) in Plus(HopsOf(quads, k, s)) && Pair(s.node, y) !in Within(HopsOf(quads, k, s), Cap(k))
  }

  lemma WalkRowsMeaning(quads: seq<Quad>, k: Walk, s: Start, y: int)
    requires s in StartSet(quads, k)
    ensures Row(s.node, y, s.gid) in WalkRows(quads, k) <==> Pair(s.node, y) in Within(HopsOf(quads, k, s), Cap(k))
  {
    BallMeaning(HopsOf(quads, k, s), s.node, Cap(k), y);
    WithinMeaning(HopsOf(quads, k, s), Cap(k), s.node, y);
    hide HopsOf, StartSet, Within, Ball;
    assert forall t: Start :: t.node == s.node && t.gid == s.gid ==> t == s;
  }

  // ----- the rows, quad by quad -----

  /** A quad that leads from node a to node b: over a predicate of the path, in its direction, inside the
      graph the row belongs to. */
  ghost predicate Crossing(quads: seq<Quad>, k: Walk, gid: Option<int>, a: int, b: int) {
    exists q :: q in quads && q.p in k.preds
      && (if k.inverse then q.o == a && q.s == b else q.s == a && q.o == b)
      && (k.perGraph ==> q.g == if gid.Some? then gid.value else 0)
      && (!k.perGraph && k.graph.Some? ==> q.g == k.graph.value)
  }

  /** Where a row may start: at the seed; else at any node, per named graph under `GRAPH ?g`. */
  predicate StartsRight(k: Walk, row: Row) {
    if k.seed.Some? then row.start == k.seed.value && row.gid == k.graph
    else if k.perGraph then row.gid.Some? && row.gid.value != 0
    else row.gid == k.graph
  }

  ghost predicate Journey(quads: seq<Quad>, k: Walk, row: Row, nodes: seq<int>) {
    && |nodes| >= 2 && nodes[0] == row.start && nodes[|nodes| - 1] == row.reached
    && forall i :: 0 < i < |nodes| ==> Crossing(quads, k, row.gid, nodes[i - 1], nodes[i])
  }

  /** Some walk of one to `limit` quads leads from the row's start to its end. */
  ghost predicate Travelled(quads: seq<Quad>, k: Walk, row: Row, limit: int) {
    StartsRight(k, row) && exists nodes :: Journey(quads, k, row, nodes) && |nodes| <= limit + 1
  }

  lemma HopIsCrossing(quads: seq<Quad>, k: Walk, s: Start, a: int, b: int)
    ensures Pair(a, b) in HopsOf(quads, k, s) <==> Crossing(quads, k, s.gid, a, b)
  {
    if Pair(a, b) in HopsOf(quads, k, s) {
      var q :| q in quads && Selected(q, k.preds, WalkGraph(k, s)) && Pair(From(q, k.inverse), To(q, k.inverse)) == Pair(a, b);
    }
    if Crossing(quads, k, s.gid, a, b) {
      var q :| q in quads && q.p in k.preds
        && (if k.inverse then q.o == a && q.s == b else q.s == a && q.o == b)
        && (k.perGraph ==> q.g == if s.gid.Some? then s.gid.value else 0)
        && (!k.perGraph && k.graph.Some? ==> q.g == k.graph.value);
      assert Selected(q, k.preds, WalkGraph(k, s));
    }
  }

  lemma JourneyIsWalk(quads: seq<Quad>, k: Walk, row: Row, limit: nat)
    ensures Reaches(HopsOf(quads, k, Start(row.start, row.gid)), row.start, row.reached, limit)
      <==> exists nodes :: Journey(quads, k, row, nodes) && |nodes| <= limit + 1
  {
    var s := Start(row.start, row.gid);
    var r := HopsOf(quads, k, s);
    hide HopsOf, Crossing;
    forall a, b ensures Pair(a, b) in r <==> Crossing(quads, k, s.gid, a, b) { HopIsCrossing(quads, k, s, a, b); }
    if Reaches(r, row.start, row.reached, limit) {
      var n :| 1 <= n <= limit && Joins(r, row.start, row.reached, n);
      var w :| IsWalk(r, w) && |w| == n + 1 && w[0] == row.start && w[n] == row.reached;
      assert Journey(quads, k, row, w);
    }
    if nodes :| Journey(quads, k, row, nodes) && |nodes| <= limit + 1 {
      assert IsWalk(r, nodes);
      assert Joins(r, row.start, row.reached, |nodes| - 1);
    }
  }

  lemma StartOfJourney(quads: seq<Quad>, k: Walk, row: Row, nodes: seq<int>)
    requires Journey(quads, k, row, nodes)
    ensures Start(row.start, row.gid) in StartSet(quads, k) <==> StartsRight(k, row)
  {
    assert Crossing(quads, k, row.gid, nodes[1 - 1], nodes[1]);
    var q :| q in quads && q.p in k.preds
      && (if k.inverse then q.o == nodes[0] && q.s == nodes[1] else q.s == nodes[0] && q.o == nodes[1])
      && (k.perGraph ==> q.g == if row.gid.Some? then row.gid.value else 0)
      && (!k.perGraph && k.graph.Some? ==> q.g == k.graph.value);
    if k.seed.None? && StartsRight(k, row) {
      assert Begins(k, q) && StartOf(k, q) == Start(row.start, row.gid);
    }
  }

  /** The rows to return: those some walk of at most `maxDepth` quads leads to; none at all when that is
      not positive. */
  lemma RowsAreJourneys(quads: seq<Quad>, k: Walk, row: Row)
    ensures row in WalkRows(quads, k) <==> Travelled(quads, k, row, k.maxDepth)
    ensures k.maxDepth <= 0 ==> row !in WalkRows(quads, k)
  {
    hide Journey, StartSet, Ball, Reaches, HopsOf;
    var s := Start(row.start, row.gid);
    JourneyIsWalk(quads, k, row, Cap(k));
    BallMeaning(HopsOf(quads, k, s), s.node, Cap(k), row.reached);
    if nodes :| Journey(quads, k, row, nodes) { StartOfJourney(quads, k, row, nodes); JourneyLength(quads, k, row); }
    if row in WalkRows(quads, k) {
      var t, y :| t in StartSet(quads, k) && y in Ball(HopsOf(quads, k, t), t.node, Cap(k)) && row == Row(t.node, y, t.gid);
      assert t == s;
      JourneyLength(quads, k, row);
    }
  }

  lemma JourneyLength(quads: seq<Quad>, k: Walk, row: Row)
    ensures forall nodes :: Journey(quads, k, row, nodes) ==> |nodes| >= 2
  {
  }

  /** A cut is to be noted when some walk leads to a row that no walk of at most `maxDepth` quads does. */
  lemma TruncatesIsJourney(quads: seq<Quad>, k: Walk)
    ensures Truncates(quads, k) <==> exists row, n :: Travelled(quads, k, row, n) && !Travelled(quads, k, row, k.maxDepth)
  {
    hide Journey, StartSet, Within, Plus, HopsOf, WalkRows;
    if Truncates(quads, k) {
      var s, y :| s in StartSet(quads, k) && Pair(s.node, y) in Plus(HopsOf(quads, k, s)) && Pair(s.node, y) !in Within(HopsOf(quads, k, s), Cap(k));
      var row := Row(s.node, y, s.gid);
      PlusMeaning(HopsOf(quads, k, s), s.node, y);
      var n: nat :| Reaches(HopsOf(quads, k, s), s.node, y, n);
      JourneyIsWalk(quads, k, row, n);
      var nodes :| Journey(quads, k, row, nodes) && |nodes| <= n + 1;
      StartOfJourney(quads, k, row, nodes);
      WalkRowsMeaning(quads, k, s, y);
      RowsAreJourneys(quads, k, row);
      assert Travelled(quads, k, row, n);
    }
    if row, n :| Travelled(quads, k, row, n) && !Travelled(quads, k, row, k.maxDepth) {
      var nodes :| Journey(quads, k, row, nodes) && |nodes| <= n + 1;
      var s := Start(row.start, row.gid);
      StartOfJourney(quads, k, row, nodes);
      JourneyLength(quads, k, row);
      JourneyIsWalk(quads, k, row, n);
      PlusMeaning(HopsOf(quads, k, s), s.node, row.reached);
      WalkRowsMeaning(quads, k, s, row.reached);
      RowsAreJourneys(quads, k, row);
    }
  }

  // ----- one level -----

  function At(es: seq<Entry>, w: nat): set<int> {
    set e | e in es && e.w == w :: e.node
  }

  lemma AtMore(es: seq<Entry>, e: Entry, w: nat)
    ensures At(es + [e], w) == At(es, w) + if e.w == w then {e.node} else {}
  {
  }

  /** One expansion: every edge out of every frontier entry, in the entry's own graph. */
  method Expand(quads: seq<Quad>, k: Walk, starts: seq<Start>, frontier: seq<Entry>) returns (rows: seq<Entry>)
    requires forall e :: e in frontier ==> e.w < |starts|
    ensures forall e :: e in rows ==> e.w < |starts|
    ensures forall w :: 0 <= w < |starts| ==> At(rows, w) == Successors(HopsOf(quads, k, starts[w]), At(frontier, w))
  {
    rows := [];
    for i := 0 to |frontier|
      invariant forall e :: e in rows ==> e.w < |starts|
      invariant forall w :: 0 <= w < |starts| ==> At(rows, w) == Successors(HopsOf(quads, k, starts[w]), At(frontier[..i], w))
    {
      hide At, Successors, HopsOf;
      var before, e := rows, frontier[i];
      var found := ExpandEntry(quads, k, starts[e.w], e);
      rows := rows + found;
      assert frontier[..i + 1] == frontier[..i] + [e];
      forall w | 0 <= w < |starts|
        ensures At(rows, w) == Successors(HopsOf(quads, k, starts[w]), At(frontier[..i + 1], w))
      {
        AtMore(frontier[..i], e, w);
        AtSum(before, found, w);
        SuccessorsUnion(HopsOf(quads, k, starts[w]), At(frontier[..i], w), if e.w == w then {e.node} else {});
        NoSuccessors(HopsOf(quads, k, starts[w]));
      }
    }
    assert frontier[..|frontier|] == frontier;
  }

  lemma AtSum(a: seq<Entry>, b: seq<Entry>, w: nat)
    ensures At(a + b, w) == At(a, w) + At(b, w)
  {
  }

  lemma NoSuccessors(r: Rel)
    ensures Successors(r, {}) == {}
  {
  }

  method ExpandEntry(quads: seq<Quad>, k: Walk, s: Start, e: Entry) returns (found: seq<Entry>)
    ensures forall x :: x in found ==> x.w == e.w
    ensures At(found, e.w) == Successors(HopsOf(quads, k, s), {e.node})
    ensures forall w: nat :: w != e.w ==> At(found, w) == {}
  {
    found := [];
    for j := 0 to |quads|
      invariant forall x :: x in found ==> x.w == e.w
      invariant At(found, e.w) == Successors(HopsOf(quads[..j], k, s), {e.node})
    {
      var q := quads[j];
      assert quads[..j + 1] == quads[..j] + [q];
      HopsMore(quads[..j], q, k, s, e.node);
      if Selected(q, k.preds, WalkGraph(k, s)) && From(q, k.inverse) == e.node {
        AtMore(found, Entry(e.w, To(q, k.inverse)), e.w);
        found := found + [Entry(e.w, To(q, k.inverse))];
      }
    }
    assert quads[..|quads|] == quads;
  }

  lemma HopsMore(quads: seq<Quad>, q: Quad, k: Walk, s: Start, x: int)
    ensures Successors(HopsOf(quads + [q], k, s), {x})
      == Successors(HopsOf(quads, k, s), {x})
         + if Selected(q, k.preds, WalkGraph(k, s)) && From(q, k.inverse) == x then {To(q, k.inverse)} else {}
  {
    var g := WalkGraph(k, s);
    var now, was := HopsOf(quads + [q], k, s), HopsOf(quads, k, s);
    assert now == was + if Selected(q, k.preds, g) then {Pair(From(q, k.inverse), To(q, k.inverse))} else {};
  }

  // ----- the levels -----

  /** The nodes first reached at distance k; the start itself at distance zero. */
  function Rim(r: Rel, x: int, k: nat): set<int> {
    if k == 0 then {x} else Ball(r, x, k) - Ball(r, x, k - 1)
  }

  lemma RimStep(r: Rel, x: int, k: nat)
    ensures Ball(r, x, k + 1) == Ball(r, x, k) + Successors(r, Rim(r, x, k))
    ensures Rim(r, x, k + 1) == Successors(r, Rim(r, x, k)) - Ball(r, x, k)
  {
    if k > 0 { BallStep(r, x, k); } else { OneHop(r, x); }
    hide Ball, Successors;
    assert Ball(r, x, k) + Successors(r, Rim(r, x, k)) - Ball(r, x, k) == Successors(r, Rim(r, x, k)) - Ball(r, x, k);
  }

  lemma OneHop(r: Rel, x: int)
    ensures Ball(r, x, 0) == {} && Ball(r, x, 1) == Successors(r, {x})
  {
    assert {x} + Ball(r, x, 0) == {x};
  }

  /** The pairs found so far. */
  function Found(starts: seq<Start>, visited: seq<set<int>>): set<Row>
    requires |visited| == |starts|
  {
    set w, y | 0 <= w < |starts| && y in visited[w] :: Row(starts[w].node, y, starts[w].gid)
  }

  ghost predicate RowsRecord(out: seq<Row>, starts: seq<Start>, visited: seq<set<int>>) {
    && |visited| == |starts|
    && NoDuplicates(out) && Elements(out) == Found(starts, visited)
  }

  lemma ListsMore(out: seq<Row>, starts: seq<Start>, visited: seq<set<int>>, w: nat, n: int)
    requires NoDuplicates(starts) && RowsRecord(out, starts, visited) && w < |starts| && n !in visited[w]
    ensures RowsRecord(out + [Row(starts[w].node, n, starts[w].gid)], starts, visited[w := visited[w] + {n}])
  {
    var row, visited' := Row(starts[w].node, n, starts[w].gid), visited[w := visited[w] + {n}];
    forall v | 0 <= v < |starts| && starts[v] == starts[w] ensures v == w {}
    assert row !in Found(starts, visited) by {
      forall v, y | 0 <= v < |starts| && y in visited[v] ensures Row(starts[v].node, y, starts[v].gid) != row {
        if starts[v].node == row.start && starts[v].gid == row.gid { assert starts[v] == starts[w]; }
      }
    }
    assert row !in Elements(out);
    forall r ensures r in Found(starts, visited') <==> r in Found(starts, visited) + {row} {
      if r in Found(starts, visited) {
        var v, y :| 0 <= v < |starts| && y in visited[v] && r == Row(starts[v].node, y, starts[v].gid);
        assert y in visited'[v];
      }
      assert n in visited'[w];
    }
    assert Elements(out + [row]) == Elements(out) + {row};
  }

  /** What one level changes: the expanded nodes are visited, the new ones form the next frontier. */
  ghost predicate Absorbs(rows: seq<Entry>, before: seq<set<int>>, after: seq<set<int>>, next: seq<Entry>) {
    && |after| == |before|
    && (forall e :: e in next ==> e.w < |before|)
    && forall w :: 0 <= w < |before| ==> after[w] == before[w] + At(rows, w) && At(next, w) == At(rows, w) - before[w]
  }

  lemma AbsorbsMore(rows: seq<Entry>, e: Entry, before: seq<set<int>>, after: seq<set<int>>, next: seq<Entry>)
    requires Absorbs(rows, before, after, next) && e.w < |before|
    ensures if e.node in after[e.w] then Absorbs(rows + [e], before, after, next)
            else Absorbs(rows + [e], before, after[e.w := after[e.w] + {e.node}], next + [e])
  {
    hide At;
    forall w | 0 <= w < |before|
      ensures At(rows + [e], w) == At(rows, w) + if e.w == w then {e.node} else {}
      ensures At(next + [e], w) == At(next, w) + if e.w == w then {e.node} else {}
    {
      AtMore(rows, e, w);
      AtMore(next, e, w);
    }
  }

  method Level(starts: seq<Start>, rows: seq<Entry>, visited: seq<set<int>>, out: seq<Row>)
    returns (visited': seq<set<int>>, next: seq<Entry>, out': seq<Row>)
    requires NoDuplicates(starts) && RowsRecord(out, starts, visited)
    requires forall e :: e in rows ==> e.w < |starts|
    ensures Absorbs(rows, visited, visited', next) && RowsRecord(out', starts, visited')
  {
    visited', next, out' := visited, [], out;
    for j := 0 to |rows|
      invariant Absorbs(rows[..j], visited, visited', next)
      invariant RowsRecord(out', starts, visited')
    {
      hide RowsRecord, NoDuplicates, Absorbs;
      var e := rows[j];
      assert rows[..j + 1] == rows[..j] + [e];
      AbsorbsMore(rows[..j], e, visited, visited', next);
      ListsLength(out', starts, visited');
      if e.node !in visited'[e.w] {
        ListsMore(out', starts, visited', e.w, e.node);
        visited' := visited'[e.w := visited'[e.w] + {e.node}];
        out' := out' + [Row(starts[e.w].node, e.node, starts[e.w].gid)];
        next := next + [e];
      }
    }
    assert rows[..|rows|] == rows;
  }

  lemma ListsLength(out: seq<Row>, starts: seq<Start>, visited: seq<set<int>>)
    requires RowsRecord(out, starts, visited)
    ensures |visited| == |starts|
  {
  }

  /** After d levels: the balls of radius d, and their rims. */
  ghost predicate AtDepth(quads: seq<Quad>, k: Walk, starts: seq<Start>, visited: seq<set<int>>, frontier: seq<Entry>, d: nat) {
    && |visited| == |starts|
    && (forall e :: e in frontier ==> e.w < |starts|)
    && forall w :: 0 <= w < |starts| ==>
         && visited[w] == Ball(HopsOf(quads, k, starts[w]), starts[w].node, d)
         && At(frontier, w) == Rim(HopsOf(quads, k, starts[w]), starts[w].node, d)
  }

  lemma NextDepth(quads: seq<Quad>, k: Walk, starts: seq<Start>, rows: seq<Entry>,
                  visited: seq<set<int>>, frontier: seq<Entry>, visited': seq<set<int>>, next: seq<Entry>, d: nat)
    requires AtDepth(quads, k, starts, visited, frontier, d)
    requires forall w :: 0 <= w < |starts| ==> At(rows, w) == Successors(HopsOf(quads, k, starts[w]), At(frontier, w))
    requires Absorbs(rows, visited, visited', next)
    ensures AtDepth(quads, k, starts, visited', next, d + 1)
  {
    hide At, Successors, HopsOf, Ball, Rim;
    forall w | 0 <= w < |starts|
      ensures visited'[w] == Ball(HopsOf(quads, k, starts[w]), starts[w].node, d + 1)
      ensures At(next, w) == Rim(HopsOf(quads, k, starts[w]), starts[w].node, d + 1)
    {
      RimStep(HopsOf(quads, k, starts[w]), starts[w].node, d);
    }
  }

  /** Starts with their numbers: the frontier before the first level. */
  method FirstFrontier(starts: seq<Start>) returns (frontier: seq<Entry>)
    ensures |frontier| == |starts|
    ensures forall i :: 0 <= i < |starts| ==> frontier[i] == Entry(i, starts[i].node)
  {
    frontier := [];
    for w := 0 to |starts|
      invariant |frontier| == w
      invariant forall i :: 0 <= i < w ==> frontier[i] == Entry(i, starts[i].node)
    {
      frontier := frontier + [Entry(w, starts[w].node)];
    }
  }

  lemma FirstDepth(quads: seq<Quad>, k: Walk, starts: seq<Start>, visited: seq<set<int>>, frontier: seq<Entry>)
    requires |visited| == |starts| == |frontier|
    requires forall i :: 0 <= i < |starts| ==> visited[i] == {} && frontier[i] == Entry(i, starts[i].node)
    ensures AtDepth(quads, k, starts, visited, frontier, 0)
    ensures RowsRecord([], starts, visited)
  {
    hide HopsOf;
    forall w | 0 <= w < |starts| ensures At(frontier, w) == {starts[w].node} {
      assert frontier[w] in frontier;
    }
    assert Elements<Row>([]) == {};
  }

  // ----- starts -----

  method FindStarts(quads: seq<Quad>, k: Walk) returns (starts: seq<Start>)
    ensures NoDuplicates(starts) && Elements(starts) == StartSet(quads, k)
  {
    if k.seed.Some? {
      starts := [Start(k.seed.value, k.graph)];
      return;
    }
    starts := [];
    assert Elements<Start>([]) == {};
    for i := 0 to |quads|
      invariant NoDuplicates(starts) && Elements(starts) == StartSet(quads[..i], k)
    {
      var q := quads[i];
      assert quads[..i + 1] == quads[..i] + [q];
      StartsMore(quads[..i], q, k);
      assert StartOf(k, q) in starts <==> StartOf(k, q) in Elements(starts);
      if Begins(k, q) && StartOf(k, q) !in starts {
        assert Elements(starts + [StartOf(k, q)]) == Elements(starts) + {StartOf(k, q)};
        starts := starts + [StartOf(k, q)];
      }
    }
    assert quads[..|quads|] == quads;
  }

  lemma StartsMore(quads: seq<Quad>, q: Quad, k: Walk)
    requires k.seed.None?
    ensures StartSet(quads + [q], k) == StartSet(quads, k) + if Begins(k, q) then {StartOf(k, q)} else {}
  {
  }

  // ----- the whole walk -----

  /** The paths of the running statement that the depth cap has cut. */
  class Truncations {
    var cut: set<int>

    constructor ()
      ensures cut == {}
    {
      cut := {};
    }

    method Reset()
      modifies this
      ensures cut == {}
    {
      cut := {};
    }

    method Note(path: int)
      modifies this
      ensures cut == old(cut) + {path}
    {
      cut := cut + {path};
    }
  }

  function Budget(maxPairs: int): nat {
    if maxPairs < 1 then 1 else maxPairs
  }

  lemma FoundGrows(quads: seq<Quad>, k: Walk, starts: seq<Start>, visited: seq<set<int>>, out: seq<Row>, frontier: seq<Entry>, d: nat)
    requires AtDepth(quads, k, starts, visited, frontier, d) && RowsRecord(out, starts, visited)
    requires Elements(starts) == StartSet(quads, k)
    ensures d <= Cap(k) ==> |out| <= |WalkRows(quads, k)|
    ensures (forall w :: 0 <= w < |starts| ==> visited[w] == Ball(HopsOf(quads, k, starts[w]), starts[w].node, Cap(k)))
      ==> Elements(out) == WalkRows(quads, k) && |out| == |WalkRows(quads, k)|
  {
    hide HopsOf, Ball, StartSet, Rim, NoDuplicates;
    CardinalityOfNoDuplicates(out);
    forall w | 0 <= w < |starts| ensures starts[w] in StartSet(quads, k) {
      assert starts[w] in Elements(starts);
    }
    if d <= Cap(k) {
      forall w | 0 <= w < |starts| ensures visited[w] <= Ball(HopsOf(quads, k, starts[w]), starts[w].node, Cap(k)) {
        BallGrows(HopsOf(quads, k, starts[w]), starts[w].node, d, Cap(k));
      }
      assert Elements(out) <= WalkRows(quads, k);
      SubsetCardinality(Elements(out), WalkRows(quads, k));
    }
    if forall w :: 0 <= w < |starts| ==> visited[w] == Ball(HopsOf(quads, k, starts[w]), starts[w].node, Cap(k)) {
      forall r ensures r in Found(starts, visited) <==> r in WalkRows(quads, k) {
        if r in WalkRows(quads, k) {
          var s, y :| s in StartSet(quads, k) && y in Ball(HopsOf(quads, k, s), s.node, Cap(k)) && r == Row(s.node, y, s.gid);
          assert s in Elements(starts);
          var w :| 0 <= w < |starts| && starts[w] == s;
          assert y in visited[w];
        }
      }
    }
  }

  /** Nothing lies beyond the balls of radius d. */
  ghost predicate Exhausted(quads: seq<Quad>, k: Walk, starts: seq<Start>, d: nat) {
    forall w :: 0 <= w < |starts| ==>
      Ball(HopsOf(quads, k, starts[w]), starts[w].node, d + 1) == Ball(HopsOf(quads, k, starts[w]), starts[w].node, d)
  }

  lemma EmptyFrontier(quads: seq<Quad>, k: Walk, starts: seq<Start>, visited: seq<set<int>>, d: nat)
    requires AtDepth(quads, k, starts, visited, [], d)
    ensures Exhausted(quads, k, starts, d)
  {
    hide HopsOf, Ball;
    forall w | 0 <= w < |starts|
      ensures Ball(HopsOf(quads, k, starts[w]), starts[w].node, d + 1) == Ball(HopsOf(quads, k, starts[w]), starts[w].node, d)
    {
      RimStep(HopsOf(quads, k, starts[w]), starts[w].node, d);
      NoSuccessors(HopsOf(quads, k, starts[w]));
      assert At([], w) == {};
    }
  }

  lemma ExhaustedStays(quads: seq<Quad>, k: Walk, starts: seq<Start>, visited: seq<set<int>>, frontier: seq<Entry>, d: nat)
    requires AtDepth(quads, k, starts, visited, frontier, d) && Exhausted(quads, k, starts, d) && d <= Cap(k)
    ensures forall w :: 0 <= w < |starts| ==> visited[w] == Ball(HopsOf(quads, k, starts[w]), starts[w].node, Cap(k))
    ensures Exhausted(quads, k, starts, Cap(k))
  {
    hide HopsOf, Ball, Rim;
    forall w | 0 <= w < |starts|
      ensures Ball(HopsOf(quads, k, starts[w]), starts[w].node, Cap(k)) == Ball(HopsOf(quads, k, starts[w]), starts[w].node, d)
      ensures Ball(HopsOf(quads, k, starts[w]), starts[w].node, Cap(k) + 1) == Ball(HopsOf(quads, k, starts[w]), starts[w].node, d)
    {
      BallSaturates(HopsOf(quads, k, starts[w]), starts[w].node, d, Cap(k));
      BallSaturates(HopsOf(quads, k, starts[w]), starts[w].node, d, Cap(k) + 1);
    }
  }

  /** The cap cuts exactly when the balls at the cap could still grow. */
  lemma ExhaustedMeansNotTruncated(quads: seq<Quad>, k: Walk, starts: seq<Start>)
    requires Elements(starts) == StartSet(quads, k)
    ensures Exhausted(quads, k, starts, Cap(k)) <==> !Truncates(quads, k)
  {
    hide HopsOf, Ball, StartSet, Plus, Within;
    if Exhausted(quads, k, starts, Cap(k)) && Truncates(quads, k) {
      var s, y :| s in StartSet(quads, k)
        && Pair(s.node, y) in Plus(HopsOf(quads, k, s)) && Pair(s.node, y) !in Within(HopsOf(quads, k, s), Cap(k));
      assert s in Elements(starts);
      var w :| 0 <= w < |starts| && starts[w] == s;
      SaturatedIsClosure(HopsOf(quads, k, s), s.node, Cap(k), y);
      InBallIsWithin(HopsOf(quads, k, s), s.node, Cap(k), y);
    }
    if !Truncates(quads, k) {
      forall w | 0 <= w < |starts|
        ensures Ball(HopsOf(quads, k, starts[w]), starts[w].node, Cap(k) + 1) == Ball(HopsOf(quads, k, starts[w]), starts[w].node, Cap(k))
      {
        assert starts[w] in Elements(starts);
        NoGrowth(HopsOf(quads, k, starts[w]), starts[w].node, Cap(k));
      }
    }
  }

  lemma InBallIsWithin(r: Rel, x: int, d: nat, y: int)
    ensures y in Ball(r, x, d) <==> Pair(x, y) in Within(r, d)
  {
    BallMeaning(r, x, d, y);
    WithinMeaning(r, d, x, y);
  }

  lemma NoGrowth(r: Rel, x: int, d: nat)
    requires forall y :: Pair(x, y) in Plus(r) ==> Pair(x, y) in Within(r, d)
    ensures Ball(r, x, d + 1) == Ball(r, x, d)
  {
    hide Ball, Plus, Within;
    BallGrows(r, x, d, d + 1);
    forall y | y in Ball(r, x, d + 1) ensures y in Ball(r, x, d) {
      InBallIsWithin(r, x, d, y);
      BallMeaning(r, x, d + 1, y);
      PlusMeaning(r, x, y);
    }
  }

  /** Does the frontier lead to anything not yet visited? */
  method LeadsOn(quads: seq<Quad>, k: Walk, starts: seq<Start>, visited: seq<set<int>>, frontier: seq<Entry>, ghost d: nat) returns (more: bool)
    requires AtDepth(quads, k, starts, visited, frontier, d)
    ensures more <==> !Exhausted(quads, k, starts, d)
  {
    var rows := Expand(quads, k, starts, frontier);
    more := exists e :: e in rows && e.node !in visited[e.w];
    hide HopsOf, Ball, Successors;
    forall w | 0 <= w < |starts|
      ensures Ball(HopsOf(quads, k, starts[w]), starts[w].node, d + 1) == visited[w] + At(rows, w)
    {
      RimStep(HopsOf(quads, k, starts[w]), starts[w].node, d);
    }
    if more {
      var e :| e in rows && e.node !in visited[e.w];
      assert e.node in At(rows, e.w);
    }
  }

  /** `_path_walk`. Refused exactly when more pairs lie within the cap than the budget allows;
      otherwise every pair within the cap, once, with truncation noted exactly. */
  method WalkPaths(log: Truncations, quads: seq<Quad>, k: Walk, path: int, maxPairs: int) returns (r: Option<seq<Row>>)
    modifies log
    ensures r.None? <==> |WalkRows(quads, k)| > if maxPairs < 1 then 1 else maxPairs
    ensures r.Some? ==> NoDuplicates(r.value) && Elements(r.value) == WalkRows(quads, k)
    ensures r.Some? ==> forall row :: row in r.value <==> Travelled(quads, k, row, k.maxDepth)
    ensures log.cut == old(log.cut) + if r.Some? && Truncates(quads, k) then {path} else {}
  {
    hide StartSet, HopsOf, Ball, WalkRows, Found, Truncates, NoDuplicates, Travelled;
    var starts := FindStarts(quads, k);
    var visited := seq(|starts|, i => {});
    var frontier := FirstFrontier(starts);
    var out: seq<Row>, depth := [], 0;
    FirstDepth(quads, k, starts, visited, frontier);
    while frontier != [] && depth < k.maxDepth
      invariant 0 <= depth <= Cap(k) && log.cut == old(log.cut)
      invariant AtDepth(quads, k, starts, visited, frontier, depth)
      invariant RowsRecord(out, starts, visited) && |out| <= Budget(maxPairs)
      decreases Cap(k) - depth
    {
      hide AtDepth, RowsRecord;
      FrontierInRange(quads, k, starts, visited, frontier, depth);
      var rows := Expand(quads, k, starts, frontier);
      ghost var before, edge := visited, frontier;
      visited, frontier, out := Level(starts, rows, visited, out);
      NextDepth(quads, k, starts, rows, before, edge, visited, frontier, depth);
      depth := depth + 1;
      if |out| > Budget(maxPairs) {
        FoundGrows(quads, k, starts, visited, out, frontier, depth);
        return None;
      }
    }
    hide AtDepth, RowsRecord, Exhausted;
    FoundGrows(quads, k, starts, visited, out, frontier, depth);
    ExhaustedMeansNotTruncated(quads, k, starts);
    ghost var at := depth;
    if frontier == [] {
      EmptyFrontier(quads, k, starts, visited, at);
      ExhaustedStays(quads, k, starts, visited, frontier, at);
    } else {
      BallsAtDepth(quads, k, starts, visited, frontier, at);
      var more := LeadsOn(quads, k, starts, visited, frontier, at);
      if more {
        log.Note(path);
      }
    }
    ListsDistinct(out, starts, visited);
    r := Some(out);
    forall row ensures row in r.value <==> Travelled(quads, k, row, k.maxDepth) {
      assert row in r.value <==> row in Elements(r.value);
      RowsAreJourneys(quads, k, row);
    }
  }

  lemma FrontierInRange(quads: seq<Quad>, k: Walk, starts: seq<Start>, visited: seq<set<int>>, frontier: seq<Entry>, d: nat)
    requires AtDepth(quads, k, starts, visited, frontier, d)
    ensures forall e :: e in frontier ==> e.w < |starts|
  {
  }

  lemma BallsAtDepth(quads: seq<Quad>, k: Walk, starts: seq<Start>, visited: seq<set<int>>, frontier: seq<Entry>, d: nat)
    requires AtDepth(quads, k, starts, visited, frontier, d)
    ensures |visited| == |starts| && forall w :: 0 <= w < |starts| ==> visited[w] == Ball(HopsOf(quads, k, starts[w]), starts[w].node, d)
  {
  }

  lemma ListsDistinct(out: seq<Row>, starts: seq<Start>, visited: seq<set<int>>)
    requires RowsRecord(out, starts, visited)
    ensures NoDuplicates(out)
  {
  }
}
