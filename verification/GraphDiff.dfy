/**
 The blank-node-aware graph difference: ground rows by set difference, blank-node rows by the bag of
 component digests. The theorems say exactly when the difference is empty.
 */
module GraphDiff {
  import opened Sequences
  import opened Text
  import opened Terms
  import opened Dictionary
  import opened Isomorphism
  import opened CanonicalDigest
  import opened Canonicalizer
  import opened CanonicalInvariance
  import opened Components
  import opened UnionFind
  import opened ComponentDiff

  // ----- splitting into components -----

  /** The number of blank node b, given out on first sight. */
  method NumberOf(forest: Forest, index: map<string, nat>, ghost names: seq<string>, b: string, ghost ts: seq<Triple>, ghost nodes: set<string>)
    returns (index': map<string, nat>, ghost names': seq<string>, k: nat)
    requires forest.Valid() && Tracks(Numbering(index, names, forest.root), ts, nodes)
    modifies forest
    ensures forest.Valid() && Tracks(Numbering(index', names', forest.root), ts, nodes + {b})
    ensures b in index' && index'[b] == k
    ensures forall c :: c in index ==> c in index' && index'[c] == index[c]
  {
    if b in index {
      index', names', k := index, names, index[b];
      assert nodes + {b} == nodes;
    } else {
      NewName(Numbering(index, names, forest.root), ts, nodes, b);
      k := forest.Push();
      index', names' := index[b := k], names + [b];
    }
  }

  /** The representative a triple is filed under: that of its subject's class, else its object's. */
  ghost function RootKey(n: Numbering): Triple -> int {
    (t: Triple) => if t.s.BNode? && t.s.id in n.index && n.index[t.s.id] < |n.root| then n.root[n.index[t.s.id]] as int
         else if t.o.BNode? && t.o.id in n.index && n.index[t.o.id] < |n.root| then n.root[n.index[t.o.id]] as int
         else -1
  }

  /** One union-find step per triple; the anchor is the number of one of its blank nodes. */
  method AddTriple(forest: Forest, index: map<string, nat>, ghost names: seq<string>, t: Triple, ghost ts: seq<Triple>)
    returns (index': map<string, nat>, ghost names': seq<string>, anchor: nat)
    requires forest.Valid() && Tracks(Numbering(index, names, forest.root), ts, BNodes(ts))
    requires TripleBNodes(t) != {}
    modifies forest
    ensures forest.Valid() && Tracks(Numbering(index', names', forest.root), ts + [t], BNodes(ts + [t]))
    ensures forall c :: c in index ==> c in index' && index'[c] == index[c]
    ensures if t.s.BNode? then t.s.id in index' && index'[t.s.id] == anchor else t.o.BNode? && t.o.id in index' && index'[t.o.id] == anchor
  {
    hide Tracks, BNodes;
    ghost var nodes := BNodes(ts);
    BNodesStep(ts, t);
    index', names' := index, names;
    if t.s.BNode? && t.o.BNode? {
      var a, b;
      index', names', a := NumberOf(forest, index', names', t.s.id, ts, nodes);
      index', names', b := NumberOf(forest, index', names', t.o.id, ts, nodes + {t.s.id});
      ghost var before := Numbering(index', names', forest.root);
      NumbersInRange(before, ts, nodes + {t.s.id} + {t.o.id});
      forest.Union(a, b);
      TripleLinked(before, Numbering(index', names', forest.root), ts, t, nodes + {t.s.id} + {t.o.id}, t.s.id, t.o.id);
      assert nodes + {t.s.id} + {t.o.id} == nodes + TripleBNodes(t);
      anchor := a;
    } else if t.s.BNode? {
      index', names', anchor := NumberOf(forest, index', names', t.s.id, ts, nodes);
      TripleAlone(Numbering(index', names', forest.root), ts, t, nodes + {t.s.id}, t.s.id);
      assert nodes + {t.s.id} == nodes + TripleBNodes(t);
    } else {
      index', names', anchor := NumberOf(forest, index', names', t.o.id, ts, nodes);
      TripleAlone(Numbering(index', names', forest.root), ts, t, nodes + {t.o.id}, t.o.id);
      assert nodes + {t.o.id} == nodes + TripleBNodes(t);
    }
  }

  lemma NumbersInRange(n: Numbering, ts: seq<Triple>, nodes: set<string>)
    requires Tracks(n, ts, nodes)
    ensures n.index.Keys == nodes && |n.names| == |n.root|
    ensures forall b :: b in n.index ==> n.index[b] < |n.root|
  {
  }

  /** Anchors: each triple's anchor is the number of the blank node it is filed under. */
  ghost predicate Anchors(anchors: seq<nat>, ts: seq<Triple>, index: map<string, nat>) {
    && |anchors| == |ts|
    && forall i :: 0 <= i < |ts| ==>
         if ts[i].s.BNode? then ts[i].s.id in index && index[ts[i].s.id] == anchors[i]
         else ts[i].o.BNode? && ts[i].o.id in index && index[ts[i].o.id] == anchors[i]
  }

  /** The rows filed under representative r. */
  ghost function Filed(n: Numbering, ts: seq<Triple>, r: int): seq<Triple> {
    Filter(KeyIs(RootKey(n), r), ts)
  }

  ghost function PartsOf(n: Numbering, roots: seq<nat>): seq<set<string>> {
    seq(|roots|, i requires 0 <= i < |roots| => Members(n, roots[i]))
  }

  ghost function RowsByRoot(n: Numbering, ts: seq<Triple>, roots: seq<nat>): seq<seq<Triple>> {
    seq(|roots|, i requires 0 <= i < |roots| => Filed(n, ts, roots[i]))
  }

  ghost predicate Ascends(roots: seq<nat>, bound: nat) {
    && (forall i, j :: 0 <= i < j < |roots| ==> roots[i] < roots[j])
    && (forall i :: 0 <= i < |roots| ==> roots[i] < bound)
  }

  lemma NothingTracked()
    ensures Tracks(Numbering(map[], [], []), [], BNodes([]))
  {
    NoBNodes();
  }

  lemma FiledStep(n: Numbering, ts: seq<Triple>, t: Triple, r: nat)
    ensures Filed(n, ts + [t], r) == Filed(n, ts, r) + if RootKey(n)(t) == r then [t] else []
  {
    hide RootKey;
    FilterAppend(KeyIs(RootKey(n), r), ts, [t]);
    assert Filter(KeyIs(RootKey(n), r), [t]) == (if RootKey(n)(t) == r then [t] else []) + Filter(KeyIs(RootKey(n), r), []);
  }

  ghost predicate IsFiled(byRoot: map<nat, seq<Triple>>, n: Numbering, ts: seq<Triple>) {
    && (forall r: nat :: r in byRoot <==> Filed(n, ts, r) != [])
    && (forall r: nat :: r in byRoot ==> byRoot[r] == Filed(n, ts, r) && r < |n.root| && n.root[r] == r)
  }

  lemma IsFiledStep(byRoot: map<nat, seq<Triple>>, n: Numbering, ts: seq<Triple>, t: Triple, root: nat)
    requires IsFiled(byRoot, n, ts) && RootKey(n)(t) == root && root < |n.root| && n.root[root] == root
    ensures IsFiled(byRoot[root := (if root in byRoot then byRoot[root] else []) + [t]], n, ts + [t])
  {
    hide RootKey, Filed;
    forall r: nat ensures Filed(n, ts + [t], r) == Filed(n, ts, r) + if r == root then [t] else [] {
      FiledStep(n, ts, t, r);
    }
  }

  lemma NoneFiled(n: Numbering)
    ensures IsFiled(map[], n, [])
  {
  }

  /** The second pass: each triple joins the group of its anchor's representative. */
  method FileByRoot(forest: Forest, triples: seq<Triple>, anchors: seq<nat>, ghost n: Numbering) returns (byRoot: map<nat, seq<Triple>>)
    requires forest.Valid() && forest.root == n.root && Anchors(anchors, triples, n.index)
    requires forall b :: b in n.index ==> n.index[b] < |n.root|
    modifies forest
    ensures forest.Valid() && forest.root == n.root
    ensures IsFiled(byRoot, n, triples)
  {
    hide IsFiled;
    byRoot := map[];
    NoneFiled(n);
    for i := 0 to |triples|
      invariant forest.Valid() && forest.root == n.root
      invariant IsFiled(byRoot, n, triples[..i])
    {
      var root := forest.Find(anchors[i]);
      assert triples[..i + 1] == triples[..i] + [triples[i]];
      IsFiledStep(byRoot, n, triples[..i], triples[i], root);
      byRoot := byRoot[root := (if root in byRoot then byRoot[root] else []) + [triples[i]]];
    }
    assert triples[..|triples|] == triples;
  }

  /** The groups in ascending order of their representatives. */
  method InRootOrder(byRoot: map<nat, seq<Triple>>, bound: nat, ghost n: Numbering, ghost ts: seq<Triple>)
    returns (groups: seq<seq<Triple>>, ghost roots: seq<nat>)
    requires IsFiled(byRoot, n, ts) && bound == |n.root|
    ensures Ascends(roots, bound) && groups == RowsByRoot(n, ts, roots)
    ensures forall i :: 0 <= i < |roots| ==> n.root[roots[i]] == roots[i]
    ensures forall r: nat :: Filed(n, ts, r) != [] ==> r in roots
  {
    hide Filed;
    groups, roots := [], [];
    for r := 0 to bound
      invariant Ascends(roots, r) && groups == RowsByRoot(n, ts, roots)
      invariant forall i :: 0 <= i < |roots| ==> roots[i] in byRoot
      invariant forall x: nat :: x < r && x in byRoot ==> x in roots
    {
      if r in byRoot {
        groups := groups + [byRoot[r]];
        roots := roots + [r];
      }
    }
  }

  lemma KeyOfTriple(n: Numbering, ts: seq<Triple>, t: Triple, b: string)
    requires Tracks(n, ts, BNodes(ts)) && t in ts && b in TripleBNodes(t)
    ensures b in n.index && n.index[b] < |n.root| && RootKey(n)(t) == n.root[n.index[b]]
  {
    hide BNodes;
    assert SameClass(n, b, b);
    if t.s.BNode? {
      assert t.s.id in TripleBNodes(t);
      assert SameClass(n, t.s.id, b);
    }
  }

  lemma TouchesItsClass(n: Numbering, ts: seq<Triple>, t: Triple, r: nat)
    requires Tracks(n, ts, BNodes(ts)) && t in ts && TripleBNodes(t) != {}
    ensures Touches(t, Members(n, r)) <==> RootKey(n)(t) == r
  {
    hide BNodes, RootKey;
    NumbersInRange(n, ts, BNodes(ts));
    if Touches(t, Members(n, r)) {
      var b :| b in TripleBNodes(t) * Members(n, r);
      KeyOfTriple(n, ts, t, b);
    }
    if RootKey(n)(t) == r {
      var b :| b in TripleBNodes(t);
      KeyOfTriple(n, ts, t, b);
      assert n.names[n.index[b]] == b;
      assert b in Members(n, r);
      assert b in TripleBNodes(t) * Members(n, r);
    }
  }

  lemma FiledIsPart(n: Numbering, ts: seq<Triple>, r: nat)
    requires Tracks(n, ts, BNodes(ts)) && AllBlank(ts)
    ensures Filed(n, ts, r) == PartOf(ts, Members(n, r))
  {
    hide BNodes, RootKey, Tracks, Members, TripleBNodes;
    forall t | t in ts ensures KeyIs(RootKey(n), r)(t) == Touching(Members(n, r))(t) {
      TouchesItsClass(n, ts, t, r);
    }
    FilterSame(KeyIs(RootKey(n), r), Touching(Members(n, r)), ts);
  }

  lemma MembersDistinct(n: Numbering, ts: seq<Triple>, p: nat, q: nat)
    requires Tracks(n, ts, BNodes(ts)) && p < |n.root| && q < |n.root| && n.root[p] == p && n.root[q] == q
    requires Members(n, p) == Members(n, q)
    ensures p == q
  {
    hide BNodes, TripleBNodes;
    assert n.names[p] in Members(n, p);
    var k :| 0 <= k < |n.root| && n.root[k] == q && n.names[k] == n.names[p];
    assert n.index[n.names[k]] == k && n.index[n.names[p]] == p;
  }

  lemma EveryNodeFiled(n: Numbering, ts: seq<Triple>, b: string) returns (r: nat)
    requires Tracks(n, ts, BNodes(ts)) && b in BNodes(ts)
    ensures b in Members(n, r) && Filed(n, ts, r) != []
  {
    var t :| t in ts && b in TripleBNodes(t);
    hide BNodes, RootKey, TripleBNodes;
    KeyOfTriple(n, ts, t, b);
    NumbersInRange(n, ts, BNodes(ts));
    r := n.root[n.index[b]];
    assert n.names[n.index[b]] == b;
    assert KeyIs(RootKey(n), r)(t);
    assert t in Filed(n, ts, r);
  }

  lemma FiledIsDecomposition(n: Numbering, ts: seq<Triple>, roots: seq<nat>)
    requires Tracks(n, ts, BNodes(ts)) && AllBlank(ts)
    requires Ascends(roots, |n.root|)
    requires forall i :: 0 <= i < |roots| ==> n.root[roots[i]] == roots[i]
    requires forall r: nat :: Filed(n, ts, r) != [] ==> r in roots
    ensures Decomposes(PartsOf(n, roots), ts)
    ensures RowsByRoot(n, ts, roots) == GroupsOfParts(ts, PartsOf(n, roots))
  {
    hide BNodes, Tracks, RootKey, Members, TripleBNodes, Filed, PartOf, Component;
    var parts := PartsOf(n, roots);
    forall i | 0 <= i < |parts| ensures Component(ts, parts[i]) && RowsByRoot(n, ts, roots)[i] == PartOf(ts, parts[i]) {
      ClassIsComponent(n, ts, roots[i]);
      FiledIsPart(n, ts, roots[i]);
    }
    forall i, j | 0 <= i < j < |parts| ensures parts[i] != parts[j] {
      if parts[i] == parts[j] { MembersDistinct(n, ts, roots[i], roots[j]); }
    }
    forall b | b in BNodes(ts) ensures exists i :: 0 <= i < |parts| && b in parts[i] {
      var r := EveryNodeFiled(n, ts, b);
      var i := IndexOf(roots, r);
      assert parts[i] == Members(n, r);
    }
  }

  /** The first pass: number the blank nodes and link the two ends of every triple. */
  method LinkTriples(triples: seq<Triple>) returns (forest: Forest, anchors: seq<nat>, ghost n: Numbering)
    requires AllBlank(triples)
    ensures fresh(forest) && forest.Valid() && forest.root == n.root
    ensures Tracks(n, triples, BNodes(triples)) && Anchors(anchors, triples, n.index)
  {
    hide Tracks, BNodes, TripleBNodes;
    forest := new Forest();
    var index: map<string, nat> := map[];
    ghost var names: seq<string> := [];
    anchors := [];
    NothingTracked();
    for i := 0 to |triples|
      invariant forest.Valid()
      invariant Tracks(Numbering(index, names, forest.root), triples[..i], BNodes(triples[..i]))
      invariant Anchors(anchors, triples[..i], index)
    {
      var anchor;
      assert triples[..i + 1] == triples[..i] + [triples[i]];
      index, names, anchor := AddTriple(forest, index, names, triples[i], triples[..i]);
      anchors := anchors + [anchor];
    }
    assert triples[..|triples|] == triples;
    n := Numbering(index, names, forest.root);
  }

  /** `components`, without the digests: the rows by component, each component's rows in order. */
  method SplitComponents(triples: seq<Triple>) returns (groups: seq<seq<Triple>>, ghost parts: seq<set<string>>)
    requires AllBlank(triples)
    ensures Decomposes(parts, triples) && groups == GroupsOfParts(triples, parts)
  {
    hide Tracks, BNodes, TripleBNodes, IsFiled, Filed, Decomposes;
    var forest, anchors; ghost var n;
    forest, anchors, n := LinkTriples(triples);
    NumbersInRange(n, triples, BNodes(triples));
    var byRoot := FileByRoot(forest, triples, anchors, n);
    ghost var roots;
    groups, roots := InRootOrder(byRoot, |forest.parent|, n, triples);
    parts := PartsOf(n, roots);
    FiledIsDecomposition(n, triples, roots);
  }

  // ----- the difference -----

  /** Why a diff refuses to answer: too many rows, or a component whose canonicalization gave up. */
  datatype Refusal = OverBudget | Uncanonical(budget: Budget)

  datatype Answer<T> = Done(value: T) | Stopped(why: Refusal)

  predicate IsBlankRow(t: Triple) {
    (t.s.BNode? || t.o.BNode?) && !t.s.Lit?
  }

  /** The rows `components` reads; a row whose subject is a literal is skipped. */
  function BlankRows(rows: seq<Triple>): seq<Triple> {
    Filter(IsBlankRow, rows)
  }

  lemma BlankRowsExactly(rows: seq<Triple>, t: Triple)
    ensures t in BlankRows(rows) <==> t in rows && !t.s.Lit? && (t.s.BNode? || t.o.BNode?)
  {
    assert IsBlankRow(t) <==> !t.s.Lit? && (t.s.BNode? || t.o.BNode?);
  }

  /** A graph's asserted rows: the ids stored, and the terms they read as. */
  datatype GraphRows = GraphRows(quads: seq<QuadRow>, triples: seq<Triple>)

  /** Row by row, the terms are what the ids stand for. */
  ghost predicate ReadsAs(dict: seq<DictRow>, g: GraphRows) {
    |g.quads| == |g.triples| && forall i :: 0 <= i < |g.quads| ==> QuadDecodes(dict, g.quads[i], g.triples[i])
  }

  datatype IdTriple = IdTriple(s: int, p: int, o: int)

  function IdsOf(q: QuadRow): IdTriple {
    IdTriple(q.s, q.p, q.o)
  }

  /** The ground rows, compared as a set of id triples. */
  function Ground(g: GraphRows): set<IdTriple> {
    set i | 0 <= i < |g.quads| && i < |g.triples| && IsGround(g.triples[i]) :: IdsOf(g.quads[i])
  }

  /** The described component of a group of rows. */
  ghost function PartFor(sha: string -> string): seq<Triple> -> Part {
    g => Part(Digest(sha, g), g, CanonicalLabels(sha, g))
  }

  lemma BlankRowsAllBlank(rows: seq<Triple>)
    ensures AllBlank(BlankRows(rows))
  {
    forall t | t in BlankRows(rows) ensures TripleBNodes(t) != {} {
      assert IsBlankRow(t);
      if t.s.BNode? { assert t.s.id in TripleBNodes(t); } else { assert t.o.id in TripleBNodes(t); }
    }
  }

  method CanonicalizeGroups(sha: string -> string, groups: seq<seq<Triple>>) returns (r: Answer<seq<Part>>)
    ensures r.Done? ==> r.value == Map(PartFor(sha), groups)
    ensures r.Stopped? ==> r.why.Uncanonical?
    ensures (forall g :: g in groups ==> TieFree(sha, g)) ==> r.Done?
  {
    hide Digest, CanonicalLabels, CanonicalLines, TieFree;
    var out: seq<Part> := [];
    for i := 0 to |groups|
      invariant out == Map(PartFor(sha), groups[..i])
    {
      var c := CanonicalizeLabeled(sha, groups[i]);
      if c.Refused? {
        return Stopped(Uncanonical(c.budget));
      }
      out := out + [Part(c.value.1, groups[i], c.value.2)];
    }
    assert groups[..|groups|] == groups;
    r := Done(out);
  }

  /** `components`: the blank-node components of a graph, each canonicalized on its own. */
  method GraphComponents(sha: string -> string, rows: seq<Triple>, maxRows: nat) returns (r: Answer<seq<Part>>, ghost parts: seq<set<string>>)
    ensures r == Stopped(OverBudget) <==> |BlankRows(rows)| > (if maxRows < 1 then 1 else maxRows)
    ensures r.Done? ==> Decomposes(parts, BlankRows(rows))
    ensures r.Done? ==> r.value == Map(PartFor(sha), GroupsOfParts(BlankRows(rows), parts))
  {
    hide Decomposes, TieFree;
    var triples := BlankRows(rows);
    parts := [];
    if |triples| > (if maxRows < 1 then 1 else maxRows) {
      return Stopped(OverBudget), [];
    }
    BlankRowsAllBlank(rows);
    var groups;
    groups, parts := SplitComponents(triples);
    r := CanonicalizeGroups(sha, groups);
  }

  datatype Difference = Difference(
    groundRemoved: set<IdTriple>, groundAdded: set<IdTriple>, groundCommon: set<IdTriple>,
    removed: seq<Part>, added: seq<Part>, common: nat)

  predicate IsEmpty(d: Difference) {
    d.groundRemoved == {} && d.groundAdded == {} && d.removed == [] && d.added == []
  }

  /** Equal ground sets and equal bags of component digests, for these decompositions. */
  ghost predicate NoDifference(sha: string -> string, a: GraphRows, pa: seq<set<string>>, b: GraphRows, pb: seq<set<string>>) {
    && Ground(a) == Ground(b)
    && multiset(Digests(sha, GroupsOfParts(BlankRows(a.triples), pa))) == multiset(Digests(sha, GroupsOfParts(BlankRows(b.triples), pb)))
  }

  /** What the two graphs' decompositions say the difference is. */
  ghost predicate IsDifference(d: Difference, sha: string -> string, a: GraphRows, pa: seq<set<string>>, b: GraphRows, pb: seq<set<string>>) {
    var xs, ys := Map(PartFor(sha), GroupsOfParts(BlankRows(a.triples), pa)), Map(PartFor(sha), GroupsOfParts(BlankRows(b.triples), pb));
    && d.groundRemoved == Ground(a) - Ground(b) && d.groundAdded == Ground(b) - Ground(a) && d.groundCommon == Ground(a) * Ground(b)
    && d.removed == Removed(xs, ys) && d.added == Added(xs, ys)
    && d.common + |d.removed| == |pa| && d.common + |d.added| == |pb|
  }

  /** `graph_diff_summary`: ground rows by set difference, components by the bag of digests. */
  method GraphDifference(sha: string -> string, a: GraphRows, b: GraphRows, maxRows: nat)
    returns (r: Answer<Difference>, ghost pa: seq<set<string>>, ghost pb: seq<set<string>>)
    ensures r.Done? ==> Decomposes(pa, BlankRows(a.triples)) && Decomposes(pb, BlankRows(b.triples))
    ensures r.Done? ==> IsDifference(r.value, sha, a, pa, b, pb)
    ensures r.Done? ==> (IsEmpty(r.value) <==> NoDifference(sha, a, pa, b, pb))
    ensures |BlankRows(a.triples)| > (if maxRows < 1 then 1 else maxRows) ==> r == Stopped(OverBudget)
    ensures r == Stopped(OverBudget) ==> |BlankRows(a.triples)| > (if maxRows < 1 then 1 else maxRows) || |BlankRows(b.triples)| > (if maxRows < 1 then 1 else maxRows)
  {
    hide Decomposes, Digest, CanonicalLabels, Removed, Added, DigestOrder, BlankRows;
    var ga, gb := Ground(a), Ground(b);
    var ca, cb;
    ca, pa := GraphComponents(sha, a.triples, maxRows);
    pb := [];
    if ca.Stopped? {
      return Stopped(ca.why), pa, pb;
    }
    cb, pb := GraphComponents(sha, b.triples, maxRows);
    if cb.Stopped? {
      return Stopped(cb.why), pa, pb;
    }
    var removed, added, common := CompareComponents(ca.value, cb.value);
    EveryComponentAccountedFor(ca.value, cb.value);
    NothingLeftMeansEqualBags(ca.value, cb.value);
    DigestsAreDigests(sha, GroupsOfParts(BlankRows(a.triples), pa));
    DigestsAreDigests(sha, GroupsOfParts(BlankRows(b.triples), pb));
    var d := Difference(ga - gb, gb - ga, ga * gb, removed, added, common);
    BothDifferencesEmpty(ga, gb);
    r := Done(d);
  }

  lemma BothDifferencesEmpty<T>(a: set<T>, b: set<T>)
    ensures a - b == {} && b - a == {} <==> a == b
  {
    if a - b == {} && b - a == {} {
      forall x ensures x in a <==> x in b {
        assert x !in a - b && x !in b - a;
      }
    }
  }

  lemma DigestsAreDigests(sha: string -> string, groups: seq<seq<Triple>>)
    ensures DigestsOf(Map(PartFor(sha), groups)) == Digests(sha, groups)
  {
    hide Digest, CanonicalLabels;
  }
}
