/**
 A tie that is settled only by the searches one step further down.
 */
module ChainExample {
  import opened Sequences
  import opened Text
  import opened Terms
  import opened Isomorphism
  import opened Issuing
  import opened CanonicalForm
  import opened CanonicalDigest
  import opened Canonicalizer
  import opened TieInvariance
  import opened CanonicalInvariance
  import opened PairedTies
  import opened RelatedHashes
  import opened TieExamples

  // ----- two searches with one known label each -----

  /** A hash that stands for an issued node either begins the data or leaves the node's label at its end. */
  lemma LabelFirstOrLast(c: Context, order: seq<string>, id: string, w: string, h: string)
    requires GoodOrder(c.ts, order) && w in c.canon && w in BNodes(c.ts)
    requires |HashesAt(c, order, id)| == 2 && h in GroupsAt(c, order, id) && GroupsAt(c, order, id)[h] == [w]
    ensures HashesAt(c, order, id)[0] == h || EndsIn(DataAt(c, order, id), "n" + Decimal(IndexOf(c.canon, w)))
  {
    hide GroupsAt, ResolveGroup, Decimal, BNodes, OrderIn;
    HashesAreKeys(c, order, id);
    var g, hs := GroupsAt(c, order, id), HashesAt(c, order, id);
    if hs[0] != h {
      assert hs[1] == h;
      var before := ResolveGroups(c, order, g, hs, 1);
      IssuedGroup(c, before.order, w);
      var end := "n" + Decimal(IndexOf(c.canon, w));
      assert "_:" + CanonicalLabel(c.canon, w) == "_:c14" + end;
      assert DataAt(c, order, id) == (before.text + h + "_:c14") + end;
    }
  }

  /** Two searches with one such hash each, unknown to the other, hash different data. */
  lemma DataDiffer(c: Context, o: seq<string>, id: string, w: string, h: string, r: seq<string>, jd: string, z: string, k: string)
    requires IdealHash(c.sha) && GoodOrder(c.ts, o) && GoodOrder(c.ts, r) && w != z
    requires w in c.canon && w in BNodes(c.ts) && z in c.canon && z in BNodes(c.ts)
    requires |HashesAt(c, o, id)| == 2 && h in GroupsAt(c, o, id) && GroupsAt(c, o, id)[h] == [w] && h !in GroupsAt(c, r, jd)
    requires |HashesAt(c, r, jd)| == 2 && k in GroupsAt(c, r, jd) && GroupsAt(c, r, jd)[k] == [z] && k !in GroupsAt(c, o, id)
    ensures NDegree(c, id, o).text != NDegree(c, jd, r).text
  {
    hide GroupsAt, NDegree, DataAt, HashesAt, Decimal, BNodes, OrderIn, IdealHash;
    LabelFirstOrLast(c, o, id, w, h);
    LabelFirstOrLast(c, r, jd, z, k);
    DataBeginsAt(c, o, id);
    DataBeginsAt(c, r, jd);
    HashOfData(c, o, id);
    HashOfData(c, r, jd);
    if NDegree(c, id, o).text == NDegree(c, jd, r).text {
      assert DataAt(c, o, id) == DataAt(c, r, jd) by { Injected(c.sha, DataAt(c, o, id), DataAt(c, r, jd)); }
      MarkedPrefix(DataAt(c, o, id), HashesAt(c, o, id)[0], HashesAt(c, r, jd)[0]);
      EndDetermined(DataAt(c, o, id), IndexOf(c.canon, w), IndexOf(c.canon, z));
      SameIndexSame(c.canon, w, z);
    }
  }

  lemma Injected(sha: string -> string, s: string, t: string)
    requires IdealHash(sha) && sha(s) == sha(t)
    ensures s == t
  {
  }

  /** Two chains that differ in the mark of their last node alone. */
  function Chains(): seq<Triple> {
    [Arc("x", "p", "u"), Arc("u", "q", "w"), Arc("y", "p", "v"), Arc("v", "q", "z"), Mark("w", "1"), Mark("z", "2")]
  }

  predicate IsChain(root: string, mid: string, tip: string) {
    (root == "x" && mid == "u" && tip == "w") || (root == "y" && mid == "v" && tip == "z")
  }

  lemma ChainsMember(t: Triple)
    ensures t in Chains() <==> t == Chains()[0] || t == Chains()[1] || t == Chains()[2] || t == Chains()[3] || t == Chains()[4] || t == Chains()[5]
  {
  }

  lemma ChainsWellFormed()
    ensures WellFormedGraph(Chains())
  {
    forall t | t in Chains() ensures WellFormed(t) { ChainsMember(t); }
  }

  lemma ChainsNodes(b: string)
    ensures b in BNodes(Chains()) <==> exists root, mid, tip :: IsChain(root, mid, tip) && (b == root || b == mid || b == tip)
  {
    var ts := Chains();
    forall t ensures t in ts <==> t == ts[0] || t == ts[1] || t == ts[2] || t == ts[3] || t == ts[4] || t == ts[5] { ChainsMember(t); }
    assert IsChain("x", "u", "w") && IsChain("y", "v", "z");
    assert "x" in TripleBNodes(ts[0]) && "u" in TripleBNodes(ts[0]) && "y" in TripleBNodes(ts[2]) && "v" in TripleBNodes(ts[2]);
    assert "w" in TripleBNodes(ts[4]) && "z" in TripleBNodes(ts[5]);
    assert ts[0] in ts && ts[2] in ts && ts[4] in ts && ts[5] in ts;
  }

  /** The edges of a chain: its root leads to its middle, its middle to both ends. */
  lemma ChainsEdges(id: string, t: Triple, x: string, subject: bool)
    requires LeadsTo(Chains(), id, t, x, subject)
    ensures if subject then t.s == BNode(x) && t.o == BNode(id) else t.s == BNode(id) && t.o == BNode(x)
    ensures t == Arc("x", "p", "u") || t == Arc("u", "q", "w") || t == Arc("y", "p", "v") || t == Arc("v", "q", "z")
  {
    ChainsMember(t);
  }

  lemma ChainArcs(root: string, mid: string, tip: string)
    requires IsChain(root, mid, tip)
    ensures Arc(root, "p", mid) in Chains() && Arc(mid, "q", tip) in Chains()
    ensures LeadsTo(Chains(), root, Arc(root, "p", mid), mid, false)
    ensures LeadsTo(Chains(), mid, Arc(root, "p", mid), root, true)
    ensures LeadsTo(Chains(), mid, Arc(mid, "q", tip), tip, false)
    ensures root in BNodes(Chains()) && mid in BNodes(Chains()) && tip in BNodes(Chains())
  {
    ChainsMember(Arc(root, "p", mid));
    ChainsMember(Arc(mid, "q", tip));
    ChainsNodes(root);
    ChainsNodes(mid);
    ChainsNodes(tip);
  }

  lemma ChainsSeparated()
    ensures SeparatedEdges(Chains())
  {
    hide LeadsTo;
    forall id, x, y, t, u, subject | LeadsTo(Chains(), id, t, x, subject) && LeadsTo(Chains(), id, u, y, subject) && t.p == u.p
      ensures x == y
    {
      ChainsEdges(id, t, x, subject);
      ChainsEdges(id, u, y, subject);
    }
  }

  lemma ChainsMarks(b: string, v: string)
    ensures Sees(Chains(), b, Mark("a", v)) <==> (b == "w" && v == "1") || (b == "z" && v == "2")
  {
    var ts := Chains();
    if Sees(ts, b, Mark("a", v)) {
      var t :| t in ts && Incident(t, b) && SeenFrom(b)(t) == Mark("a", v);
      ChainsMember(t);
    }
    assert ts[4] in ts && ts[5] in ts;
    assert Incident(ts[4], "w") && SeenFrom("w")(ts[4]) == Mark("a", "1");
    assert Incident(ts[5], "z") && SeenFrom("z")(ts[5]) == Mark("a", "2");
  }

  lemma ChainsUnique(sha: string -> string)
    requires OneToOne(sha)
    ensures UniqueHash(sha, Chains(), "w") && UniqueHash(sha, Chains(), "z")
  {
    ChainsWellFormed();
    ChainArcs("x", "u", "w");
    ChainArcs("y", "v", "z");
    forall c ensures Sees(Chains(), c, Mark("a", "1")) <==> c == "w" { ChainsMarks(c, "1"); }
    forall c ensures Sees(Chains(), c, Mark("a", "2")) <==> c == "z" { ChainsMarks(c, "2"); }
    hide Sees, BNodes, WellFormedGraph, UniqueHash, Chains;
    MarkedUnique(sha, Chains(), "w", "1");
    MarkedUnique(sha, Chains(), "z", "2");
  }

  /** Only the middles see an incoming p. */
  function IncomingP(): Triple {
    Triple(BNode("z"), Iri("p"), BNode("a"))
  }

  lemma MiddleSees(t: Triple, b: string)
    requires t in Chains() && Incident(t, b) && SeenFrom(b)(t) == IncomingP()
    ensures b == "u" || b == "v"
  {
    ChainsMember(t);
  }

  /** Only the middles see an incoming p. */
  lemma ChainsMiddles(b: string)
    ensures Sees(Chains(), b, IncomingP()) <==> b == "u" || b == "v"
  {
    var ts := Chains();
    if Sees(ts, b, IncomingP()) {
      var t :| t in ts && Incident(t, b) && SeenFrom(b)(t) == IncomingP();
      MiddleSees(t, b);
    }
    if b == "u" {
      assert ts[0] in ts && Incident(ts[0], "u") && SeenFrom("u")(ts[0]) == IncomingP();
    }
    if b == "v" {
      assert ts[2] in ts && Incident(ts[2], "v") && SeenFrom("v")(ts[2]) == IncomingP();
    }
  }

  ghost function EdgeHash(c: Context, order: seq<string>, t: Triple, x: string, subject: bool): string {
    c.sha(EdgeText(t.p, EndChar(subject)) + Identify(c, order, x))
  }

  /** The groups of a middle: its root under one hash, its tip under another. */
  lemma MiddleGroups(c: Context, order: seq<string>, root: string, mid: string, tip: string) returns (h: string)
    requires IdealHash(c.sha) && c.ts == Chains() && IsChain(root, mid, tip)
    ensures |HashesAt(c, order, mid)| == 2 && h in GroupsAt(c, order, mid) && GroupsAt(c, order, mid)[h] == [tip]
    ensures Grouped(GroupsAt(c, order, mid), h, tip)
  {
    ChainArcs(root, mid, tip);
    ChainsWellFormed();
    var up, down := Arc(root, "p", mid), Arc(mid, "q", tip);
    hide GroupsAt, EdgeHash, LeadsTo, WellFormedGraph, Chains, IdealHash, BNodes;
    h := EdgeHash(c, order, down, tip, false);
    var k := EdgeHash(c, order, up, root, true);
    MiddleGrouped(c, order, root, mid, tip);
    var g := GroupsAt(c, order, mid);
    assert h in g && k in g && h != k;
    forall e | e in g ensures e == h || e == k { MiddleKeys(c, order, root, mid, tip, e); }
    TwoHashes(c, order, mid, h, k);
    MiddleTip(c, order, root, mid, tip);
  }

  lemma TwoHashes(c: Context, order: seq<string>, id: string, h: string, k: string)
    requires h != k && forall e :: e in GroupsAt(c, order, id) <==> e == h || e == k
    ensures |HashesAt(c, order, id)| == 2
  {
    hide GroupsAt;
    var hs := HashesAt(c, order, id);
    assert GroupsAt(c, order, id).Keys == {h, k};
    assert Elements(hs) == {h, k};
    CardinalityOfNoDuplicates(hs);
  }

  lemma MiddleGrouped(c: Context, order: seq<string>, root: string, mid: string, tip: string)
    requires IdealHash(c.sha) && c.ts == Chains() && IsChain(root, mid, tip)
    ensures Grouped(GroupsAt(c, order, mid), EdgeHash(c, order, Arc(mid, "q", tip), tip, false), tip)
    ensures Grouped(GroupsAt(c, order, mid), EdgeHash(c, order, Arc(root, "p", mid), root, true), root)
    ensures EdgeHash(c, order, Arc(mid, "q", tip), tip, false) != EdgeHash(c, order, Arc(root, "p", mid), root, true)
  {
    ChainArcs(root, mid, tip);
    ChainsWellFormed();
    var up, down := Arc(root, "p", mid), Arc(mid, "q", tip);
    hide GroupsAt, LeadsTo, Chains, EdgeText, Identify, Grouped, SameIdentifier;
    EdgeGrouped(c, order, mid, down, tip, false);
    EdgeGrouped(c, order, mid, up, root, true);
    EdgeHashesTell(c, order, down, tip, false, order, up, root, true);
  }

  lemma MiddleKeys(c: Context, order: seq<string>, root: string, mid: string, tip: string, e: string)
    requires c.ts == Chains() && IsChain(root, mid, tip) && e in GroupsAt(c, order, mid)
    ensures e == EdgeHash(c, order, Arc(mid, "q", tip), tip, false) || e == EdgeHash(c, order, Arc(root, "p", mid), root, true)
  {
    var n := GroupsAt(c, order, mid)[e][0];
    assert Grouped(GroupsAt(c, order, mid), e, n);
    hide GroupsAt, EdgeText, Identify, Grouped;
    var t, subject := GroupedEdge(c, order, mid, e, n);
    ChainsEdges(mid, t, n, subject);
  }

  lemma MiddleTip(c: Context, order: seq<string>, root: string, mid: string, tip: string)
    requires IdealHash(c.sha) && c.ts == Chains() && IsChain(root, mid, tip)
    ensures var h := EdgeHash(c, order, Arc(mid, "q", tip), tip, false);
      h in GroupsAt(c, order, mid) && GroupsAt(c, order, mid)[h] == [tip]
  {
    MiddleGrouped(c, order, root, mid, tip);
    ChainsWellFormed();
    ChainsSeparated();
    hide GroupsAt, EdgeHash, Chains, SeparatedEdges, WellFormedGraph, IdealHash, IsChain, Grouped, Arc;
    SingleMember(c, order, mid, EdgeHash(c, order, Arc(mid, "q", tip), tip, false), tip);
  }

  /** The hash of one tip is no hash of the other chain's middle. */
  lemma TipForeign(c: Context, o: seq<string>, root: string, mid: string, tip: string, h: string, r: seq<string>, root2: string, mid2: string, tip2: string)
    requires IdealHash(c.sha) && c.ts == Chains() && IsChain(root, mid, tip) && IsChain(root2, mid2, tip2) && tip != tip2
    requires tip in c.canon && tip2 in c.canon && Grouped(GroupsAt(c, o, mid), h, tip)
    ensures h !in GroupsAt(c, r, mid2)
  {
    if h in GroupsAt(c, r, mid2) {
      var n := GroupsAt(c, r, mid2)[h][0];
      assert Grouped(GroupsAt(c, r, mid2), h, n);
      assert Meet(c, o, mid, tip, r, mid2, n);
      ChainsWellFormed();
      hide GroupsAt, Grouped;
      SameGroupExactly(c, o, mid, tip, r, mid2, n);
      var t, u, subject :| LeadsTo(c.ts, mid, t, tip, subject) && LeadsTo(c.ts, mid2, u, n, subject) && t.p == u.p && SameIdentifier(c, o, tip, r, n);
      ChainsEdges(mid, t, tip, subject);
      ChainsEdges(mid2, u, n, subject);
    }
  }

  /** Searches of the two middles end in different hashes, whatever has been issued besides the tips. */
  lemma MiddlesApart(c: Context, o: seq<string>, r: seq<string>)
    requires IdealHash(c.sha) && c.ts == Chains() && "w" in c.canon && "z" in c.canon
    requires GoodOrder(c.ts, o) && GoodOrder(c.ts, r)
    ensures NDegree(c, "u", o).text != NDegree(c, "v", r).text
  {
    hide GroupsAt, Chains, HashesAt, NDegree, OrderIn, IdealHash, BNodes, Grouped;
    ChainArcs("x", "u", "w");
    ChainArcs("y", "v", "z");
    var h := MiddleGroups(c, o, "x", "u", "w");
    var k := MiddleGroups(c, r, "y", "v", "z");
    TipForeign(c, o, "x", "u", "w", h, r, "y", "v", "z");
    TipForeign(c, r, "y", "v", "z", k, o, "x", "u", "w");
    DataDiffer(c, o, "u", "w", h, r, "v", "z", k);
  }

  /** A search with one group of one node hashes that group's hash and path. */
  lemma OneGroupData(c: Context, order: seq<string>, id: string, h: string, x: string)
    requires GoodOrder(c.ts, order) && x in BNodes(c.ts)
    requires HashesAt(c, order, id) == [h] && h in GroupsAt(c, order, id) && GroupsAt(c, order, id)[h] == [x]
    ensures DataAt(c, order, id) == h + RunPermutation(c, order, [x]).text
  {
    hide GroupsAt, HashesAt, NDegree, OrderIn, BNodes, RunPermutation, ResolveGroup;
    var g, hs := GroupsAt(c, order, id), HashesAt(c, order, id);
    HashesAreKeys(c, order, id);
    assert ResolveGroups(c, order, g, hs, 0) == Outcome("", order);
    OnePermutation(c, order, x);
    assert ResolveGroups(c, order, g, hs, 1).text == "" + h + ResolveGroup(c, order, [x]).text;
  }

  lemma OnePermutation(c: Context, order: seq<string>, x: string)
    requires GoodOrder(c.ts, order) && x in BNodes(c.ts)
    ensures ResolveGroup(c, order, [x]) == RunPermutation(c, order, [x])
  {
    hide RunPermutation, OrderIn, BNodes;
    assert Permutations([x]) == [[x]];
    assert BestOf(c, order, [[x]], 0) == Nothing;
    assert BestOf(c, order, [[x]], 1) == Best(RunPermutation(c, order, [x]));
  }

  /** The path of one new node and the search from there. */
  function NewPath(hash: string): string {
    "_:b1_:b1<" + hash + ">"
  }

  /** Searching from a root: one group, its middle; if that is new, one search from there. */
  lemma RootData(c: Context, root: string, mid: string, tip: string) returns (h: string)
    requires IdealHash(c.sha) && c.ts == Chains() && IsChain(root, mid, tip) && GoodOrder(c.ts, [root]) && GoodOrder(c.ts, [root, mid])
    requires mid !in c.canon && mid in BNodes(c.ts) && root != mid
    ensures HashesAt(c, [root], root) == [h]
    ensures DataAt(c, [root], root) == h + NewPath(NDegree(c, mid, [root, mid]).text)
  {
    hide GroupsAt, HashesAt, Chains, NDegree, OrderIn, BNodes, RunPermutation, IdealHash, DataAt, NewPath, IsChain;
    h := RootGroups(c, root, mid, tip);
    OneGroupData(c, [root], root, h, mid);
    FreshVisit(c, root, mid);
  }

  lemma FreshTrail(canon: seq<string>, root: string, mid: string)
    requires mid !in canon && root != mid
    ensures Visit(canon, [root], [mid]) == Trail("_:b1", [root, mid], [mid])
  {
    SecondLabel(root, mid);
    assert [mid][..0] == [];
    assert Visit(canon, [root], []) == Trail("", [root], []);
    hide IssuedLabel, Issue;
    assert "" + "_:" + "b1" == "_:b1";
    assert [] + [mid] == [mid];
  }

  lemma FreshVisit(c: Context, root: string, mid: string)
    requires GoodOrder(c.ts, [root]) && GoodOrder(c.ts, [root, mid]) && mid in BNodes(c.ts) && mid !in c.canon && root != mid
    ensures RunPermutation(c, [root], [mid]).text == NewPath(NDegree(c, mid, [root, mid]).text)
  {
    hide NDegree, OrderIn, BNodes, RunPermutation, Gossip, Visit, IssuedLabel;
    FreshTrail(c.canon, root, mid);
    SecondLabel(root, mid);
    var tr := Trail("_:b1", [root, mid], [mid]);
    RunPermutationIsGossip(c, [root], [mid]);
    GossipStart(c, tr);
    GossipStep(c, tr, 0);
    assert "_:b1" + "_:" + "b1" + "<" == "_:b1_:b1<";
  }

  lemma SecondLabel(root: string, mid: string)
    requires root != mid
    ensures mid in [root, mid] && TemporaryLabel([root, mid], mid) == "b1"
    ensures Issue([root], mid) == [root, mid]
  {
    assert [root] + [mid] == [root, mid];
    assert IndexOf([root, mid], mid) == 1;
    assert Decimal(1) == "1";
  }

  lemma RootGroups(c: Context, root: string, mid: string, tip: string) returns (h: string)
    requires IdealHash(c.sha) && c.ts == Chains() && IsChain(root, mid, tip)
    ensures HashesAt(c, [root], root) == [h] && h in GroupsAt(c, [root], root) && GroupsAt(c, [root], root)[h] == [mid]
  {
    h := EdgeHash(c, [root], Arc(root, "p", mid), mid, false);
    RootGrouped(c, root, mid, tip);
    hide GroupsAt, EdgeHash, Chains, IdealHash, HashesAt;
    var g := GroupsAt(c, [root], root);
    forall e | e in g ensures e == h { RootKeys(c, root, mid, tip, e); }
    OneHash(c, [root], root, h);
  }

  lemma RootGrouped(c: Context, root: string, mid: string, tip: string)
    requires IdealHash(c.sha) && c.ts == Chains() && IsChain(root, mid, tip)
    ensures var h := EdgeHash(c, [root], Arc(root, "p", mid), mid, false);
      h in GroupsAt(c, [root], root) && GroupsAt(c, [root], root)[h] == [mid]
  {
    ChainArcs(root, mid, tip);
    ChainsWellFormed();
    ChainsSeparated();
    hide GroupsAt, EdgeText, Identify, Chains, SeparatedEdges, WellFormedGraph, IdealHash, LeadsTo, BNodes, IsChain, Grouped, Arc;
    EdgeGrouped(c, [root], root, Arc(root, "p", mid), mid, false);
    SingleMember(c, [root], root, EdgeHash(c, [root], Arc(root, "p", mid), mid, false), mid);
  }

  lemma RootKeys(c: Context, root: string, mid: string, tip: string, e: string)
    requires c.ts == Chains() && IsChain(root, mid, tip) && e in GroupsAt(c, [root], root)
    ensures e == EdgeHash(c, [root], Arc(root, "p", mid), mid, false)
  {
    var n := GroupsAt(c, [root], root)[e][0];
    assert Grouped(GroupsAt(c, [root], root), e, n);
    hide GroupsAt, EdgeText, Identify, Grouped;
    var t, subject := GroupedEdge(c, [root], root, e, n);
    ChainsEdges(root, t, n, subject);
  }

  lemma OneHash(c: Context, order: seq<string>, id: string, h: string)
    requires forall e :: e in GroupsAt(c, order, id) <==> e == h
    ensures HashesAt(c, order, id) == [h]
  {
    hide GroupsAt;
    var hs := HashesAt(c, order, id);
    assert GroupsAt(c, order, id).Keys == {h};
    assert Elements(hs) == {h};
    CardinalityOfNoDuplicates(hs);
    assert hs[0] in Elements(hs);
  }

  lemma NewPathTells(h: string, a: string, b: string)
    requires h + NewPath(a) == h + NewPath(b)
    ensures a == b
  {
    assert (h + NewPath(a))[|h|..] == NewPath(a) && (h + NewPath(b))[|h|..] == NewPath(b);
    assert |a| == |b|;
    assert NewPath(a)[9..9 + |a|] == a && NewPath(b)[9..9 + |b|] == b;
  }

  /** Searches of the two roots end in different hashes: once the middles are issued, by their labels. */
  lemma RootsApartIssued(c: Context)
    requires IdealHash(c.sha) && c.ts == Chains() && ("u" in c.canon || "v" in c.canon)
    requires GoodOrder(c.ts, ["x"]) && GoodOrder(c.ts, ["y"])
    requires HashesAt(c, ["x"], "x") != [] && HashesAt(c, ["y"], "y") != []
    ensures NDegree(c, "x", ["x"]).text != NDegree(c, "y", ["y"]).text
  {
    ChainsWellFormed();
    hide HashesAt, Chains, NDegree, OrderIn, AlikeEdges, WellFormedGraph, IdealHash;
    if NDegree(c, "x", ["x"]).text == NDegree(c, "y", ["y"]).text {
      var a, b := EqualHashesShareEdge(c, ["x"], "x", ["y"], "y");
      RootsUnlike(c, a, b);
    }
  }

  /** While the middles are new, because the searches below them do. */
  lemma RootsApartNew(c: Context, x: string, u: string, w: string, y: string, v: string, z: string)
    requires IdealHash(c.sha) && c.ts == Chains() && IsChain(x, u, w) && IsChain(y, v, z) && u !in c.canon && v !in c.canon
    requires GoodOrder(c.ts, [x]) && GoodOrder(c.ts, [y]) && GoodOrder(c.ts, [x, u]) && GoodOrder(c.ts, [y, v])
    requires u in BNodes(c.ts) && v in BNodes(c.ts) && x != u && y != v
    requires NDegree(c, u, [x, u]).text != NDegree(c, v, [y, v]).text
    ensures NDegree(c, x, [x]).text != NDegree(c, y, [y]).text
  {
    hide HashesAt, Chains, NDegree, OrderIn, BNodes, DataAt, NewPath, IsChain;
    var h := RootData(c, x, u, w);
    var k := RootData(c, y, v, z);
    HashOfData(c, [x], x);
    HashOfData(c, [y], y);
    if NDegree(c, x, [x]).text == NDegree(c, y, [y]).text {
      Injected(c.sha, DataAt(c, [x], x), DataAt(c, [y], y));
      DataBeginsAt(c, [x], x);
      DataBeginsAt(c, [y], y);
      MarkedPrefix(DataAt(c, [x], x), h, k);
      NewPathTells(h, NDegree(c, u, [x, u]).text, NDegree(c, v, [y, v]).text);
    }
  }

  lemma RootsApart(c: Context)
    requires IdealHash(c.sha) && c.ts == Chains() && "w" in c.canon && "z" in c.canon
    requires GoodOrder(c.ts, ["x"]) && GoodOrder(c.ts, ["y"])
    ensures NDegree(c, "x", ["x"]).text != NDegree(c, "y", ["y"]).text
  {
    ChainArcs("x", "u", "w");
    ChainArcs("y", "v", "z");
    hide Chains, HashesAt, NDegree, OrderIn, BNodes, LeadsTo, IdealHash;
    if "u" in c.canon || "v" in c.canon {
      LeadsMeansGroups(c, ["x"], "x", Arc("x", "p", "u"), "u", false);
      LeadsMeansGroups(c, ["y"], "y", Arc("y", "p", "v"), "v", false);
      RootsApartIssued(c);
    } else {
      PairInOrder(c.ts, "x", "u");
      PairInOrder(c.ts, "y", "v");
      MiddlesApart(c, ["x", "u"], ["y", "v"]);
      RootsApartNew(c, "x", "u", "w", "y", "v", "z");
    }
  }

  lemma RootsUnlike(c: Context, a: string, b: string)
    requires c.ts == Chains() && ("u" in c.canon || "v" in c.canon)
    ensures !AlikeEdges(c, ["x"], "x", a, ["y"], "y", b)
  {
    if AlikeEdges(c, ["x"], "x", a, ["y"], "y", b) {
      var t, u, subject :| LeadsTo(c.ts, "x", t, a, subject) && LeadsTo(c.ts, "y", u, b, subject) && t.p == u.p && SameIdentifier(c, ["x"], a, ["y"], b);
      ChainsEdges("x", t, a, subject);
      ChainsEdges("y", u, b, subject);
    }
  }

  lemma PairInOrder(ts: seq<Triple>, x: string, y: string)
    requires x in BNodes(ts) && y in BNodes(ts) && x != y
    ensures GoodOrder(ts, [x, y])
  {
    hide BNodes;
    assert Elements([x, y]) == {x, y};
  }

  /** Only the roots tie, and only the middles. */
  lemma ChainsTied(sha: string -> string, x: string, y: string)
    requires OneToOne(sha) && x in BNodes(Chains()) && y in BNodes(Chains()) && x != y
    requires FirstDegree(sha, Chains(), x) == FirstDegree(sha, Chains(), y)
    requires x != "w" && x != "z" && y != "w" && y != "z"
    ensures (x == "u" && y == "v") || (x == "v" && y == "u") || (x == "x" && y == "y") || (x == "y" && y == "x")
  {
    ChainsWellFormed();
    hide Chains, BNodes, FirstDegree, Sees, WellFormedGraph;
    ChainsNodes(x);
    ChainsNodes(y);
    TiedSeeAlike(sha, Chains(), x, y, IncomingP());
    ChainsMiddles(x);
    ChainsMiddles(y);
  }

  lemma TiedApart(c: Context, x: string, y: string)
    requires IdealHash(c.sha) && c.ts == Chains() && "w" in c.canon && "z" in c.canon
    requires x != y && x !in c.canon && y !in c.canon && GoodOrder(c.ts, [x]) && GoodOrder(c.ts, [y])
    requires FirstDegree(c.sha, c.ts, x) == FirstDegree(c.sha, c.ts, y)
    ensures NDegree(c, x, [x]).text != NDegree(c, y, [y]).text
  {
    hide NDegree, Chains, BNodes, FirstDegree, OrderIn, OneToOne;
    InNodes1(c.ts, x);
    InNodes1(c.ts, y);
    ChainsTied(c.sha, x, y);
    if x == "u" || x == "v" { MiddlesApart(c, ["u"], ["v"]); } else { RootsApart(c); }
  }

  lemma ChainsPair(sha: string -> string, k: nat, x: string, y: string)
    requires IdealHash(sha) && k <= |Ties(sha, Chains())|
    requires UniqueHash(sha, Chains(), "w") && UniqueHash(sha, Chains(), "z")
    ensures ComeApart(sha, Chains(), k, x, y)
  {
    var c := Context(sha, Chains(), OrderBefore(sha, Chains(), k));
    hide NDegree, Chains, Ties, OrderBefore, BNodes, FirstDegree, UniqueHash, OrderIn, IdealHash;
    UniqueIsIssued(sha, Chains(), k, "w");
    UniqueIsIssued(sha, Chains(), k, "z");
    if x != y && x !in c.canon && y !in c.canon && GoodOrder(c.ts, [x]) && GoodOrder(c.ts, [y])
      && FirstDegree(sha, c.ts, x) == FirstDegree(sha, c.ts, y) {
      TiedApart(c, x, y);
    }
  }

  lemma ChainsTie(sha: string -> string)
    requires OneToOne(sha)
    ensures FirstDegree(sha, Chains(), "x") == FirstDegree(sha, Chains(), "y")
  {
    var ts := Chains();
    ChainsWellFormed();
    OneSeen(ts, "x", 0);
    OneSeen(ts, "y", 2);
    assert SeenFrom("x")(ts[0]) == SeenFrom("y")(ts[2]);
    hide FirstDegree, WellFormedGraph, Surroundings, Chains, SeenFrom;
    FirstDegreeExactly(sha, ts, "x", ts, "y");
  }

  /** A tie settled only by the searches one step further down: x and y have alike edges to nodes that
      look alike themselves. */
  lemma SearchBelowSettles(sha: string -> string)
    requires IdealHash(sha)
    ensures Decided(sha, Chains()) && !TieFree(sha, Chains())
  {
    ChainsWellFormed();
    ChainsSeparated();
    ChainsTie(sha);
    ChainArcs("x", "u", "w");
    ChainArcs("y", "v", "z");
    hide FirstDegree, BNodes, Chains, WellFormedGraph, IdealHash, SeparatedEdges, ComeApart, UniqueHash, Ties, LeadsTo;
    ChainsUnique(sha);
    forall k, x, y | 0 <= k <= |Ties(sha, Chains())| ensures ComeApart(sha, Chains(), k, x, y) { ChainsPair(sha, k, x, y); }
    ApartIsDecided(sha, Chains());
    assert "x" != "y";
  }
}
