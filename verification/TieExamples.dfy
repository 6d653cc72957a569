/**
 What settles a tie. Nodes with one N-degree hash share a related edge, so a tie may be settled by the
 predicate of an edge alone, as one graph shows.
 */
module TieExamples {
  import opened Sequences
  import opened Text
  import opened Terms
  import opened Isomorphism
  import opened Issuing
  import opened CanonicalForm
  import opened CanonicalDigest
  import opened Canonicalizer
  import opened TieInvariance
  import opened CanonicalInvariance
  import opened PairedTies
  import opened RelatedHashes

  /** No blank node has two neighbours over one predicate at one end. */
  ghost predicate SeparatedEdges(ts: seq<Triple>) {
    forall id, x, y, t, u, subject ::
      LeadsTo(ts, id, t, x, subject) && LeadsTo(ts, id, u, y, subject) && t.p == u.p ==> x == y
  }

  lemma SeparatedNeighbours(c: Context, order: seq<string>, id: string, x: string, y: string)
    requires SeparatedEdges(c.ts) && AlikeEdges(c, order, id, x, order, id, y)
    ensures x == y
  {
    hide LeadsTo;
  }

  lemma SingleGroup(c: Context, order: seq<string>, id: string, h: string)
    requires IdealHash(c.sha) && WellFormedGraph(c.ts) && SeparatedEdges(c.ts) && h in GroupsAt(c, order, id)
    ensures |GroupsAt(c, order, id)[h]| == 1
  {
    var g := GroupsAt(c, order, id)[h];
    hide GroupsOf, QuadsOf, SeparatedEdges, AlikeEdges, IdealHash, WellFormedGraph;
    forall i | 0 <= i < |g| ensures g[i] == g[0] {
      assert Grouped(GroupsAt(c, order, id), h, g[i]) && Grouped(GroupsAt(c, order, id), h, g[0]);
      SameGroupExactly(c, order, id, g[i], order, id, g[0]);
      SeparatedNeighbours(c, order, id, g[i], g[0]);
    }
    assert Elements(g) == {g[0]};
    CardinalityOfNoDuplicates(g);
  }

  lemma SingleMember(c: Context, order: seq<string>, id: string, h: string, x: string)
    requires IdealHash(c.sha) && WellFormedGraph(c.ts) && SeparatedEdges(c.ts) && Grouped(GroupsAt(c, order, id), h, x)
    ensures h in GroupsAt(c, order, id) && GroupsAt(c, order, id)[h] == [x]
  {
    hide GroupsAt, SeparatedEdges, IdealHash, WellFormedGraph;
    SingleGroup(c, order, id, h);
    var g := GroupsAt(c, order, id)[h];
    assert g == [g[0]];
  }

  lemma SeparatedDecisive(sha: string -> string, ts: seq<Triple>, canon: seq<string>)
    requires IdealHash(sha) && WellFormedGraph(ts) && SeparatedEdges(ts)
    ensures Decisive(Context(sha, ts, canon))
  {
    var c := Context(sha, ts, canon);
    hide GroupsOf, QuadsOf, SeparatedEdges, SameChoice, IdealHash, WellFormedGraph;
    forall id, start, order, h | GoodOrder(c.ts, start) && h in GroupsOf(c, start, id, QuadsOf(c.ts, id))
      ensures SameChoice(c, order, GroupsOf(c, start, id, QuadsOf(c.ts, id))[h])
    {
      SingleGroup(c, start, id, h);
      OneArrangement(c, order, GroupsOf(c, start, id, QuadsOf(c.ts, id))[h]);
    }
  }

  // ----- how the data to hash begins -----

  ghost predicate BeginsWithMark(s: string, h: string) {
    |s| > |h| && s[..|h|] == h && s[|h|] == '_'
  }

  lemma RunBegins(c: Context, order: seq<string>, perm: seq<string>)
    requires GoodOrder(c.ts, order) && perm != [] && forall x :: x in perm ==> x in BNodes(c.ts)
    ensures RunPermutation(c, order, perm).text != "" && RunPermutation(c, order, perm).text[0] == '_'
  {
    var tr := Visit(c.canon, order, perm);
    VisitBegins(c.canon, order, perm, 1);
    VisitGrows(c.canon, order, perm, 1);
    hide RunPermutation, Visit, BNodes, OrderIn;
    RunPermutationIsGossip(c, order, perm);
    GossipStart(c, tr);
    GossipGrows(c, tr, 0, |tr.recursion|);
  }

  lemma VisitBegins(canon: seq<string>, order: seq<string>, perm: seq<string>, k: nat)
    requires k == 1 <= |perm|
    ensures Visit(canon, order, perm[..k]).path != "" && Visit(canon, order, perm[..k]).path[0] == '_'
  {
    hide Decimal;
    assert perm[..1][..0] == [];
    assert Visit(canon, order, []) == Trail("", order, []);
  }

  lemma GroupBegins(c: Context, order: seq<string>, group: seq<string>)
    requires GoodOrder(c.ts, order) && group != [] && forall x :: x in group ==> x in BNodes(c.ts)
    ensures ResolveGroup(c, order, group).text != "" && ResolveGroup(c, order, group).text[0] == '_'
  {
    var perms := Permutations(group);
    PermutationsInNodes(c.ts, group);
    PermutationsExact(group, group);
    hide RunPermutation, BNodes, Permutations, OrderIn;
    var j := BestIsLeast(c, order, perms, |perms|);
    assert perms[j] in perms;
    PermutationMembers(group, perms[j]);
    RunBegins(c, order, perms[j]);
  }

  lemma {:induction false} DataBegins(c: Context, order: seq<string>, g: Groups, hashes: seq<string>, k: nat)
    requires GoodOrder(c.ts, order) && GoodGroups(c.ts, g) && 0 < k <= |hashes|
    requires forall h :: h in hashes ==> h in g
    ensures BeginsWithMark(ResolveGroups(c, order, g, hashes, k).text, hashes[0])
  {
    hide ResolveGroup, BNodes, OrderIn;
    var before := ResolveGroups(c, order, g, hashes, k - 1);
    assert hashes[k - 1] in g;
    GroupBegins(c, before.order, g[hashes[k - 1]]);
    if k > 1 { DataBegins(c, order, g, hashes, k - 1); }
  }

  ghost function HashesAt(c: Context, order: seq<string>, id: string): seq<string> {
    Ascending(GroupsAt(c, order, id).Keys)
  }

  lemma HashesAreKeys(c: Context, order: seq<string>, id: string)
    ensures forall h :: h in HashesAt(c, order, id) <==> h in GroupsAt(c, order, id)
  {
    hide GroupsAt;
    var hs := HashesAt(c, order, id);
    assert Elements(hs) == GroupsAt(c, order, id).Keys;
    assert forall h :: h in hs <==> h in Elements(hs);
  }

  /** The text an N-degree hash is taken of. */
  ghost function DataAt(c: Context, order: seq<string>, id: string): string
    requires GoodOrder(c.ts, order)
  {
    var g := GroupsAt(c, order, id);
    HashesAreKeys(c, order, id);
    ResolveGroups(c, order, g, HashesAt(c, order, id), |HashesAt(c, order, id)|).text
  }

  lemma HashOfData(c: Context, order: seq<string>, id: string)
    requires GoodOrder(c.ts, order)
    ensures NDegree(c, id, order).text == c.sha(DataAt(c, order, id))
  {
    hide GroupsOf, QuadsOf, ResolveGroups;
  }

  lemma KeysAreHashes(c: Context, order: seq<string>, id: string, h: string)
    requires h in GroupsAt(c, order, id)
    ensures exists data :: h == c.sha(data)
  {
    var x := GroupsAt(c, order, id)[h][0];
    assert Grouped(GroupsAt(c, order, id), h, x);
    hide GroupsAt;
    var t, subject := GroupedEdge(c, order, id, h, x);
  }

  lemma HexHasNoMark(sha: string -> string, data: string)
    requires IdealHash(sha)
    ensures '_' !in sha(data)
  {
    assert !HexDigit('_');
  }

  lemma MarkedPrefix(s: string, h: string, k: string)
    requires BeginsWithMark(s, h) && BeginsWithMark(s, k) && '_' !in h && '_' !in k
    ensures h == k
  {
    SplitAtMark('_', h, k, s[|h| + 1..], s[|k| + 1..]);
  }

  lemma DataBeginsAt(c: Context, order: seq<string>, id: string)
    requires IdealHash(c.sha) && GoodOrder(c.ts, order) && HashesAt(c, order, id) != []
    ensures BeginsWithMark(DataAt(c, order, id), HashesAt(c, order, id)[0])
    ensures HashesAt(c, order, id)[0] in GroupsAt(c, order, id) && '_' !in HashesAt(c, order, id)[0]
  {
    HashesAreKeys(c, order, id);
    var hs := HashesAt(c, order, id);
    assert hs[0] in hs;
    KeysAreHashes(c, order, id, hs[0]);
    var data :| hs[0] == c.sha(data);
    HexHasNoMark(c.sha, data);
    hide HashesAt, ResolveGroups;
    DataBegins(c, order, GroupsAt(c, order, id), hs, |hs|);
  }

  /** Searches that hash to one value begin with one related hash, so they share a related edge. */
  lemma EqualHashesShareEdge(c: Context, o: seq<string>, id: string, r: seq<string>, jd: string) returns (x: string, y: string)
    requires IdealHash(c.sha) && WellFormedGraph(c.ts) && GoodOrder(c.ts, o) && GoodOrder(c.ts, r)
    requires NDegree(c, id, o).text == NDegree(c, jd, r).text
    requires HashesAt(c, o, id) != [] && HashesAt(c, r, jd) != []
    ensures HashesAt(c, o, id)[0] == HashesAt(c, r, jd)[0]
    ensures AlikeEdges(c, o, id, x, r, jd, y)
  {
    HashOfData(c, o, id);
    HashOfData(c, r, jd);
    DataBeginsAt(c, o, id);
    DataBeginsAt(c, r, jd);
    hide NDegree, DataAt, HashesAt, OrderIn, AlikeEdges, WellFormedGraph;
    var h := HashesAt(c, o, id)[0];
    MarkedPrefix(DataAt(c, o, id), h, HashesAt(c, r, jd)[0]);
    x, y := GroupsAt(c, o, id)[h][0], GroupsAt(c, r, jd)[h][0];
    assert Grouped(GroupsAt(c, o, id), h, x) && Grouped(GroupsAt(c, r, jd), h, y);
    SameGroupExactly(c, o, id, x, r, jd, y);
  }

  // ----- graphs whose ties come apart -----

  /** Whenever the search resolves a class, the searches of its open members end in different hashes. */
  ghost predicate TiesComeApart(sha: string -> string, ts: seq<Triple>) {
    forall k, x, y :: 0 <= k <= |Ties(sha, ts)| ==> ComeApart(sha, ts, k, x, y)
  }

  ghost predicate ComeApart(sha: string -> string, ts: seq<Triple>, k: nat, x: string, y: string)
    requires k <= |Ties(sha, ts)|
  {
    var c := Context(sha, ts, OrderBefore(sha, ts, k));
    (x != y && x !in c.canon && y !in c.canon && GoodOrder(ts, [x]) && GoodOrder(ts, [y])
      && FirstDegree(sha, ts, x) == FirstDegree(sha, ts, y))
    ==> NDegree(c, x, [x]).text != NDegree(c, y, [y]).text
  }

  lemma ApartTextsDiffer(sha: string -> string, ts: seq<Triple>, k: nat, group: seq<string>)
    requires TiesComeApart(sha, ts) && k <= |Ties(sha, ts)|
    requires NoDuplicates(group) && Elements(group) <= BNodes(ts)
    requires forall x, y :: x in group && y in group ==> FirstDegree(sha, ts, x) == FirstDegree(sha, ts, y)
    ensures NoDuplicates(Texts(Results(Context(sha, ts, OrderBefore(sha, ts, k)), group, |group|)))
  {
    hide Ties, OrderBefore, NDegree, Results, Open, BNodes, GoodOrder, NoDuplicates, FirstDegree;
    var c := Context(sha, ts, OrderBefore(sha, ts, k));
    ResultsAreSearches(c, group, |group|);
    OpenMembers(c.canon, group, |group|);
    var open, texts := Open(c.canon, group, |group|), Texts(Results(c, group, |group|));
    assert group[..|group|] == group;
    forall i, j | 0 <= i < j < |texts| ensures texts[i] != texts[j] {
      TwoMembers(open, group, i, j);
      assert open[i] in open && open[j] in open;
      assert ComeApart(sha, ts, k, open[i], open[j]);
    }
    DistinctTexts(texts);
  }

  lemma ApartIsDecided(sha: string -> string, ts: seq<Triple>)
    requires IdealHash(sha) && WellFormedGraph(ts) && SeparatedEdges(ts) && TiesComeApart(sha, ts)
    ensures Decided(sha, ts)
  {
    hide IdealHash, WellFormedGraph, SeparatedEdges, TiesComeApart, FirstDegree, OrderBefore, Classes, Decisive, Results, BNodes, Texts;
    forall k | 0 <= k < |Ties(sha, ts)| ensures DecidedAt(sha, ts, OrderBefore(sha, ts, k), Ties(sha, ts)[k]) {
      SeparatedDecisive(sha, ts, OrderBefore(sha, ts, k));
      OrderBeforeGood(sha, ts, k);
      TiedHaveOneHash(sha, ts, |Classes(sha, ts)|, k);
      ApartTextsDiffer(sha, ts, k, Ties(sha, ts)[k]);
    }
  }

  // ----- seeing a node in a small graph -----

  lemma {:induction false} AppearanceIs(ts: seq<Triple>, b: string, t: Triple)
    ensures t in Appearances(ts, b) <==> t in ts && Incident(t, b)
  {
    if ts != [] {
      var k := |ts| - 1;
      AppearanceIs(ts[..k], b, t);
      assert t in ts <==> t in ts[..k] || t == ts[k];
      var one := (if ts[k].s == BNode(b) then [ts[k]] else []) + (if ts[k].o == BNode(b) then [ts[k]] else []);
      assert Appearances(ts, b) == Appearances(ts[..k], b) + one;
    }
  }

  /** Some triple at b looks like `seen` from b. */
  ghost predicate Sees(ts: seq<Triple>, b: string, seen: Triple) {
    exists t :: t in ts && Incident(t, b) && SeenFrom(b)(t) == seen
  }

  lemma SeenInSurroundings(ts: seq<Triple>, b: string, seen: Triple)
    ensures seen in Surroundings(ts, b) <==> Sees(ts, b, seen)
  {
    var all := Map(SeenFrom(b), Appearances(ts, b));
    hide SeenFrom, Appearances, Incident;
    assert seen in Surroundings(ts, b) <==> seen in all;
    if seen in all {
      var i :| 0 <= i < |all| && all[i] == seen;
      AppearanceIs(ts, b, Appearances(ts, b)[i]);
    }
    if t :| t in ts && Incident(t, b) && SeenFrom(b)(t) == seen {
      AppearanceIs(ts, b, t);
      var i :| 0 <= i < |Appearances(ts, b)| && Appearances(ts, b)[i] == t;
      assert all[i] == seen;
    }
  }

  /** Nodes with one first-degree hash see the same. */
  lemma TiedSeeAlike(sha: string -> string, ts: seq<Triple>, x: string, y: string, seen: Triple)
    requires OneToOne(sha) && WellFormedGraph(ts) && FirstDegree(sha, ts, x) == FirstDegree(sha, ts, y)
    ensures Sees(ts, x, seen) <==> Sees(ts, y, seen)
  {
    hide FirstDegree, Surroundings, Sees, WellFormedGraph;
    FirstDegreeExactly(sha, ts, x, ts, y);
    SeenInSurroundings(ts, x, seen);
    SeenInSurroundings(ts, y, seen);
  }

  function Arc(x: string, p: string, y: string): Triple {
    Triple(BNode(x), Iri(p), BNode(y))
  }

  function Mark(x: string, v: string): Triple {
    Triple(BNode(x), Iri("r"), Iri(v))
  }

  // ----- settled by a predicate -----

  /** x and y reach the same two nodes over the same two predicates, crossed. */
  function Crossed(): seq<Triple> {
    [Arc("x", "p", "u"), Arc("x", "q", "v"), Arc("y", "q", "u"), Arc("y", "p", "v"), Mark("u", "1"), Mark("v", "2")]
  }

  lemma CrossedMember(t: Triple)
    ensures t in Crossed() <==> t == Crossed()[0] || t == Crossed()[1] || t == Crossed()[2] || t == Crossed()[3] || t == Crossed()[4] || t == Crossed()[5]
  {
  }

  lemma CrossedWellFormed()
    ensures WellFormedGraph(Crossed())
  {
    forall t | t in Crossed() ensures WellFormed(t) { CrossedMember(t); }
  }

  lemma CrossedNodes(b: string)
    ensures b in BNodes(Crossed()) <==> b == "x" || b == "y" || b == "u" || b == "v"
  {
    var ts := Crossed();
    forall t ensures t in ts <==> t == ts[0] || t == ts[1] || t == ts[2] || t == ts[3] || t == ts[4] || t == ts[5] { CrossedMember(t); }
    assert "x" in TripleBNodes(ts[0]) && "u" in TripleBNodes(ts[0]) && "y" in TripleBNodes(ts[3]) && "v" in TripleBNodes(ts[3]);
    assert ts[0] in ts && ts[3] in ts;
  }

  lemma CrossedEdges(id: string, t: Triple, x: string, subject: bool)
    requires LeadsTo(Crossed(), id, t, x, subject)
    ensures t == Crossed()[0] || t == Crossed()[1] || t == Crossed()[2] || t == Crossed()[3]
    ensures if subject then t.s == BNode(x) && t.o == BNode(id) else t.s == BNode(id) && t.o == BNode(x)
  {
    CrossedMember(t);
  }

  lemma CrossedSeparated()
    ensures SeparatedEdges(Crossed())
  {
    hide LeadsTo;
    forall id, x, y, t, u, subject | LeadsTo(Crossed(), id, t, x, subject) && LeadsTo(Crossed(), id, u, y, subject) && t.p == u.p
      ensures x == y
    {
      CrossedEdges(id, t, x, subject);
      CrossedEdges(id, u, y, subject);
    }
  }

  /** Only u sees the mark "1", only v the mark "2". */
  lemma CrossedMarks(b: string, v: string)
    ensures Sees(Crossed(), b, Mark("a", v)) <==> (b == "u" && v == "1") || (b == "v" && v == "2")
  {
    var ts := Crossed();
    if Sees(ts, b, Mark("a", v)) {
      var t :| t in ts && Incident(t, b) && SeenFrom(b)(t) == Mark("a", v);
      CrossedMember(t);
    }
    assert ts[4] in ts && ts[5] in ts;
    assert Incident(ts[4], "u") && SeenFrom("u")(ts[4]) == Mark("a", "1");
    assert Incident(ts[5], "v") && SeenFrom("v")(ts[5]) == Mark("a", "2");
  }

  lemma MarkedUnique(sha: string -> string, ts: seq<Triple>, b: string, v: string)
    requires OneToOne(sha) && WellFormedGraph(ts) && b in BNodes(ts)
    requires forall c :: Sees(ts, c, Mark("a", v)) <==> c == b
    ensures UniqueHash(sha, ts, b)
  {
    hide FirstDegree, BNodes, Sees, WellFormedGraph;
    forall c | c in BNodes(ts) && FirstDegree(sha, ts, c) == FirstDegree(sha, ts, b) ensures c == b {
      TiedSeeAlike(sha, ts, c, b, Mark("a", v));
    }
  }

  lemma CrossedUnique(sha: string -> string)
    requires OneToOne(sha)
    ensures UniqueHash(sha, Crossed(), "u") && UniqueHash(sha, Crossed(), "v")
  {
    CrossedWellFormed();
    CrossedNodes("u");
    CrossedNodes("v");
    forall c ensures Sees(Crossed(), c, Mark("a", "1")) <==> c == "u" { CrossedMarks(c, "1"); }
    forall c ensures Sees(Crossed(), c, Mark("a", "2")) <==> c == "v" { CrossedMarks(c, "2"); }
    hide Sees, BNodes, WellFormedGraph, UniqueHash, Crossed;
    MarkedUnique(sha, Crossed(), "u", "1");
    MarkedUnique(sha, Crossed(), "v", "2");
  }

  /** No edge of x is like one of y, once u and v are told apart. */
  lemma CrossedUnlike(c: Context, o: seq<string>, a: string, r: seq<string>, b: string)
    requires c.ts == Crossed() && "u" in c.canon && "v" in c.canon
    ensures !AlikeEdges(c, o, "x", a, r, "y", b)
  {
    if AlikeEdges(c, o, "x", a, r, "y", b) {
      var t, u, subject :| LeadsTo(c.ts, "x", t, a, subject) && LeadsTo(c.ts, "y", u, b, subject) && t.p == u.p && SameIdentifier(c, o, a, r, b);
      CrossedEdges("x", t, a, subject);
      CrossedEdges("y", u, b, subject);
    }
  }

  lemma LeadsMeansGroups(c: Context, order: seq<string>, id: string, t: Triple, x: string, subject: bool)
    requires LeadsTo(c.ts, id, t, x, subject)
    ensures HashesAt(c, order, id) != []
  {
    hide GroupsAt, HashesAt, EdgeText, Identify;
    EdgeGrouped(c, order, id, t, x, subject);
    HashesAreKeys(c, order, id);
  }

  lemma CrossedApart(c: Context)
    requires IdealHash(c.sha) && c.ts == Crossed() && "u" in c.canon && "v" in c.canon
    requires GoodOrder(c.ts, ["x"]) && GoodOrder(c.ts, ["y"])
    ensures NDegree(c, "x", ["x"]).text != NDegree(c, "y", ["y"]).text
  {
    CrossedWellFormed();
    var ts := Crossed();
    assert ts[0] in ts && ts[2] in ts;
    LeadsMeansGroups(c, ["x"], "x", ts[0], "u", false);
    LeadsMeansGroups(c, ["y"], "y", ts[2], "u", false);
    hide NDegree, Crossed, OrderIn, WellFormedGraph, IdealHash, AlikeEdges, HashesAt;
    if NDegree(c, "x", ["x"]).text == NDegree(c, "y", ["y"]).text {
      var a, b := EqualHashesShareEdge(c, ["x"], "x", ["y"], "y");
      CrossedUnlike(c, ["x"], a, ["y"], b);
    }
  }

  lemma CrossedTies(sha: string -> string)
    requires IdealHash(sha)
    ensures TiesComeApart(sha, Crossed())
  {
    var ts := Crossed();
    CrossedUnique(sha);
    forall k, x, y | 0 <= k <= |Ties(sha, ts)| ensures ComeApart(sha, ts, k, x, y) {
      CrossedPair(sha, k, x, y);
    }
  }

  lemma CrossedOpen(c: Context, x: string, y: string)
    requires IdealHash(c.sha) && c.ts == Crossed() && "u" in c.canon && "v" in c.canon
    requires x != y && x !in c.canon && y !in c.canon && GoodOrder(c.ts, [x]) && GoodOrder(c.ts, [y])
    ensures NDegree(c, x, [x]).text != NDegree(c, y, [y]).text
  {
    hide NDegree, Crossed, BNodes, IdealHash;
    InNodes1(c.ts, x);
    InNodes1(c.ts, y);
    CrossedNodes(x);
    CrossedNodes(y);
    CrossedApart(c);
  }

  lemma CrossedPair(sha: string -> string, k: nat, x: string, y: string)
    requires IdealHash(sha) && k <= |Ties(sha, Crossed())|
    requires UniqueHash(sha, Crossed(), "u") && UniqueHash(sha, Crossed(), "v")
    ensures ComeApart(sha, Crossed(), k, x, y)
  {
    var c := Context(sha, Crossed(), OrderBefore(sha, Crossed(), k));
    hide NDegree, Crossed, Ties, OrderBefore, BNodes, FirstDegree, IdealHash, UniqueHash, OrderIn;
    UniqueIsIssued(sha, Crossed(), k, "u");
    UniqueIsIssued(sha, Crossed(), k, "v");
    if x != y && x !in c.canon && y !in c.canon && GoodOrder(c.ts, [x]) && GoodOrder(c.ts, [y]) {
      CrossedOpen(c, x, y);
    }
  }

  lemma InNodes1(ts: seq<Triple>, x: string)
    requires GoodOrder(ts, [x])
    ensures x in BNodes(ts)
  {
    hide BNodes;
    assert [x][0] in Elements([x]);
  }

  /** Where b is no object, its appearances are the triples with b as subject: those at the places listed. */
  lemma {:induction false} SubjectAppearances(ts: seq<Triple>, b: string, places: seq<nat>)
    requires forall i, j :: 0 <= i < j < |places| ==> places[i] < places[j]
    requires forall k :: 0 <= k < |ts| ==> ts[k].o != BNode(b) && (ts[k].s == BNode(b) <==> k in places)
    requires forall i :: 0 <= i < |places| ==> places[i] < |ts|
    ensures |Appearances(ts, b)| == |places| && forall i :: 0 <= i < |places| ==> Appearances(ts, b)[i] == ts[places[i]]
  {
    if ts == [] {
      assert places == [];
    } else {
      var k, n := |ts| - 1, |places|;
      if k in places {
        assert places[n - 1] == k by { var i :| 0 <= i < n && places[i] == k; }
        assert forall j :: 0 <= j < k ==> (j in places <==> j in places[..n - 1]);
        SubjectAppearances(ts[..k], b, places[..n - 1]);
      } else {
        SubjectAppearances(ts[..k], b, places);
      }
    }
  }

  /** What b sees, when it is subject of two triples only. */
  lemma TwoSeen(ts: seq<Triple>, b: string, i: nat, j: nat)
    requires i < j < |ts|
    requires forall k :: 0 <= k < |ts| ==> ts[k].o != BNode(b) && (ts[k].s == BNode(b) <==> k == i || k == j)
    ensures Surroundings(ts, b) == multiset{SeenFrom(b)(ts[i]), SeenFrom(b)(ts[j])}
  {
    SubjectAppearances(ts, b, [i, j]);
    hide SeenFrom, Appearances;
    assert Appearances(ts, b) == [ts[i], ts[j]];
    assert Map(SeenFrom(b), [ts[i], ts[j]]) == [SeenFrom(b)(ts[i]), SeenFrom(b)(ts[j])];
  }

  lemma OneSeen(ts: seq<Triple>, b: string, i: nat)
    requires i < |ts|
    requires forall k :: 0 <= k < |ts| ==> ts[k].o != BNode(b) && (ts[k].s == BNode(b) <==> k == i)
    ensures Surroundings(ts, b) == multiset{SeenFrom(b)(ts[i])}
  {
    SubjectAppearances(ts, b, [i]);
    hide SeenFrom, Appearances;
    assert Appearances(ts, b) == [ts[i]];
    assert Map(SeenFrom(b), [ts[i]]) == [SeenFrom(b)(ts[i])];
  }

  function Outgoing(p: string): Triple {
    Triple(BNode("a"), Iri(p), BNode("z"))
  }

  lemma SeesArc(x: string, p: string, y: string)
    requires x != y
    ensures SeenFrom(x)(Arc(x, p, y)) == Outgoing(p)
  {
  }

  lemma XSeesBoth()
    ensures Surroundings(Crossed(), "x") == multiset{Outgoing("p"), Outgoing("q")}
  {
    TwoSeen(Crossed(), "x", 0, 1);
    SeesArc("x", "p", "u");
    SeesArc("x", "q", "v");
  }

  lemma YSeesBoth()
    ensures Surroundings(Crossed(), "y") == multiset{Outgoing("q"), Outgoing("p")}
  {
    TwoSeen(Crossed(), "y", 2, 3);
    SeesArc("y", "q", "u");
    SeesArc("y", "p", "v");
  }

  lemma CrossedTie(sha: string -> string)
    requires OneToOne(sha)
    ensures FirstDegree(sha, Crossed(), "x") == FirstDegree(sha, Crossed(), "y")
  {
    CrossedWellFormed();
    XSeesBoth();
    YSeesBoth();
    hide FirstDegree, WellFormedGraph, Surroundings, Crossed, Outgoing;
    FirstDegreeExactly(sha, Crossed(), "x", Crossed(), "y");
  }

  /** A tie settled by nothing but the predicates: from x and y, the same nodes are reached at the same end. */
  lemma PredicateSettles(sha: string -> string)
    requires IdealHash(sha)
    ensures Decided(sha, Crossed()) && !TieFree(sha, Crossed())
  {
    CrossedWellFormed();
    CrossedSeparated();
    CrossedTies(sha);
    CrossedTie(sha);
    CrossedNodes("x");
    CrossedNodes("y");
    hide FirstDegree, BNodes, Crossed, WellFormedGraph, IdealHash, SeparatedEdges, TiesComeApart;
    ApartIsDecided(sha, Crossed());
    assert "x" != "y";
  }
}
