/**
 Graphs with ties that the N-degree search decides: blank nodes in pairs, where tied nodes hang on
 partners that their own triples tell apart.

 The search compares a single path per group there, and the paths of tied nodes end in the different
 canonical identifiers of their partners.
 */
module PairedTies {
  import opened Sequences
  import opened Text
  import opened Terms
  import opened Isomorphism
  import opened Issuing
  import opened CanonicalForm
  import opened CanonicalDigest
  import opened Canonicalizer
  import opened TieInvariance
  import opened CanonicalInvariance
  import opened Components

  ghost predicate Neighbour(ts: seq<Triple>, x: string, y: string) {
    x != y && Linked(ts, x, y)
  }

  ghost predicate OneNeighbour(ts: seq<Triple>) {
    forall x, y, z :: Neighbour(ts, x, y) && Neighbour(ts, x, z) ==> y == z
  }

  ghost predicate UniqueHash(sha: string -> string, ts: seq<Triple>, u: string) {
    u in BNodes(ts) && forall b :: b in BNodes(ts) && FirstDegree(sha, ts, b) == FirstDegree(sha, ts, u) ==> b == u
  }

  ghost predicate HasUniquePartner(sha: string -> string, ts: seq<Triple>, x: string) {
    exists u :: Neighbour(ts, x, u) && UniqueHash(sha, ts, u)
  }

  /** Blank nodes in pairs, and every tied one has a partner with a hash of its own. */
  ghost predicate Paired(sha: string -> string, ts: seq<Triple>) {
    && OneNeighbour(ts)
    && forall x, y :: x in BNodes(ts) && y in BNodes(ts) && x != y && FirstDegree(sha, ts, x) == FirstDegree(sha, ts, y)
         ==> HasUniquePartner(sha, ts, x)
  }

  // ----- one path per group -----

  lemma GroupIsPartner(c: Context, order: seq<string>, id: string, h: string)
    requires OneNeighbour(c.ts) && h in GroupsOf(c, order, id, QuadsOf(c.ts, id))
    ensures var g := GroupsOf(c, order, id, QuadsOf(c.ts, id))[h]; |g| == 1 && Neighbour(c.ts, id, g[0])
  {
    var groups := GroupsOf(c, order, id, QuadsOf(c.ts, id));
    var g := groups[h];
    hide GroupsOf, QuadsOf, RelatedBy, OneNeighbour, Neighbour;
    forall i | 0 <= i < |g| ensures Neighbour(c.ts, id, g[i]) {
      assert Grouped(groups, h, g[i]);
      SearchGroupsMember(c, order, id, h, g[i]);
      var t :| t in c.ts && RelatedBy(c, order, id, t, h, g[i]);
      RelatedIsNeighbour(c, order, id, t, h, g[i]);
    }
    SinglePartner(c.ts, id, g);
  }

  lemma SinglePartner(ts: seq<Triple>, id: string, g: seq<string>)
    requires OneNeighbour(ts) && g != [] && NoDuplicates(g) && forall i :: 0 <= i < |g| ==> Neighbour(ts, id, g[i])
    ensures |g| == 1
  {
    hide Neighbour;
    forall i | 0 <= i < |g| ensures g[i] == g[0] { SamePartner(ts, id, g[i], g[0]); }
    assert Elements(g) == {g[0]};
    CardinalityOfNoDuplicates(g);
  }

  lemma RelatedIsNeighbour(c: Context, order: seq<string>, id: string, t: Triple, h: string, x: string)
    requires t in c.ts && RelatedBy(c, order, id, t, h, x)
    ensures Neighbour(c.ts, id, x)
  {
    hide Identify, EdgeText;
    assert id in TripleBNodes(t) && x in TripleBNodes(t);
  }

  /** A node with a neighbour has a group. */
  lemma PartnerGrouped(c: Context, order: seq<string>, id: string, u: string)
    requires Neighbour(c.ts, id, u)
    ensures GroupsOf(c, order, id, QuadsOf(c.ts, id)) != map[]
  {
    hide Identify, EdgeText, GroupsOf, QuadsOf;
    var t :| t in c.ts && id in TripleBNodes(t) && u in TripleBNodes(t);
    var h := c.sha(EdgeText(t.p, if t.s == BNode(u) then 's' else 'o') + Identify(c, order, u));
    assert RelatedBy(c, order, id, t, h, u);
    SearchGroupsMember(c, order, id, h, u);
  }

  lemma PairsDecisive(sha: string -> string, ts: seq<Triple>, canon: seq<string>)
    requires OneNeighbour(ts)
    ensures Decisive(Context(sha, ts, canon))
  {
    var c := Context(sha, ts, canon);
    hide GroupsOf, QuadsOf, OneNeighbour, SameChoice, Neighbour;
    forall id, start, order, h | GoodOrder(c.ts, start) && h in GroupsOf(c, start, id, QuadsOf(c.ts, id))
      ensures SameChoice(c, order, GroupsOf(c, start, id, QuadsOf(c.ts, id))[h])
    {
      GroupIsPartner(c, start, id, h);
      OneArrangement(c, order, GroupsOf(c, start, id, QuadsOf(c.ts, id))[h]);
    }
  }

  lemma OneArrangement(c: Context, order: seq<string>, group: seq<string>)
    requires |group| == 1
    ensures SameChoice(c, order, group)
  {
    hide RunPermutation;
    assert Permutations(group) == [group];
  }

  // ----- the paths of tied nodes -----

  /** A group of one node that has a canonical identifier gives that identifier as its path. */
  lemma IssuedGroup(c: Context, order: seq<string>, u: string)
    requires GoodOrder(c.ts, order) && u in BNodes(c.ts) && u in c.canon
    ensures ResolveGroup(c, order, [u]) == Outcome("_:" + CanonicalLabel(c.canon, u), order)
  {
    var perms := Permutations([u]);
    assert perms == [[u]];
    assert Visit(c.canon, order, []) == Trail("", order, []);
    assert [u][..0] == [];
    assert Visit(c.canon, order, [u]) == Trail("_:" + CanonicalLabel(c.canon, u), order, []);
    assert RunPermutation(c, order, [u]) == Outcome("_:" + CanonicalLabel(c.canon, u), order);
    assert BestOf(c, order, perms, 0) == Nothing;
    assert BestOf(c, order, perms, 1) == Best(RunPermutation(c, order, perms[0]));
  }

  ghost predicate EndsIn(s: string, end: string) {
    exists t :: s == t + end
  }

  /** Where every group is the partner u, the data to hash ends in u's canonical identifier. */
  lemma TextEndsInLabel(c: Context, order: seq<string>, g: Groups, hashes: seq<string>, k: nat, u: string)
    requires GoodOrder(c.ts, order) && GoodGroups(c.ts, g) && 0 < k <= |hashes|
    requires forall h :: h in hashes ==> h in g && g[h] == [u]
    requires u in c.canon && u in BNodes(c.ts)
    ensures EndsIn(ResolveGroups(c, order, g, hashes, k).text, "n" + Decimal(IndexOf(c.canon, u)))
  {
    hide ResolveGroup, GoodGroups;
    var before := ResolveGroups(c, order, g, hashes, k - 1);
    assert hashes[k - 1] in g;
    IssuedGroup(c, before.order, u);
    var whole := ResolveGroups(c, order, g, hashes, k).text;
    var end := "n" + Decimal(IndexOf(c.canon, u));
    assert "_:" + CanonicalLabel(c.canon, u) == "_:c14" + end;
    assert whole == (before.text + hashes[k - 1] + "_:c14") + end;
  }

  lemma SearchEndsInLabel(c: Context, x: string, u: string) returns (data: string)
    requires OneNeighbour(c.ts) && Neighbour(c.ts, x, u) && GoodOrder(c.ts, [x])
    requires u in c.canon && u in BNodes(c.ts)
    ensures NDegree(c, x, [x]).text == c.sha(data)
    ensures EndsIn(data, "n" + Decimal(IndexOf(c.canon, u)))
  {
    hide GroupsOf, QuadsOf, ResolveGroups, Neighbour, OneNeighbour;
    var g := GroupsOf(c, [x], x, QuadsOf(c.ts, x));
    var hashes := Ascending(g.Keys);
    PartnerGrouped(c, [x], x, u);
    assert hashes != [] by { assert Elements(hashes) == g.Keys; var h :| h in g; assert h in Elements(hashes); }
    forall h | h in hashes ensures h in g && g[h] == [u] {
      assert h in Elements(hashes);
      GroupIsPartner(c, [x], x, h);
      SamePartner(c.ts, x, g[h][0], u);
    }
    TextEndsInLabel(c, [x], g, hashes, |hashes|, u);
    data := ResolveGroups(c, [x], g, hashes, |hashes|).text;
  }

  lemma SamePartner(ts: seq<Triple>, x: string, y: string, z: string)
    requires OneNeighbour(ts) && Neighbour(ts, x, y) && Neighbour(ts, x, z)
    ensures y == z
  {
    hide Neighbour;
  }

  /** The number at the end of a text is determined by the text. */
  lemma EndDetermined(s: string, k: nat, l: nat)
    requires EndsIn(s, "n" + Decimal(k)) && EndsIn(s, "n" + Decimal(l))
    ensures k == l
  {
    hide Decimal;
    var t :| s == t + ("n" + Decimal(k));
    var u :| s == u + ("n" + Decimal(l));
    NotLonger(s, t, Decimal(k), u, Decimal(l));
    NotLonger(s, u, Decimal(l), t, Decimal(k));
    SameEnd(s, t, Decimal(k), u, Decimal(l));
    DecimalInjective(k, l);
  }

  lemma SameEnd(s: string, t: string, a: string, u: string, b: string)
    requires s == t + ("n" + a) && s == u + ("n" + b) && |a| == |b|
    ensures a == b
  {
    assert s[|s| - |a|..] == a && s[|s| - |b|..] == b;
  }

  lemma NotLonger(s: string, t: string, a: string, u: string, b: string)
    requires s == t + ("n" + a) && s == u + ("n" + b) && forall c :: c in b ==> '0' <= c <= '9'
    ensures |b| <= |a|
  {
    assert s[|s| - |b|..] == b;
    if |a| < |b| { MarkWithin(s, t, a, |b|); }
  }

  lemma MarkWithin(s: string, t: string, a: string, n: nat)
    requires s == t + ("n" + a) && |a| < n <= |s|
    ensures 'n' in s[|s| - n..]
  {
    assert s[|s| - n..][n - |a| - 1] == 'n';
  }

  lemma PartnersDiffer(ts: seq<Triple>, x: string, y: string, u: string)
    requires OneNeighbour(ts) && x != y && Neighbour(ts, x, u)
    ensures !Neighbour(ts, y, u)
  {
    assert Linked(ts, x, u) && x != u;
    var t :| t in ts && x in TripleBNodes(t) && u in TripleBNodes(t);
    hide TripleBNodes;
    assert Linked(ts, u, x);
    if Neighbour(ts, y, u) {
      var s :| s in ts && y in TripleBNodes(s) && u in TripleBNodes(s);
      assert Linked(ts, u, y);
      SamePartner(ts, u, x, y);
    }
  }

  /** So tied nodes end with different hashes. */
  lemma TiedSearchesDiffer(c: Context, x: string, u: string, y: string, v: string)
    requires OneToOne(c.sha) && OneNeighbour(c.ts) && x != y
    requires Neighbour(c.ts, x, u) && Neighbour(c.ts, y, v)
    requires GoodOrder(c.ts, [x]) && GoodOrder(c.ts, [y]) && GoodOrder(c.ts, c.canon)
    requires u in c.canon && u in BNodes(c.ts) && v in c.canon && v in BNodes(c.ts)
    ensures NDegree(c, x, [x]).text != NDegree(c, y, [y]).text
  {
    hide NDegree, BNodes, Neighbour, OneNeighbour;
    PartnersDiffer(c.ts, x, y, u);
    var p := SearchEndsInLabel(c, x, u);
    var q := SearchEndsInLabel(c, y, v);
    if p == q {
      EndDetermined(p, IndexOf(c.canon, u), IndexOf(c.canon, v));
      SameIndexSame(c.canon, u, v);
    }
  }

  lemma SameIndexSame(order: seq<string>, u: string, v: string)
    requires u in order && v in order && IndexOf(order, u) == IndexOf(order, v)
    ensures u == v
  {
  }

  // ----- the theorem -----

  lemma UniqueIsIssued(sha: string -> string, ts: seq<Triple>, k: nat, u: string)
    requires UniqueHash(sha, ts, u) && k <= |Ties(sha, ts)|
    ensures u in OrderBefore(sha, ts, k)
  {
    hide FirstDegree, Ties, OrderBefore, IssueUniques, Resolver;
    var hs, cs := Ascending(Hashes(sha, ts)), Classes(sha, ts);
    assert FirstDegree(sha, ts, u) in Elements(hs);
    var i := IndexOf(hs, FirstDegree(sha, ts, u));
    assert cs[i] == HashClass(sha, ts, hs[i]) == {u};
    hide BNodes, Classes, UniqueHash;
    ClassesCover(sha, ts);
    UniquesIssued(BNodes(ts), cs, |cs|);
    UniquesFirst(sha, ts, k);
    assert u in Elements(OrderBefore(sha, ts, 0));
  }

  lemma {:induction false} UniquesFirst(sha: string -> string, ts: seq<Triple>, k: nat)
    requires k <= |Ties(sha, ts)|
    ensures OrderBefore(sha, ts, 0) == IssueUniques(Classes(sha, ts), |Classes(sha, ts)|)
    ensures Elements(OrderBefore(sha, ts, 0)) <= Elements(OrderBefore(sha, ts, k))
  {
    UniquesAtZero(sha, ts);
    hide Classes, IssueUniques, ResolveClass, BNodes, OrderIn, Ties, OrderBefore;
    if k > 0 {
      UniquesFirst(sha, ts, k - 1);
      OrderStep(sha, ts, k - 1);
      ResolvedGrows(sha, ts, OrderBefore(sha, ts, k - 1), Ties(sha, ts)[k - 1]);
    }
  }

  lemma UniquesAtZero(sha: string -> string, ts: seq<Triple>)
    ensures OrderBefore(sha, ts, 0) == IssueUniques(Classes(sha, ts), |Classes(sha, ts)|)
  {
    hide Classes, IssueUniques, Ties;
  }

  lemma ResolvedGrows(sha: string -> string, ts: seq<Triple>, canon: seq<string>, group: seq<string>)
    requires GoodOrder(ts, canon) && Elements(group) <= BNodes(ts)
    ensures Elements(canon) <= Elements(ResolveClass(sha, ts, canon, group))
  {
    hide ResolveClass, BNodes;
    assert canon <= ResolveClass(sha, ts, canon, group);
  }

  lemma {:induction false} TiedHaveOneHash(sha: string -> string, ts: seq<Triple>, k: nat, j: nat)
    requires k <= |Classes(sha, ts)| && j < |TiedClasses(Ascending, Classes(sha, ts), k)|
    ensures var g := TiedClasses(Ascending, Classes(sha, ts), k)[j];
      && NoDuplicates(g)
      && forall x, y :: x in g && y in g ==> FirstDegree(sha, ts, x) == FirstDegree(sha, ts, y) && x in BNodes(ts)
  {
    hide FirstDegree, BNodes, Hashes;
    var cs := Classes(sha, ts);
    if j < |TiedClasses(Ascending, cs, k - 1)| {
      TiedHaveOneHash(sha, ts, k - 1, j);
    } else {
      var g := Ascending(cs[k - 1]);
      assert Enumerates(g, cs[k - 1]);
      forall x | x in g ensures x in HashClass(sha, ts, Ascending(Hashes(sha, ts))[k - 1]) { assert x in Elements(g); }
    }
  }

  lemma ClassDecided(sha: string -> string, ts: seq<Triple>, k: nat)
    requires OneToOne(sha) && Paired(sha, ts) && k < |Ties(sha, ts)|
    ensures DecidedAt(sha, ts, OrderBefore(sha, ts, k), Ties(sha, ts)[k])
  {
    hide OneNeighbour, FirstDegree, Ties, OrderBefore, Classes, Decisive, HasUniquePartner, Results, BNodes, OneToOne, Texts;
    PairsDecisive(sha, ts, OrderBefore(sha, ts, k));
    OrderBeforeGood(sha, ts, k);
    TiedPartners(sha, ts, k);
    ClassTextsDiffer(sha, ts, k, Ties(sha, ts)[k]);
  }

  lemma TiedPartners(sha: string -> string, ts: seq<Triple>, k: nat)
    requires Paired(sha, ts) && k < |Ties(sha, ts)|
    ensures NoDuplicates(Ties(sha, ts)[k])
    ensures |Ties(sha, ts)[k]| > 1 ==> forall x :: x in Ties(sha, ts)[k] ==> HasUniquePartner(sha, ts, x)
  {
    hide FirstDegree, Classes, HasUniquePartner, BNodes, Paired;
    TiedHaveOneHash(sha, ts, |Classes(sha, ts)|, k);
    var g := Ties(sha, ts)[k];
    hide Ties;
    if |g| > 1 {
      forall x | x in g ensures HasUniquePartner(sha, ts, x) {
        var y := Other(g, x);
        TiedPartner(sha, ts, x, y);
      }
    }
  }

  lemma Other(g: seq<string>, x: string) returns (y: string)
    requires NoDuplicates(g) && |g| > 1
    ensures y in g && y != x
  {
    y := if g[0] == x then g[1] else g[0];
  }

  lemma TiedPartner(sha: string -> string, ts: seq<Triple>, x: string, y: string)
    requires Paired(sha, ts) && x in BNodes(ts) && y in BNodes(ts) && x != y
    requires FirstDegree(sha, ts, x) == FirstDegree(sha, ts, y)
    ensures HasUniquePartner(sha, ts, x)
  {
    hide FirstDegree, BNodes, OneNeighbour, HasUniquePartner;
  }

  lemma ClassTextsDiffer(sha: string -> string, ts: seq<Triple>, k: nat, group: seq<string>)
    requires OneToOne(sha) && OneNeighbour(ts) && k <= |Ties(sha, ts)|
    requires NoDuplicates(group) && Elements(group) <= BNodes(ts)
    requires |group| > 1 ==> forall x :: x in group ==> HasUniquePartner(sha, ts, x)
    ensures NoDuplicates(Texts(Results(Context(sha, ts, OrderBefore(sha, ts, k)), group, |group|)))
  {
    hide OneNeighbour, Ties, OrderBefore, HasUniquePartner, NDegree, Results, Open, BNodes, OneToOne, GoodOrder, NoDuplicates;
    var c := Context(sha, ts, OrderBefore(sha, ts, k));
    ResultsAreSearches(c, group, |group|);
    OpenMembers(c.canon, group, |group|);
    var open, texts := Open(c.canon, group, |group|), Texts(Results(c, group, |group|));
    assert group[..|group|] == group;
    forall i, j | 0 <= i < j < |texts| ensures texts[i] != texts[j] {
      TwoMembers(open, group, i, j);
      MembersDiffer(sha, ts, k, open[i], open[j]);
    }
    DistinctTexts(texts);
  }

  lemma DistinctTexts(texts: seq<string>)
    requires forall i, j :: 0 <= i < j < |texts| ==> texts[i] != texts[j]
    ensures NoDuplicates(texts)
  {
  }

  lemma TwoMembers(open: seq<string>, group: seq<string>, i: nat, j: nat)
    requires NoDuplicates(open) && i < j < |open| && forall x :: x in open ==> x in group
    ensures open[i] != open[j] && open[i] in group && open[j] in group && |group| > 1
  {
  }

  lemma MembersDiffer(sha: string -> string, ts: seq<Triple>, k: nat, x: string, y: string)
    requires OneToOne(sha) && OneNeighbour(ts) && k <= |Ties(sha, ts)| && x != y
    requires HasUniquePartner(sha, ts, x) && HasUniquePartner(sha, ts, y)
    requires GoodOrder(ts, [x]) && GoodOrder(ts, [y])
    ensures var c := Context(sha, ts, OrderBefore(sha, ts, k)); NDegree(c, x, [x]).text != NDegree(c, y, [y]).text
  {
    hide OneNeighbour, Ties, OrderBefore, UniqueHash, Neighbour, NDegree, BNodes, OneToOne, GoodOrder;
    var u :| Neighbour(ts, x, u) && UniqueHash(sha, ts, u);
    var v :| Neighbour(ts, y, v) && UniqueHash(sha, ts, v);
    OrderBeforeGood(sha, ts, k);
    UniqueIsIssued(sha, ts, k, u);
    UniqueIsIssued(sha, ts, k, v);
    UniqueIsNode(sha, ts, u);
    UniqueIsNode(sha, ts, v);
    TiedSearchesDiffer(Context(sha, ts, OrderBefore(sha, ts, k)), x, u, y, v);
  }

  lemma UniqueIsNode(sha: string -> string, ts: seq<Triple>, u: string)
    requires UniqueHash(sha, ts, u)
    ensures u in BNodes(ts)
  {
  }

  /** With a hash that does not collide, the search decides every tie of a paired graph. */
  lemma PairedDecided(sha: string -> string, ts: seq<Triple>)
    requires OneToOne(sha) && Paired(sha, ts)
    ensures Decided(sha, ts)
  {
    hide Paired, OneToOne, DecidedAt;
    forall k | 0 <= k < |Ties(sha, ts)| ensures DecidedAt(sha, ts, OrderBefore(sha, ts, k), Ties(sha, ts)[k]) {
      ClassDecided(sha, ts, k);
    }
  }

  // ----- one such graph -----

  lemma {:induction false} LineOf(ts: seq<Triple>, n: string, l: string)
    ensures l in FirstDegreeLines(ts, n) <==> exists t :: t in ts && Incident(t, n) && l == NtTriple(t, SelfNaming(n))
  {
    hide NtTriple;
    if ts != [] {
      var k := |ts| - 1;
      LineOf(ts[..k], n, l);
      FirstDegreeLinesStep(ts, n);
      assert forall t :: t in ts <==> t in ts[..k] || t == ts[k];
    }
  }

  /** A line of x that y does not have tells their hashes apart. */
  lemma TripleSeparates(sha: string -> string, ts: seq<Triple>, x: string, y: string, t: Triple)
    requires OneToOne(sha) && WellFormedGraph(ts) && t in ts && Incident(t, x)
    requires forall u :: u in ts && Incident(u, y) ==> RelabelTriple(SelfNaming(x), t) != RelabelTriple(SelfNaming(y), u)
    requires forall u :: u in ts ==> NormTriple(u) == u
    ensures FirstDegree(sha, ts, x) != FirstDegree(sha, ts, y)
  {
    hide NtTriple, RelabelTriple, Concat, Sort, SelfNaming, Incident, FirstDegreeLines, NormTriple, WellFormed;
    var a, b := FirstDegreeLines(ts, x), FirstDegreeLines(ts, y);
    var l := NtTriple(t, SelfNaming(x));
    LineOf(ts, x, l);
    LineOf(ts, y, l);
    forall u | u in ts && Incident(u, y) ensures l != NtTriple(u, SelfNaming(y)) { OtherLine(t, x, u, y); }
    if FirstDegree(sha, ts, x) == FirstDegree(sha, ts, y) { SameHashSameLines(sha, ts, x, y); }
  }

  lemma OtherLine(t: Triple, x: string, u: Triple, y: string)
    requires WellFormed(t) && WellFormed(u) && NormTriple(t) == t && NormTriple(u) == u
    requires RelabelTriple(SelfNaming(x), t) != RelabelTriple(SelfNaming(y), u)
    ensures NtTriple(t, SelfNaming(x)) != NtTriple(u, SelfNaming(y))
  {
    hide NtTriple;
    TripleDecodes(t, SelfNaming(x), u, SelfNaming(y));
  }

  lemma SameHashSameLines(sha: string -> string, ts: seq<Triple>, x: string, y: string)
    requires OneToOne(sha) && WellFormedGraph(ts) && FirstDegree(sha, ts, x) == FirstDegree(sha, ts, y)
    ensures forall l :: l in FirstDegreeLines(ts, x) <==> l in FirstDegreeLines(ts, y)
  {
    hide NtTriple, Concat, Sort, SelfNaming, WellFormed;
    var a, b := FirstDegreeLines(ts, x), FirstDegreeLines(ts, y);
    SortedAreLines(ts, x);
    SortedAreLines(ts, y);
    LinesOfDocument(Sort(a), Sort(b));
    forall l ensures l in a <==> l in b { assert l in multiset(Sort(a)) <==> l in multiset(a); assert l in multiset(Sort(b)) <==> l in multiset(b); }
  }

  lemma SortedAreLines(ts: seq<Triple>, x: string)
    requires WellFormedGraph(ts)
    ensures forall l :: l in Sort(FirstDegreeLines(ts, x)) ==> IsLine(l)
    ensures multiset(Sort(FirstDegreeLines(ts, x))) == multiset(FirstDegreeLines(ts, x))
  {
    hide NtTriple, IsLine, FirstDegreeLines, WellFormed;
    var a := FirstDegreeLines(ts, x);
    forall l | l in Sort(a) ensures IsLine(l) {
      assert l in multiset(Sort(a));
      LineOf(ts, x, l);
      var t :| t in ts && Incident(t, x) && l == NtTriple(t, SelfNaming(x));
      RelabelledIsLine(t, x);
    }
  }

  lemma RelabelledIsLine(t: Triple, x: string)
    requires WellFormed(t)
    ensures IsLine(NtTriple(t, SelfNaming(x)))
  {
    TripleIsLine(t, SelfNaming(x));
  }

  function TwoPairs(): seq<Triple> {
    [Triple(BNode("x"), Iri("p"), BNode("u")), Triple(BNode("y"), Iri("p"), BNode("v")),
     Triple(BNode("u"), Iri("q"), Iri("1")), Triple(BNode("v"), Iri("q"), Iri("2"))]
  }

  lemma TwoPairsMembers(t: Triple)
    ensures t in TwoPairs() <==> t == TwoPairs()[0] || t == TwoPairs()[1] || t == TwoPairs()[2] || t == TwoPairs()[3]
  {
  }

  lemma TwoPairsNodes(b: string)
    ensures b in BNodes(TwoPairs()) <==> b == "x" || b == "y" || b == "u" || b == "v"
  {
    var ts := TwoPairs();
    forall t ensures t in ts <==> t == ts[0] || t == ts[1] || t == ts[2] || t == ts[3] { TwoPairsMembers(t); }
    assert "x" in TripleBNodes(ts[0]) && "u" in TripleBNodes(ts[0]) && "y" in TripleBNodes(ts[1]) && "v" in TripleBNodes(ts[1]);
    assert ts[0] in ts && ts[1] in ts;
  }

  lemma TwoPairsWellFormed()
    ensures WellFormedGraph(TwoPairs()) && forall t :: t in TwoPairs() ==> NormTriple(t) == t
  {
    var ts := TwoPairs();
    forall t | t in ts ensures WellFormed(t) && NormTriple(t) == t { TwoPairsMembers(t); }
  }

  function Partner(b: string): string {
    if b == "x" then "u" else if b == "u" then "x" else if b == "y" then "v" else "y"
  }

  lemma PartnersOnly(a: string, b: string)
    requires Neighbour(TwoPairs(), a, b)
    ensures b == Partner(a)
  {
    var ts := TwoPairs();
    var t :| t in ts && a in TripleBNodes(t) && b in TripleBNodes(t);
    TwoPairsMembers(t);
  }

  lemma TwoPairsNeighbours()
    ensures OneNeighbour(TwoPairs()) && Neighbour(TwoPairs(), "x", "u") && Neighbour(TwoPairs(), "y", "v")
  {
    var ts := TwoPairs();
    assert ts[0] in ts && "x" in TripleBNodes(ts[0]) && "u" in TripleBNodes(ts[0]);
    assert ts[1] in ts && "y" in TripleBNodes(ts[1]) && "v" in TripleBNodes(ts[1]);
    hide Neighbour, TwoPairs, Partner;
    forall a, b, c | Neighbour(TwoPairs(), a, b) && Neighbour(TwoPairs(), a, c) ensures b == c {
      PartnersOnly(a, b);
      PartnersOnly(a, c);
    }
  }

  lemma OneLine(ts: seq<Triple>, n: string, i: nat)
    requires |ts| == 4 && i < 2 && ts[i].s == BNode(n) && !(ts[i].o == BNode(n))
    requires forall k :: 0 <= k < 4 && k != i ==> !Incident(ts[k], n)
    ensures FirstDegreeLines(ts, n) == [NtTriple(ts[i], SelfNaming(n))]
  {
    hide NtTriple;
    assert FirstDegreeLines([], n) == [];
    assert ts[..4] == ts && ts[..4][..3] == ts[..3] && ts[..3][..2] == ts[..2] && ts[..2][..1] == ts[..1] && ts[..1][..0] == [];
    FirstDegreeLinesStep(ts, n);
    FirstDegreeLinesStep(ts[..3], n);
    FirstDegreeLinesStep(ts[..2], n);
    FirstDegreeLinesStep(ts[..1], n);
  }

  lemma XAndYTie(sha: string -> string)
    ensures FirstDegree(sha, TwoPairs(), "x") == FirstDegree(sha, TwoPairs(), "y")
  {
    hide NtTriple, FirstDegreeLines;
    var ts := TwoPairs();
    OneLine(ts, "x", 0);
    OneLine(ts, "y", 1);
    TripleDecodes(ts[0], SelfNaming("x"), ts[1], SelfNaming("y"));
  }

  lemma OthersDiffer(x: string, t: Triple, y: string, u: Triple)
    requires (x == "u" && t == TwoPairs()[2]) || (x == "v" && t == TwoPairs()[3])
    requires u in TwoPairs() && Incident(u, y) && x != y
    ensures RelabelTriple(SelfNaming(x), t) != RelabelTriple(SelfNaming(y), u)
  {
    TwoPairsMembers(u);
    assert RelabelTriple(SelfNaming(x), t).p == t.p && RelabelTriple(SelfNaming(x), t).o == t.o;
    assert RelabelTriple(SelfNaming(y), u).p == u.p;
  }

  lemma PartnerApart(sha: string -> string, x: string, t: Triple, y: string)
    requires OneToOne(sha) && x != y
    requires (x == "u" && t == TwoPairs()[2]) || (x == "v" && t == TwoPairs()[3])
    ensures FirstDegree(sha, TwoPairs(), x) != FirstDegree(sha, TwoPairs(), y)
  {
    var ts := TwoPairs();
    TwoPairsWellFormed();
    TwoPairsMembers(t);
    assert Incident(t, x);
    hide FirstDegree, TwoPairs, Incident, RelabelTriple, NormTriple, WellFormedGraph, OneToOne;
    forall u | u in ts && Incident(u, y) ensures RelabelTriple(SelfNaming(x), t) != RelabelTriple(SelfNaming(y), u) {
      OthersDiffer(x, t, y, u);
    }
    TripleSeparates(sha, ts, x, y, t);
  }

  lemma PartnerUnique(sha: string -> string, x: string)
    requires OneToOne(sha) && (x == "u" || x == "v")
    ensures UniqueHash(sha, TwoPairs(), x)
  {
    TwoPairsNodes(x);
    hide FirstDegree, OneToOne, BNodes;
    forall b | b in BNodes(TwoPairs()) && FirstDegree(sha, TwoPairs(), b) == FirstDegree(sha, TwoPairs(), x) ensures b == x {
      if b != x { PartnerApart(sha, x, if x == "u" then TwoPairs()[2] else TwoPairs()[3], b); }
    }
  }

  lemma TiedIsLeaf(sha: string -> string, ts: seq<Triple>, x: string, y: string, u: string)
    requires UniqueHash(sha, ts, u) && x in BNodes(ts) && y in BNodes(ts) && x != y
    requires FirstDegree(sha, ts, x) == FirstDegree(sha, ts, y)
    ensures x != u
  {
    hide FirstDegree, BNodes;
  }

  lemma TwoPairsPaired(sha: string -> string)
    requires OneToOne(sha)
    ensures Paired(sha, TwoPairs())
  {
    var ts := TwoPairs();
    PartnerUnique(sha, "u");
    PartnerUnique(sha, "v");
    TwoPairsNeighbours();
    hide FirstDegree, BNodes, Neighbour, UniqueHash, TwoPairs, OneNeighbour;
    forall x, y | x in BNodes(ts) && y in BNodes(ts) && x != y && FirstDegree(sha, ts, x) == FirstDegree(sha, ts, y)
      ensures HasUniquePartner(sha, ts, x)
    {
      TwoPairsNodes(x);
      TiedIsLeaf(sha, ts, x, y, "u");
      TiedIsLeaf(sha, ts, x, y, "v");
    }
  }

  /** Four blank nodes with a tie that the search decides: x and y look alike, and hang on u and v. */
  lemma TiedAndDecided(sha: string -> string)
    requires OneToOne(sha)
    ensures Decided(sha, TwoPairs()) && !TieFree(sha, TwoPairs())
  {
    TwoPairsNodes("x");
    TwoPairsNodes("y");
    XAndYTie(sha);
    TwoPairsPaired(sha);
    hide FirstDegree, BNodes, TwoPairs, Paired, OneToOne;
    PairedDecided(sha, TwoPairs());
    assert "x" != "y";
  }
}
