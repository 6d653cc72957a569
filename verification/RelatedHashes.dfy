/**
 What the hashes of canonicalization distinguish, under a hash without collisions: the first-degree hash
 of a blank node is its neighbourhood, and two related blank nodes share a group exactly when they are
 reached over the same predicate, from the same end, and bear the same identifier.
 */
module RelatedHashes {
  import opened Sequences
  import opened Text
  import opened Terms
  import opened Isomorphism
  import opened CanonicalForm
  import opened Canonicalizer
  import opened TieInvariance

  // ----- first degree -----

  /** The appearances of b in ts: a triple counts once for each end that is b. */
  function Appearances(ts: seq<Triple>, b: string): seq<Triple> {
    if ts == [] then []
    else
      var k := |ts| - 1;
      Appearances(ts[..k], b)
      + (if ts[k].s == BNode(b) then [ts[k]] else []) + (if ts[k].o == BNode(b) then [ts[k]] else [])
  }

  /** They, seen from b. */
  function Surroundings(ts: seq<Triple>, b: string): multiset<Triple> {
    multiset(Map(SeenFrom(b), Appearances(ts, b)))
  }

  function LineOf(b: string): Triple -> string {
    (t: Triple) => NtTriple(t, SelfNaming(b))
  }

  lemma {:induction false} LinesOfAppearances(ts: seq<Triple>, b: string)
    ensures FirstDegreeLines(ts, b) == Map(LineOf(b), Appearances(ts, b))
    ensures forall t :: t in Appearances(ts, b) ==> t in ts && Incident(t, b)
  {
    hide NtTriple;
    if ts != [] {
      var k := |ts| - 1;
      LinesOfAppearances(ts[..k], b);
      FirstDegreeLinesStep(ts, b);
      var one := (if ts[k].s == BNode(b) then [ts[k]] else []) + (if ts[k].o == BNode(b) then [ts[k]] else []);
      assert Map(LineOf(b), one) == LinesMentioning(b, ts[k]);
      MapAppend(LineOf(b), Appearances(ts[..k], b), one);
      assert Appearances(ts, b) == Appearances(ts[..k], b) + one;
    }
  }

  lemma LineTellsTriple(t: Triple, x: string, u: Triple, y: string)
    requires WellFormed(t) && WellFormed(u)
    ensures LineOf(x)(t) == LineOf(y)(u) <==> SeenFrom(x)(t) == SeenFrom(y)(u)
  {
    SelfIsSeen(t, x);
    SelfIsSeen(u, y);
    hide NormTriple, RelabelTriple, NtTriple, SeenFrom, SelfNaming;
    TripleDecodes(t, SelfNaming(x), u, SelfNaming(y));
  }

  lemma SelfIsSeen(t: Triple, b: string)
    requires WellFormed(t)
    ensures NormTriple(RelabelTriple(SelfNaming(b), t)) == SeenFrom(b)(t)
    ensures WellFormed(RelabelTriple(SelfNaming(b), t))
  {
  }

  lemma SurroundingLines(a: seq<Triple>, x: string, b: seq<Triple>, y: string)
    requires WellFormedGraph(a) && WellFormedGraph(b)
    ensures multiset(FirstDegreeLines(a, x)) == multiset(FirstDegreeLines(b, y)) <==> Surroundings(a, x) == Surroundings(b, y)
  {
    LinesOfAppearances(a, x);
    LinesOfAppearances(b, y);
    var p, q := Appearances(a, x), Appearances(b, y);
    hide LineOf, SeenFrom, FirstDegreeLines, Appearances, WellFormed, Incident;
    forall t, u | t in p && u in q ensures LineOf(x)(t) == LineOf(y)(u) <==> SeenFrom(x)(t) == SeenFrom(y)(u) {
      LineTellsTriple(t, x, u, y);
    }
    if multiset(FirstDegreeLines(a, x)) == multiset(FirstDegreeLines(b, y)) {
      ImagesCorrespond(LineOf(x), LineOf(y), SeenFrom(x), SeenFrom(y), p, q);
    }
    if Surroundings(a, x) == Surroundings(b, y) {
      ImagesCorrespond(SeenFrom(x), SeenFrom(y), LineOf(x), LineOf(y), p, q);
    }
  }

  lemma SortedLines(ts: seq<Triple>, b: string)
    requires WellFormedGraph(ts)
    ensures forall l :: l in Sort(FirstDegreeLines(ts, b)) ==> IsLine(l)
  {
    LinesOfAppearances(ts, b);
    hide NtTriple, IsLine, FirstDegreeLines, Appearances, WellFormed, Sort;
    var lines := FirstDegreeLines(ts, b);
    forall l | l in Sort(lines) ensures IsLine(l) {
      assert l in multiset(Sort(lines));
      assert l in lines;
      var i :| 0 <= i < |lines| && lines[i] == l;
      AppearanceIsLine(Appearances(ts, b)[i], b);
    }
  }

  lemma AppearanceIsLine(t: Triple, b: string)
    requires WellFormed(t)
    ensures IsLine(LineOf(b)(t))
  {
    TripleIsLine(t, SelfNaming(b));
  }

  /** Two blank nodes have one first-degree hash exactly when their surroundings are the same. */
  lemma FirstDegreeExactly(sha: string -> string, a: seq<Triple>, x: string, b: seq<Triple>, y: string)
    requires OneToOne(sha) && WellFormedGraph(a) && WellFormedGraph(b)
    ensures FirstDegree(sha, a, x) == FirstDegree(sha, b, y) <==> Surroundings(a, x) == Surroundings(b, y)
  {
    SurroundingLines(a, x, b, y);
    SortedLines(a, x);
    SortedLines(b, y);
    var p, q := FirstDegreeLines(a, x), FirstDegreeLines(b, y);
    SortCanonical(p, q);
    hide FirstDegreeLines, Surroundings, WellFormedGraph, IsLine, Sort, Concat;
    if FirstDegree(sha, a, x) == FirstDegree(sha, b, y) { LinesOfDocument(Sort(p), Sort(q)); }
  }

  // ----- groups -----

  /** A triple of the graph from id to another blank node x, which stands at its subject or object end. */
  predicate LeadsTo(ts: seq<Triple>, id: string, t: Triple, x: string, subject: bool) {
    t in ts && Incident(t, id) && x != id && (if subject then t.s == BNode(x) else t.o == BNode(x))
  }

  /** x, in a search with issuer o, and y, in one with issuer r, bear the same identifier: the same
      canonical one, else the same temporary one, else the same surroundings. */
  predicate SameIdentifier(c: Context, o: seq<string>, x: string, r: seq<string>, y: string) {
    if x in c.canon || y in c.canon then x == y
    else if x in o || y in r then x in o && y in r && IndexOf(o, x) == IndexOf(r, y)
    else Surroundings(c.ts, x) == Surroundings(c.ts, y)
  }

  function EndChar(subject: bool): char {
    if subject then 's' else 'o'
  }

  lemma IdentifierText(c: Context, order: seq<string>, x: string)
    requires IdealHash(c.sha)
    ensures x in c.canon ==> Identify(c, order, x) == "_:c14n" + Decimal(IndexOf(c.canon, x))
    ensures x !in c.canon && x in order ==> Identify(c, order, x) == "_:b" + Decimal(IndexOf(order, x))
    ensures x !in c.canon && x !in order ==> Identify(c, order, x) == FirstDegree(c.sha, c.ts, x)
    ensures x !in c.canon && x !in order ==> Identify(c, order, x) != "" && Identify(c, order, x)[0] != '_'
  {
    hide Decimal, FirstDegreeLines;
    if x in c.canon { assert "_:" + ("c14n" + Decimal(IndexOf(c.canon, x))) == "_:c14n" + Decimal(IndexOf(c.canon, x)); }
    else if x in order { assert "_:" + ("b" + Decimal(IndexOf(order, x))) == "_:b" + Decimal(IndexOf(order, x)); }
  }

  lemma NumberDecodes(prefix: string, k: nat, l: nat)
    requires prefix + Decimal(k) == prefix + Decimal(l)
    ensures k == l
  {
    hide Decimal;
    assert (prefix + Decimal(k))[|prefix|..] == Decimal(k) && (prefix + Decimal(l))[|prefix|..] == Decimal(l);
    DecimalInjective(k, l);
  }

  lemma IdentifiersTell(c: Context, o: seq<string>, x: string, r: seq<string>, y: string)
    requires IdealHash(c.sha) && WellFormedGraph(c.ts)
    ensures Identify(c, o, x) == Identify(c, r, y) <==> SameIdentifier(c, o, x, r, y)
  {
    IdentifierText(c, o, x);
    IdentifierText(c, r, y);
    FirstDegreeExactly(c.sha, c.ts, x, c.ts, y);
    hide Identify, FirstDegree, Surroundings, Decimal, WellFormedGraph, IdealHash;
    var i, j := Identify(c, o, x), Identify(c, r, y);
    if x in c.canon && y in c.canon {
      if i == j { NumberDecodes("_:c14n", IndexOf(c.canon, x), IndexOf(c.canon, y)); }
    } else if x in c.canon || y in c.canon {
      assert x in c.canon ==> i[0] == '_' && i[2] == 'c';
      assert y in c.canon ==> j[0] == '_' && j[2] == 'c';
      assert x !in c.canon && x in o ==> i[2] == 'b';
      assert y !in c.canon && y in r ==> j[2] == 'b';
    } else if x in o && y in r {
      if i == j { NumberDecodes("_:b", IndexOf(o, x), IndexOf(r, y)); }
    } else {
      assert x in o ==> i[0] == '_';
      assert y in r ==> j[0] == '_';
    }
  }

  lemma EdgeTextDecodes(p: Term, s: bool, i: string, q: Term, r: bool, j: string)
    requires p.Iri? && q.Iri? && '>' !in p.iri && '>' !in q.iri
    ensures EdgeText(p, EndChar(s)) + i == EdgeText(q, EndChar(r)) + j <==> p == q && s == r && i == j
  {
    var a, b := EdgeText(p, EndChar(s)) + i, EdgeText(q, EndChar(r)) + j;
    if a == b {
      assert a[0] == EndChar(s) && b[0] == EndChar(r);
      var open := [EndChar(s)] + "<";
      assert a == open + p.iri + [">"[0]] + i && b == open + q.iri + [">"[0]] + j;
      DelimitedDecodes(open, '>', p.iri, q.iri, i, j);
    }
  }

  /** The hash of an edge: the same exactly for the same predicate, end and identifier. */
  lemma EdgeHashesTell(c: Context, o: seq<string>, t: Triple, x: string, s: bool, r: seq<string>, u: Triple, y: string, e: bool)
    requires IdealHash(c.sha) && WellFormedGraph(c.ts) && WellFormed(t) && WellFormed(u)
    ensures c.sha(EdgeText(t.p, EndChar(s)) + Identify(c, o, x)) == c.sha(EdgeText(u.p, EndChar(e)) + Identify(c, r, y))
      <==> t.p == u.p && s == e && SameIdentifier(c, o, x, r, y)
  {
    IdentifiersTell(c, o, x, r, y);
    hide Identify, EdgeText, SameIdentifier;
    EdgeTextDecodes(t.p, s, Identify(c, o, x), u.p, e, Identify(c, r, y));
  }

  ghost function GroupsAt(c: Context, order: seq<string>, id: string): (g: Groups)
    ensures GoodGroups(c.ts, g)
  {
    GroupsOf(c, order, id, QuadsOf(c.ts, id))
  }

  ghost predicate Meet(c: Context, o: seq<string>, id: string, x: string, r: seq<string>, jd: string, y: string) {
    exists h :: Grouped(GroupsAt(c, o, id), h, x) && Grouped(GroupsAt(c, r, jd), h, y)
  }

  ghost predicate AlikeEdges(c: Context, o: seq<string>, id: string, x: string, r: seq<string>, jd: string, y: string) {
    exists t, u, subject ::
      && LeadsTo(c.ts, id, t, x, subject) && LeadsTo(c.ts, jd, u, y, subject)
      && t.p == u.p && SameIdentifier(c, o, x, r, y)
  }

  lemma GroupedEdge(c: Context, order: seq<string>, id: string, h: string, x: string) returns (t: Triple, subject: bool)
    requires Grouped(GroupsAt(c, order, id), h, x)
    ensures LeadsTo(c.ts, id, t, x, subject) && h == c.sha(EdgeText(t.p, EndChar(subject)) + Identify(c, order, x))
  {
    hide GroupsOf, QuadsOf, Identify, EdgeText;
    SearchGroupsMember(c, order, id, h, x);
    t :| t in c.ts && RelatedBy(c, order, id, t, h, x);
    subject := t.s == BNode(x) && h == c.sha(EdgeText(t.p, 's') + Identify(c, order, x));
  }

  lemma EdgeGrouped(c: Context, order: seq<string>, id: string, t: Triple, x: string, subject: bool)
    requires LeadsTo(c.ts, id, t, x, subject)
    ensures Grouped(GroupsAt(c, order, id), c.sha(EdgeText(t.p, EndChar(subject)) + Identify(c, order, x)), x)
  {
    hide GroupsOf, QuadsOf, Identify, EdgeText, Grouped;
    var h := c.sha(EdgeText(t.p, EndChar(subject)) + Identify(c, order, x));
    assert RelatedBy(c, order, id, t, h, x);
    SearchGroupsMember(c, order, id, h, x);
  }

  /** Two related blank nodes, of one search or of two, fall under one hash exactly when triples with the
      same predicate lead to them, at the same end, and they bear the same identifier. */
  lemma SameGroupExactly(c: Context, o: seq<string>, id: string, x: string, r: seq<string>, jd: string, y: string)
    requires IdealHash(c.sha) && WellFormedGraph(c.ts)
    ensures Meet(c, o, id, x, r, jd, y) <==> AlikeEdges(c, o, id, x, r, jd, y)
  {
    hide GroupsAt, Identify, EdgeText, Grouped, SameIdentifier, WellFormed, IdealHash;
    if Meet(c, o, id, x, r, jd, y) {
      var h :| Grouped(GroupsAt(c, o, id), h, x) && Grouped(GroupsAt(c, r, jd), h, y);
      var t, s := GroupedEdge(c, o, id, h, x);
      var u, e := GroupedEdge(c, r, jd, h, y);
      EdgeHashesTell(c, o, t, x, s, r, u, y, e);
    }
    if AlikeEdges(c, o, id, x, r, jd, y) {
      var t, u, subject :| LeadsTo(c.ts, id, t, x, subject) && LeadsTo(c.ts, jd, u, y, subject)
        && t.p == u.p && SameIdentifier(c, o, x, r, y);
      EdgeGrouped(c, o, id, t, x, subject);
      EdgeGrouped(c, r, jd, u, y, subject);
      EdgeHashesTell(c, o, t, x, subject, r, u, y, subject);
    }
  }
}
