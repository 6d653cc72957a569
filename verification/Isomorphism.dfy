/**
 RDF graph isomorphism (RDF 1.1 Concepts, section 3.6) over the rows a graph stores, and what equal
 canonical lines say about it.

 A graph's rows form a bag: nothing in the quad table stops a triple being stored twice. `Isomorphic`
 compares bags; `GraphIsomorphic` compares the sets of triples they stand for; the two agree when no
 triple is stored twice (BagIsGraphIsomorphism).
 */
module Isomorphism {
  import opened Sequences
  import opened Text
  import opened Terms

  ghost predicate Injective<K, V>(m: map<K, V>) {
    forall x, y :: x in m && y in m && m[x] == m[y] ==> x == y
  }

  ghost predicate Bijection<K, V>(m: map<K, V>, a: set<K>, b: set<V>) {
    Injective(m) && m.Keys == a && m.Values == b
  }

  lemma UnionBijection<K, V>(m: map<K, V>, n: map<K, V>)
    requires Injective(m) && Injective(n) && m.Keys !! n.Keys && m.Values !! n.Values
    ensures Bijection(m + n, m.Keys + n.Keys, m.Values + n.Values)
  {
    var u := m + n;
    forall x | x in u ensures if x in n then u[x] in n.Values else u[x] in m.Values {
    }
    forall y | y in m.Values ensures y in u.Values {
      var x :| x in m && m[x] == y;
      assert u[x] == y;
    }
    forall y | y in n.Values ensures y in u.Values {
      var x :| x in n && n[x] == y;
      assert u[x] == y;
    }
  }

  /** Substitution by a label map; a missing label prints as the engine prints it. */
  function Naming(m: map<string, string>): string -> string {
    b => if b in m then m[b] else "MISSING-" + b
  }

  function Renamed(m: map<string, string>, t: Triple): Triple {
    NormTriple(RelabelTriple(Naming(m), t))
  }

  function RenamedAll(m: map<string, string>, ts: seq<Triple>): seq<Triple> {
    Map(t => Renamed(m, t), ts)
  }

  function NormAll(ts: seq<Triple>): seq<Triple> {
    Map(NormTriple, ts)
  }

  ghost predicate IsIsomorphism(m: map<string, string>, a: seq<Triple>, b: seq<Triple>) {
    Bijection(m, BNodes(a), BNodes(b)) && multiset(RenamedAll(m, a)) == multiset(NormAll(b))
  }

  ghost predicate Isomorphic(a: seq<Triple>, b: seq<Triple>) {
    exists m :: IsIsomorphism(m, a, b)
  }

  ghost predicate IsGraphIsomorphism(m: map<string, string>, a: seq<Triple>, b: seq<Triple>) {
    Bijection(m, BNodes(a), BNodes(b)) && Elements(RenamedAll(m, a)) == Elements(NormAll(b))
  }

  ghost predicate GraphIsomorphic(a: seq<Triple>, b: seq<Triple>) {
    exists m :: IsGraphIsomorphism(m, a, b)
  }

  /** No RDF triple is stored twice. */
  predicate DuplicateFree(ts: seq<Triple>) {
    NoDuplicates(NormAll(ts))
  }

  // ----- lines -----

  function Line(labels: map<string, string>, t: Triple): string {
    NtTriple(t, Naming(labels))
  }

  function Lines(ts: seq<Triple>, labels: map<string, string>): seq<string> {
    Map(t => Line(labels, t), ts)
  }

  /** Labels that tell the blank nodes of a graph apart and print decodably. */
  ghost predicate Labelling(labels: map<string, string>, ts: seq<Triple>) {
    && labels.Keys == BNodes(ts)
    && Injective(labels)
    && forall b :: b in labels ==> PlainLabel(labels[b])
  }

  lemma BNodesOfMember(ts: seq<Triple>, t: Triple)
    requires t in ts
    ensures TripleBNodes(t) <= BNodes(ts)
  {
  }

  lemma LabelledIsWellFormed(ts: seq<Triple>, labels: map<string, string>, t: Triple)
    requires WellFormedGraph(ts) && Labelling(labels, ts) && t in ts
    ensures WellFormed(t) && WellFormed(RelabelTriple(Naming(labels), t))
  {
    BNodesOfMember(ts, t);
    assert WellFormed(t);
    assert t.s.BNode? ==> t.s.id in TripleBNodes(t);
    assert t.o.BNode? ==> t.o.id in TripleBNodes(t);
  }

  /** Lines are equal as bags exactly when the labellings turn the two graphs into the same bag of
      RDF triples. */
  lemma LinesDecode(a: seq<Triple>, la: map<string, string>, b: seq<Triple>, lb: map<string, string>)
    requires WellFormedGraph(a) && WellFormedGraph(b)
    requires Labelling(la, a) && Labelling(lb, b)
    ensures multiset(Lines(a, la)) == multiset(Lines(b, lb))
        <==> multiset(RenamedAll(la, a)) == multiset(RenamedAll(lb, b))
  {
    forall t, u | t in a && u in b
      ensures Line(la, t) == Line(lb, u) <==> Renamed(la, t) == Renamed(lb, u)
    {
      LabelledIsWellFormed(a, la, t);
      LabelledIsWellFormed(b, lb, u);
      TripleDecodes(t, Naming(la), u, Naming(lb));
    }
    var f, g := (t: Triple) => Line(la, t), (t: Triple) => Line(lb, t);
    var h, k := (t: Triple) => Renamed(la, t), (t: Triple) => Renamed(lb, t);
    if multiset(Lines(a, la)) == multiset(Lines(b, lb)) { ImagesCorrespond(f, g, h, k, a, b); }
    if multiset(RenamedAll(la, a)) == multiset(RenamedAll(lb, b)) { ImagesCorrespond(h, k, f, g, a, b); }
  }

  lemma TermRenamed(labels: map<string, string>, t: Term, x: string)
    requires TermBNodes(t) <= labels.Keys
    ensures x in TermBNodes(Norm(Relabel(Naming(labels), t))) <==> t.BNode? && labels[t.id] == x
  {
  }

  ghost predicate NamedIn(labels: map<string, string>, t: Triple, x: string)
    requires TripleBNodes(t) <= labels.Keys
  {
    exists b :: b in TripleBNodes(t) && labels[b] == x
  }

  lemma TripleRenamed(labels: map<string, string>, t: Triple, x: string)
    requires TripleBNodes(t) <= labels.Keys
    ensures x in TripleBNodes(Renamed(labels, t)) <==> NamedIn(labels, t, x)
  {
    TermRenamed(labels, t.s, x);
    TermRenamed(labels, t.o, x);
    assert t.s.BNode? ==> t.s.id in TripleBNodes(t);
    assert t.o.BNode? ==> t.o.id in TripleBNodes(t);
  }

  lemma BNodesRenamed(ts: seq<Triple>, labels: map<string, string>, x: string)
    requires labels.Keys == BNodes(ts)
    ensures x in BNodes(RenamedAll(labels, ts)) <==> x in labels.Values
  {
    hide TripleBNodes, Renamed;
    var rs := RenamedAll(labels, ts);
    forall i | 0 <= i < |ts|
      ensures TripleBNodes(ts[i]) <= labels.Keys
      ensures x in TripleBNodes(rs[i]) <==> NamedIn(labels, ts[i], x)
    {
      BNodesOfMember(ts, ts[i]);
      TripleRenamed(labels, ts[i], x);
    }
    if x in BNodes(rs) {
      var u :| u in rs && x in TripleBNodes(u);
      var i :| 0 <= i < |rs| && rs[i] == u;
      assert NamedIn(labels, ts[i], x);
    }
    if x in labels.Values {
      var b :| b in labels && labels[b] == x;
      var t :| t in ts && b in TripleBNodes(t);
      var i :| 0 <= i < |ts| && ts[i] == t;
      assert NamedIn(labels, ts[i], x);
      assert rs[i] in rs;
    }
  }

  lemma BNodesOfBag(a: seq<Triple>, b: seq<Triple>)
    requires multiset(a) == multiset(b)
    ensures BNodes(a) == BNodes(b)
  {
    assert forall t :: t in a <==> t in multiset(a);
    assert forall t :: t in b <==> t in multiset(b);
  }

  /** Follow one labelling forward and another one back. */
  ghost function Through(la: map<string, string>, lb: map<string, string>): (m: map<string, string>)
    requires Injective(lb) && la.Values == lb.Values
    ensures m.Keys == la.Keys && forall b :: b in m ==> m[b] in lb && lb[m[b]] == la[b]
  {
    map b | b in la.Keys :: BackFrom(lb, la[b])
  }

  ghost function BackFrom(lb: map<string, string>, x: string): (c: string)
    requires x in lb.Values
    ensures c in lb && lb[c] == x
  {
    var c :| c in lb && lb[c] == x;
    c
  }

  /** Equal bags of lines under two labellings make the graphs isomorphic. Nothing about the labels
      matters except that each tells its own graph's blank nodes apart. */
  lemma EqualLinesMeanIsomorphic(a: seq<Triple>, la: map<string, string>, b: seq<Triple>, lb: map<string, string>)
    requires WellFormedGraph(a) && WellFormedGraph(b)
    requires Labelling(la, a) && Labelling(lb, b)
    requires multiset(Lines(a, la)) == multiset(Lines(b, lb))
    ensures la.Values == lb.Values
    ensures IsIsomorphism(Through(la, lb), a, b)
    ensures Isomorphic(a, b)
  {
    LinesDecode(a, la, b, lb);
    SameLabelsUsed(a, la, b, lb);
    ThroughIsBijection(la, lb);
    ThroughRenames(a, la, b, lb);
    hide Through, Lines, RenamedAll, NormAll, BNodes, Injective;
    assert IsIsomorphism(Through(la, lb), a, b);
  }

  lemma ThroughRenames(a: seq<Triple>, la: map<string, string>, b: seq<Triple>, lb: map<string, string>)
    requires WellFormedGraph(a) && WellFormedGraph(b)
    requires Labelling(la, a) && Labelling(lb, b) && la.Values == lb.Values
    requires multiset(RenamedAll(la, a)) == multiset(RenamedAll(lb, b))
    ensures multiset(RenamedAll(Through(la, lb), a)) == multiset(NormAll(b))
  {
    hide Renamed, NormTriple, BNodes, Injective;
    var m := Through(la, lb);
    forall t, u | t in a && u in b && Renamed(la, t) == Renamed(lb, u)
      ensures Renamed(m, t) == NormTriple(u)
    {
      BNodesOfMember(a, t);
      BNodesOfMember(b, u);
      assert WellFormed(t) && WellFormed(u);
      TripleBack(t, u, la, lb, m);
    }
    ImagesCorrespond((t: Triple) => Renamed(la, t), (t: Triple) => Renamed(lb, t),
                     (t: Triple) => Renamed(m, t), NormTriple, a, b);
  }

  lemma SameLabelsUsed(a: seq<Triple>, la: map<string, string>, b: seq<Triple>, lb: map<string, string>)
    requires la.Keys == BNodes(a) && lb.Keys == BNodes(b)
    requires multiset(RenamedAll(la, a)) == multiset(RenamedAll(lb, b))
    ensures la.Values == lb.Values
  {
    BNodesOfBag(RenamedAll(la, a), RenamedAll(lb, b));
    forall x ensures x in la.Values <==> x in lb.Values {
      BNodesRenamed(a, la, x);
      BNodesRenamed(b, lb, x);
    }
  }

  lemma ThroughIsBijection(la: map<string, string>, lb: map<string, string>)
    requires Injective(la) && Injective(lb) && la.Values == lb.Values
    ensures Bijection(Through(la, lb), la.Keys, lb.Keys)
  {
    var m := Through(la, lb);
    forall c | c in lb ensures c in m.Values {
      assert lb[c] in la.Values;
      var x :| x in la && la[x] == lb[c];
      assert m[x] == c;
    }
  }

  lemma TripleBack(t: Triple, u: Triple, la: map<string, string>, lb: map<string, string>, m: map<string, string>)
    requires Injective(lb) && la.Values == lb.Values && m == Through(la, lb)
    requires TripleBNodes(t) <= la.Keys && TripleBNodes(u) <= lb.Keys && t.p.Iri? && u.p.Iri?
    requires Renamed(la, t) == Renamed(lb, u)
    ensures Renamed(m, t) == NormTriple(u)
  {
    assert t.s.BNode? ==> t.s.id in TripleBNodes(t);
    assert t.o.BNode? ==> t.o.id in TripleBNodes(t);
    assert u.s.BNode? ==> u.s.id in TripleBNodes(u);
    assert u.o.BNode? ==> u.o.id in TripleBNodes(u);
    TermBack(t.s, u.s, la, lb, m);
    TermBack(t.o, u.o, la, lb, m);
  }

  lemma TermBack(t: Term, u: Term, la: map<string, string>, lb: map<string, string>, m: map<string, string>)
    requires Injective(lb) && la.Values == lb.Values && m == Through(la, lb)
    requires t.BNode? ==> t.id in la
    requires u.BNode? ==> u.id in lb
    requires Norm(Relabel(Naming(la), t)) == Norm(Relabel(Naming(lb), u))
    ensures Norm(Relabel(Naming(m), t)) == Norm(u)
  {
  }

  /** Conversely, labellings that agree along an isomorphism print the same bag of lines. */
  lemma AgreeingLabelsPrintAlike(a: seq<Triple>, la: map<string, string>, b: seq<Triple>, lb: map<string, string>, m: map<string, string>)
    requires WellFormedGraph(a) && WellFormedGraph(b)
    requires Labelling(la, a) && Labelling(lb, b)
    requires IsIsomorphism(m, a, b)
    requires forall x :: x in m ==> m[x] in lb && la[x] == lb[m[x]]
    ensures multiset(Lines(a, la)) == multiset(Lines(b, lb))
  {
    hide Renamed, NormTriple, Lines, BNodes;
    forall t, u | t in a && u in b && Renamed(m, t) == NormTriple(u)
      ensures Renamed(la, t) == Renamed(lb, u)
    {
      BNodesOfMember(a, t);
      BNodesOfMember(b, u);
      assert WellFormed(t) && WellFormed(u);
      TripleForward(t, u, la, lb, m);
    }
    ImagesCorrespond((t: Triple) => Renamed(m, t), NormTriple,
                     (t: Triple) => Renamed(la, t), (t: Triple) => Renamed(lb, t), a, b);
    LinesDecode(a, la, b, lb);
  }

  lemma TripleForward(t: Triple, u: Triple, la: map<string, string>, lb: map<string, string>, m: map<string, string>)
    requires TripleBNodes(t) <= la.Keys && TripleBNodes(t) <= m.Keys && t.p.Iri? && u.p.Iri?
    requires forall x :: x in m ==> x in la && m[x] in lb && la[x] == lb[m[x]]
    requires Renamed(m, t) == NormTriple(u)
    ensures Renamed(la, t) == Renamed(lb, u)
  {
    assert t.s.BNode? ==> t.s.id in TripleBNodes(t);
    assert t.o.BNode? ==> t.o.id in TripleBNodes(t);
    TermForward(t.s, u.s, la, lb, m);
    TermForward(t.p, u.p, la, lb, m);
    TermForward(t.o, u.o, la, lb, m);
  }

  lemma TermForward(t: Term, u: Term, la: map<string, string>, lb: map<string, string>, m: map<string, string>)
    requires t.BNode? ==> t.id in m && t.id in la && m[t.id] in lb && la[t.id] == lb[m[t.id]]
    requires Norm(Relabel(Naming(m), t)) == Norm(u)
    ensures Norm(Relabel(Naming(la), t)) == Norm(Relabel(Naming(lb), u))
  {
  }

  /** Where no triple is stored twice, comparing bags is comparing graphs. */
  lemma BagIsGraphIsomorphism(a: seq<Triple>, b: seq<Triple>)
    requires WellFormedGraph(a) && DuplicateFree(a) && DuplicateFree(b)
    ensures Isomorphic(a, b) <==> GraphIsomorphic(a, b)
  {
    forall m | Bijection(m, BNodes(a), BNodes(b))
      ensures IsIsomorphism(m, a, b) <==> IsGraphIsomorphism(m, a, b)
    {
      RenamedDuplicateFree(m, a);
      SameBagSameSet(RenamedAll(m, a), NormAll(b));
    }
    assert forall m :: IsIsomorphism(m, a, b) ==> IsGraphIsomorphism(m, a, b);
    assert forall m :: IsGraphIsomorphism(m, a, b) ==> IsIsomorphism(m, a, b);
  }

  lemma RenameTermInjective(m: map<string, string>, t: Term, u: Term)
    requires Injective(m)
    requires TermBNodes(t) <= m.Keys && TermBNodes(u) <= m.Keys
    requires Norm(Relabel(Naming(m), t)) == Norm(Relabel(Naming(m), u))
    ensures Norm(t) == Norm(u)
  {
  }

  lemma RenamedDuplicateFree(m: map<string, string>, a: seq<Triple>)
    requires WellFormedGraph(a) && DuplicateFree(a) && Injective(m) && m.Keys == BNodes(a)
    ensures NoDuplicates(RenamedAll(m, a))
  {
    var ra := RenamedAll(m, a);
    forall i, j | 0 <= i < j < |a| ensures ra[i] != ra[j] {
      BNodesOfMember(a, a[i]);
      BNodesOfMember(a, a[j]);
      assert WellFormed(a[i]) && WellFormed(a[j]);
      assert NormAll(a)[i] != NormAll(a)[j];
      RenamedInjective(m, a[i], a[j]);
    }
  }

  lemma RenamedInjective(m: map<string, string>, t: Triple, u: Triple)
    requires Injective(m) && t.p.Iri? && u.p.Iri?
    requires TripleBNodes(t) <= m.Keys && TripleBNodes(u) <= m.Keys
    ensures Renamed(m, t) == Renamed(m, u) ==> NormTriple(t) == NormTriple(u)
  {
    if Renamed(m, t) == Renamed(m, u) {
      RenameTermInjective(m, t.s, u.s);
      RenameTermInjective(m, t.o, u.o);
    }
  }
}
