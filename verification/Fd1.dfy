/**
 The first-degree structural digest: a hash of the sorted ground lines and of one signature per blank
 node. Unequal digests prove two graphs different; equal digests prove nothing, and a 4-cycle against
 two 2-cycles shows it.
 */
module Fd1 {
  import opened Sequences
  import opened Text
  import opened Terms
  import opened Isomorphism
  import opened Invariance

  /** Every occurrence of c replaced. */
  function Replace(s: string, c: char, text: string): string {
    if s == "" then "" else (if s[0] == c then text else [s[0]]) + Replace(s[1..], c, text)
  }

  /** Backslash and quote always, newline in object position only. */
  function FleetEscape(s: string, objectPosition: bool): string {
    var quoted := Replace(Replace(s, '\\', "\\\\"), '"', "\\\"");
    if objectPosition then Replace(quoted, '\n', "\\n") else quoted
  }

  function FleetTerm(t: Term, objectPosition: bool, naming: string -> string): string {
    match t
    case Iri(i) => "<" + i + ">"
    case BNode(b) => "_:" + naming(b)
    case Lit(val, dt, lang) =>
      var quoted := "\"" + FleetEscape(val, objectPosition) + "\"";
      if !objectPosition then quoted
      else if lang.Some? then quoted + "@" + lang.value
      else if dt.Some? && dt.value != XSD_STRING then quoted + "^^<" + dt.value + ">"
      else quoted
  }

  function FleetLine(t: Triple, naming: string -> string): string {
    FleetTerm(t.s, false, naming) + " " + FleetTerm(t.p, false, naming) + " " + FleetTerm(t.o, true, naming) + " ."
  }

  function Join(xs: seq<string>): string {
    if xs == [] then "" else if |xs| == 1 then xs[0] else xs[0] + "\n" + Join(xs[1..])
  }

  function GroundLines(ts: seq<Triple>): seq<string> {
    Map((t: Triple) => FleetLine(t, StoredNaming()), Filter(IsGround, ts))
  }

  function IncidentTo(b: string): Triple -> bool {
    (t: Triple) => Incident(t, b)
  }

  function IncidentLines(ts: seq<Triple>, b: string): seq<string> {
    Map((t: Triple) => FleetLine(t, SelfNaming(b)), Filter(IncidentTo(b), ts))
  }

  function Signature(sha: string -> string, ts: seq<Triple>, b: string): string {
    sha(Join(Sort(IncidentLines(ts, b))))
  }

  function LabelsOf(t: Triple): seq<string> {
    (if t.s.BNode? then [t.s.id] else []) + (if t.o.BNode? then [t.o.id] else [])
  }

  function Dedup(xs: seq<string>): seq<string> {
    if |xs| < 2 then xs else (if xs[0] == xs[1] then [] else [xs[0]]) + Dedup(xs[1..])
  }

  /** The distinct blank-node labels, ascending. */
  function Labels(ts: seq<Triple>): seq<string> {
    Dedup(Sort(FlatMap(LabelsOf, ts)))
  }

  function Signatures(sha: string -> string, ts: seq<Triple>): seq<string> {
    Map((b: string) => Signature(sha, ts, b), Labels(ts))
  }

  /** `fd1_digest`. */
  function Fd1Digest(sha: string -> string, ts: seq<Triple>): string {
    sha(Join(Sort(GroundLines(ts))) + "\n--\n" + Join(Sort(Signatures(sha, ts))))
  }

  // ----- the labels -----

  lemma {:induction false} DedupEnumerates(xs: seq<string>)
    requires Sorted(xs)
    ensures Enumerates(Dedup(xs), Elements(xs))
    ensures xs != [] ==> Dedup(xs) != [] && Dedup(xs)[0] == xs[0]
  {
    if |xs| >= 2 {
      DedupEnumerates(xs[1..]);
      var rest := Dedup(xs[1..]);
      assert Elements(xs) == {xs[0]} + Elements(xs[1..]);
      assert rest[0] == xs[1];
      if xs[0] != xs[1] { Prepend(xs[0], rest); }
    }
  }

  lemma Prepend(x: string, ys: seq<string>)
    requires Sorted(ys) && NoDuplicates(ys) && ys != [] && AtMost(x, ys[0]) && x != ys[0]
    ensures Sorted([x] + ys) && NoDuplicates([x] + ys) && Elements([x] + ys) == {x} + Elements(ys)
  {
    forall i | 0 <= i < |ys| ensures AtMost(x, ys[i]) && x != ys[i] {
      AtMostTransitive(x, ys[0], ys[i]);
    }
  }

  lemma AtMostTransitive(x: string, y: string, z: string)
    requires AtMost(x, y) && AtMost(y, z) && x != y
    ensures AtMost(x, z) && x != z
  {
    LessTrichotomy(x, y);
    LessTrichotomy(y, z);
    LessTrichotomy(x, z);
    if y != z { LessTransitive(x, y, z); }
  }

  lemma {:induction false} FlatLabels(ts: seq<Triple>)
    ensures Elements(FlatMap(LabelsOf, ts)) == BNodes(ts)
  {
    hide TripleBNodes;
    if ts != [] {
      FlatLabels(ts[1..]);
      BNodesCons(ts);
      LabelsAreBNodes(ts[0]);
    }
  }

  lemma BNodesCons(ts: seq<Triple>)
    requires ts != []
    ensures BNodes(ts) == TripleBNodes(ts[0]) + BNodes(ts[1..])
  {
    hide TripleBNodes;
    assert forall t :: t in ts <==> t == ts[0] || t in ts[1..];
  }

  lemma LabelsAreBNodes(t: Triple)
    ensures Elements(LabelsOf(t)) == TripleBNodes(t)
  {
  }

  lemma LabelsAscend(ts: seq<Triple>)
    ensures Labels(ts) == Ascending(BNodes(ts))
  {
    var all := FlatMap(LabelsOf, ts);
    FlatLabels(ts);
    SortSorts(all);
    forall x ensures x in Sort(all) <==> x in all {
      assert x in Sort(all) <==> x in multiset(Sort(all));
      assert x in all <==> x in multiset(all);
    }
    hide Sort, Dedup, BNodes, Sorted;
    assert Elements(Sort(all)) == Elements(all);
    DedupEnumerates(Sort(all));
    EnumerationUnique(Dedup(Sort(all)), Ascending(BNodes(ts)), BNodes(ts));
  }

  // ----- invariance -----

  /** A triple and its counterpart render alike, for the ground lines and for a signature. */
  lemma LinesFollow(m: map<string, string>, t: Triple, u: Triple, x: string)
    requires Injective(m) && TripleBNodes(t) <= m.Keys && x in m
    requires WellFormed(t) && WellFormed(u) && Renamed(m, t) == NormTriple(u)
    ensures IsGround(t) <==> IsGround(u)
    ensures IsGround(t) ==> FleetLine(t, StoredNaming()) == FleetLine(u, StoredNaming())
    ensures Incident(t, x) <==> Incident(u, m[x])
    ensures FleetLine(t, SelfNaming(x)) == FleetLine(u, SelfNaming(m[x]))
  {
    assert t.s.BNode? ==> t.s.id in TripleBNodes(t);
    assert t.o.BNode? ==> t.o.id in TripleBNodes(t);
    TermFollows(m, t.s, u.s, x, false);
    TermFollows(m, t.p, u.p, x, false);
    TermFollows(m, t.o, u.o, x, true);
  }

  lemma TermFollows(m: map<string, string>, t: Term, u: Term, x: string, objectPosition: bool)
    requires Injective(m) && (t.BNode? ==> t.id in m) && x in m && (t.Lit? ==> objectPosition)
    requires Norm(Relabel(Naming(m), t)) == Norm(u)
    ensures t.BNode? <==> u.BNode?
    ensures t == BNode(x) <==> u == BNode(m[x])
    ensures !t.BNode? ==> FleetTerm(t, objectPosition, StoredNaming()) == FleetTerm(u, objectPosition, StoredNaming())
    ensures FleetTerm(t, objectPosition, SelfNaming(x)) == FleetTerm(u, objectPosition, SelfNaming(m[x]))
  {
  }

  ghost predicate Corresponds(m: map<string, string>, a: seq<Triple>, b: seq<Triple>) {
    && WellFormedGraph(a) && WellFormedGraph(b) && IsIsomorphism(m, a, b)
  }

  lemma CounterpartLines(m: map<string, string>, a: seq<Triple>, b: seq<Triple>, t: Triple, u: Triple, x: string)
    requires Corresponds(m, a, b) && t in a && u in b && Renamed(m, t) == NormTriple(u) && x in m
    ensures IsGround(t) <==> IsGround(u)
    ensures IsGround(t) ==> FleetLine(t, StoredNaming()) == FleetLine(u, StoredNaming())
    ensures Incident(t, x) <==> Incident(u, m[x])
    ensures FleetLine(t, SelfNaming(x)) == FleetLine(u, SelfNaming(m[x]))
  {
    hide FleetLine, Renamed, NormTriple, WellFormed, RenamedAll, NormAll;
    BNodesOfMember(a, t);
    LinesFollow(m, t, u, x);
  }

  lemma GroundLinesFollow(m: map<string, string>, a: seq<Triple>, b: seq<Triple>)
    requires Corresponds(m, a, b)
    ensures multiset(GroundLines(a)) == multiset(GroundLines(b))
  {
    hide FleetLine, Renamed, NormTriple, WellFormedGraph, IsGround, BNodes, Injective;
    var line := (t: Triple) => FleetLine(t, StoredNaming());
    var h := (t: Triple) => if IsGround(t) then [line(t)] else [];
    forall t, u | t in a && u in b && Renamed(m, t) == NormTriple(u) ensures h(t) == h(u) {
      GroundFollows(m, a, b, t, u);
    }
    FlatImagesCorrespond((t: Triple) => Renamed(m, t), NormTriple, h, h, a, b);
    MapOfFilter(IsGround, line, h, a);
    MapOfFilter(IsGround, line, h, b);
  }

  lemma GroundFollows(m: map<string, string>, a: seq<Triple>, b: seq<Triple>, t: Triple, u: Triple)
    requires Corresponds(m, a, b) && t in a && u in b && Renamed(m, t) == NormTriple(u)
    ensures IsGround(t) <==> IsGround(u)
    ensures IsGround(t) ==> FleetLine(t, StoredNaming()) == FleetLine(u, StoredNaming())
  {
    assert WellFormed(t) && WellFormed(u);
  }

  lemma IncidentLinesFollow(m: map<string, string>, a: seq<Triple>, b: seq<Triple>, x: string)
    requires Corresponds(m, a, b) && x in m
    ensures multiset(IncidentLines(a, x)) == multiset(IncidentLines(b, m[x]))
  {
    hide FleetLine, Renamed, NormTriple, WellFormedGraph, Incident, BNodes, Injective;
    var f := (t: Triple) => FleetLine(t, SelfNaming(x));
    var g := (u: Triple) => FleetLine(u, SelfNaming(m[x]));
    var h := (t: Triple) => if Incident(t, x) then [f(t)] else [];
    var k := (u: Triple) => if Incident(u, m[x]) then [g(u)] else [];
    forall t, u | t in a && u in b && Renamed(m, t) == NormTriple(u) ensures h(t) == k(u) {
      CounterpartLines(m, a, b, t, u, x);
    }
    FlatImagesCorrespond((t: Triple) => Renamed(m, t), NormTriple, h, k, a, b);
    MapOfFilter(IncidentTo(x), f, h, a);
    MapOfFilter(IncidentTo(m[x]), g, k, b);
  }

  lemma SignatureFollows(sha: string -> string, m: map<string, string>, a: seq<Triple>, b: seq<Triple>, x: string)
    requires Corresponds(m, a, b) && x in m
    ensures Signature(sha, a, x) == Signature(sha, b, m[x])
  {
    hide IncidentLines;
    IncidentLinesFollow(m, a, b, x);
    SortCanonical(IncidentLines(a, x), IncidentLines(b, m[x]));
  }

  /** The labels of b are the images of the labels of a, in some order. */
  lemma LabelsFollow(m: map<string, string>, a: seq<Triple>, b: seq<Triple>, images: seq<string>)
    requires Corresponds(m, a, b)
    requires forall x :: x in Labels(a) ==> x in m
    requires |images| == |Labels(a)| && forall i :: 0 <= i < |images| ==> images[i] == m[Labels(a)[i]]
    ensures multiset(images) == multiset(Labels(b))
  {
    LabelsAscend(a);
    LabelsAscend(b);
    var la, lb := Labels(a), Labels(b);
    hide Labels, RenamedAll, NormAll, BNodes, Sorted;
    assert Elements(la) == m.Keys && Elements(lb) == m.Values;
    forall i, j | 0 <= i < j < |images| ensures images[i] != images[j] {
      assert la[i] != la[j];
    }
    forall y ensures y in Elements(images) <==> y in Elements(lb) {
      if y in Elements(lb) {
        var x :| x in m && m[x] == y;
        assert x in Elements(la);
        var i := IndexOf(la, x);
        assert images[i] == y;
      }
      if y in Elements(images) {
        var i :| 0 <= i < |images| && images[i] == y;
        assert la[i] in Elements(la);
      }
    }
    SameBagSameSet(images, lb);
  }

  lemma LabelsInDomain(m: map<string, string>, a: seq<Triple>, b: seq<Triple>)
    requires Corresponds(m, a, b)
    ensures forall x :: x in Labels(a) ==> x in m
  {
    LabelsAscend(a);
    hide Labels, Sorted;
    forall x | x in Labels(a) ensures x in m { assert x in Elements(Labels(a)); }
  }

  lemma SignaturesFollow(sha: string -> string, m: map<string, string>, a: seq<Triple>, b: seq<Triple>)
    requires Corresponds(m, a, b)
    ensures multiset(Signatures(sha, a)) == multiset(Signatures(sha, b))
  {
    LabelsInDomain(m, a, b);
    hide Signature, Labels, Corresponds;
    var la := Labels(a);
    var images := seq(|la|, i requires 0 <= i < |la| => m[la[i]]);
    LabelsFollow(m, a, b, images);
    var sig := (x: string) => Signature(sha, b, x);
    forall i | 0 <= i < |la| ensures Signatures(sha, a)[i] == Map(sig, images)[i] {
      SignatureFollows(sha, m, a, b, la[i]);
    }
    assert Signatures(sha, a) == Map(sig, images);
    MapPermutation(sig, images, Labels(b));
  }

  /** Relabelling blank nodes and reordering triples leave the digest alone, for any hash function. */
  lemma Fd1Invariant(sha: string -> string, a: seq<Triple>, b: seq<Triple>)
    requires WellFormedGraph(a) && WellFormedGraph(b) && Isomorphic(a, b)
    ensures Fd1Digest(sha, a) == Fd1Digest(sha, b)
  {
    var m :| IsIsomorphism(m, a, b);
    assert Corresponds(m, a, b);
    hide Corresponds, GroundLines, Signatures;
    GroundLinesFollow(m, a, b);
    SignaturesFollow(sha, m, a, b);
    SortCanonical(GroundLines(a), GroundLines(b));
    SortCanonical(Signatures(sha, a), Signatures(sha, b));
  }

  // ----- the collision -----

  function Arrow(x: string, y: string): Triple {
    Triple(BNode(x), Iri("p"), BNode(y))
  }

  predicate AllDifferent(a: string, b: string, c: string, d: string) {
    a != b && a != c && a != d && b != c && b != d && c != d
  }

  /** One 4-cycle of blank nodes. */
  function FourCycle(a: string, b: string, c: string, d: string): seq<Triple> {
    [Arrow(a, b), Arrow(b, c), Arrow(c, d), Arrow(d, a)]
  }

  /** Two 2-cycles. */
  function TwoCycles(a: string, b: string, c: string, d: string): seq<Triple> {
    [Arrow(a, b), Arrow(b, a), Arrow(c, d), Arrow(d, c)]
  }

  const OUT := "_:a <p> _:z ."
  const IN := "_:z <p> _:a ."

  /** What one arrow between different nodes contributes to the lines of a node. */
  function Seen(x: string, y: string, node: string): multiset<string> {
    if x == node then multiset{OUT} else if y == node then multiset{IN} else multiset{}
  }

  lemma ArrowSeen(x: string, y: string, node: string)
    requires x != y
    ensures multiset(IncidentLines([Arrow(x, y)], node)) == Seen(x, y, node)
  {
    var t, p := Arrow(x, y), IncidentTo(node);
    assert [t][1..] == [];
    assert Filter(p, [t]) == if p(t) then [t] else [];
    if x == node {
      assert FleetLine(t, SelfNaming(node)) == OUT;
    } else if y == node {
      assert FleetLine(t, SelfNaming(node)) == IN;
    }
  }

  lemma IncidentLinesAppend(xs: seq<Triple>, ys: seq<Triple>, node: string)
    ensures multiset(IncidentLines(xs + ys, node)) == multiset(IncidentLines(xs, node)) + multiset(IncidentLines(ys, node))
  {
    FilterAppend(IncidentTo(node), xs, ys);
    MapAppend((t: Triple) => FleetLine(t, SelfNaming(node)), Filter(IncidentTo(node), xs), Filter(IncidentTo(node), ys));
  }

  lemma FourSeen(w: Triple, x: Triple, y: Triple, z: Triple, node: string)
    ensures multiset(IncidentLines([w, x, y, z], node))
      == multiset(IncidentLines([w], node)) + multiset(IncidentLines([x], node)) + multiset(IncidentLines([y], node)) + multiset(IncidentLines([z], node))
  {
    hide IncidentLines;
    IncidentLinesAppend([w], [x], node);
    IncidentLinesAppend([w] + [x], [y], node);
    IncidentLinesAppend([w] + [x] + [y], [z], node);
    assert [w] + [x] + [y] + [z] == [w, x, y, z];
  }

  /** Every node of either graph sees one line out and one line in. */
  lemma NeighbourhoodsAlike(a: string, b: string, c: string, d: string, node: string)
    requires AllDifferent(a, b, c, d) && node in {a, b, c, d}
    ensures multiset(IncidentLines(FourCycle(a, b, c, d), node)) == multiset(IncidentLines(TwoCycles(a, b, c, d), node))
  {
    hide IncidentLines;
    FourSeen(Arrow(a, b), Arrow(b, c), Arrow(c, d), Arrow(d, a), node);
    FourSeen(Arrow(a, b), Arrow(b, a), Arrow(c, d), Arrow(d, c), node);
    ArrowSeen(a, b, node);
    ArrowSeen(b, c, node);
    ArrowSeen(c, d, node);
    ArrowSeen(d, a, node);
    ArrowSeen(b, a, node);
    ArrowSeen(d, c, node);
  }

  lemma SameNodes(a: string, b: string, c: string, d: string)
    ensures BNodes(FourCycle(a, b, c, d)) == {a, b, c, d} && BNodes(TwoCycles(a, b, c, d)) == {a, b, c, d}
  {
    hide BNodes, TripleBNodes;
    FourNodes(Arrow(a, b), Arrow(b, c), Arrow(c, d), Arrow(d, a));
    FourNodes(Arrow(a, b), Arrow(b, a), Arrow(c, d), Arrow(d, c));
    ArrowNodes(a, b);
    ArrowNodes(b, c);
    ArrowNodes(c, d);
    ArrowNodes(d, a);
    ArrowNodes(b, a);
    ArrowNodes(d, c);
  }

  lemma ArrowNodes(x: string, y: string)
    ensures TripleBNodes(Arrow(x, y)) == {x, y}
  {
  }

  lemma FourNodes(w: Triple, x: Triple, y: Triple, z: Triple)
    ensures BNodes([w, x, y, z]) == TripleBNodes(w) + TripleBNodes(x) + TripleBNodes(y) + TripleBNodes(z)
  {
    hide TripleBNodes;
    BNodesCons([w, x, y, z]);
    BNodesCons([x, y, z]);
    BNodesCons([y, z]);
    BNodesCons([z]);
    assert [w, x, y, z][1..] == [x, y, z] && [x, y, z][1..] == [y, z] && [y, z][1..] == [z] && [z][1..] == [];
    assert BNodes([]) == {};
  }

  lemma NoGroundLines(a: string, b: string, c: string, d: string)
    ensures GroundLines(FourCycle(a, b, c, d)) == [] && GroundLines(TwoCycles(a, b, c, d)) == []
  {
    FilterNone(IsGround, FourCycle(a, b, c, d));
    FilterNone(IsGround, TwoCycles(a, b, c, d));
  }

  /** Equal digests prove nothing: the 4-cycle and the two 2-cycles collide under every hash function. */
  lemma CyclesCollide(sha: string -> string, a: string, b: string, c: string, d: string)
    requires AllDifferent(a, b, c, d)
    ensures Fd1Digest(sha, FourCycle(a, b, c, d)) == Fd1Digest(sha, TwoCycles(a, b, c, d))
  {
    var four, two := FourCycle(a, b, c, d), TwoCycles(a, b, c, d);
    NoGroundLines(a, b, c, d);
    SameNodes(a, b, c, d);
    LabelsAscend(four);
    LabelsAscend(two);
    var ls := Labels(four);
    hide FourCycle, TwoCycles, Labels, BNodes, IncidentLines, GroundLines, Sorted, NoDuplicates, Sort;
    forall i | 0 <= i < |ls| ensures Signature(sha, four, ls[i]) == Signature(sha, two, ls[i]) {
      assert ls[i] in Elements(ls);
      NeighbourhoodsAlike(a, b, c, d, ls[i]);
      SortCanonical(IncidentLines(four, ls[i]), IncidentLines(two, ls[i]));
    }
    hide Signature;
    assert Signatures(sha, four) == Signatures(sha, two);
  }

  lemma ArrowImage(m: map<string, string>, four: seq<Triple>, two: seq<Triple>, x: string, y: string)
    requires IsIsomorphism(m, four, two) && Arrow(x, y) in four && x in m && y in m
    requires forall t :: t in two ==> NormTriple(t) == t
    ensures Arrow(m[x], m[y]) in two
  {
    hide BNodes, Injective;
    var i := IndexOf(four, Arrow(x, y));
    assert RenamedAll(m, four)[i] == Arrow(m[x], m[y]);
    assert RenamedAll(m, four)[i] in multiset(NormAll(two));
    var j :| 0 <= j < |two| && NormAll(two)[j] == Arrow(m[x], m[y]);
    assert two[j] in two;
  }

  lemma NextIsBack(a: string, b: string, c: string, d: string, x: string, y: string, z: string)
    requires AllDifferent(a, b, c, d)
    requires Arrow(x, y) in TwoCycles(a, b, c, d) && Arrow(y, z) in TwoCycles(a, b, c, d)
    ensures z == x
  {
  }

  /** They are not isomorphic: two steps return in one and not in the other. */
  lemma CyclesDiffer(a: string, b: string, c: string, d: string)
    requires AllDifferent(a, b, c, d)
    ensures !Isomorphic(FourCycle(a, b, c, d), TwoCycles(a, b, c, d))
  {
    var four, two := FourCycle(a, b, c, d), TwoCycles(a, b, c, d);
    forall m ensures !IsIsomorphism(m, four, two) {
      NoCycleIsomorphism(m, a, b, c, d);
    }
  }

  lemma NoCycleIsomorphism(m: map<string, string>, a: string, b: string, c: string, d: string)
    requires AllDifferent(a, b, c, d)
    ensures !IsIsomorphism(m, FourCycle(a, b, c, d), TwoCycles(a, b, c, d))
  {
    hide IsIsomorphism, Injective, BNodes;
    var four, two := FourCycle(a, b, c, d), TwoCycles(a, b, c, d);
    PlainArrows(a, b, c, d);
    SameNodes(a, b, c, d);
    if IsIsomorphism(m, four, two) {
      TwoStepsFollow(m, four, two, a, b, c);
      NextIsBack(a, b, c, d, m[a], m[b], m[c]);
    }
  }

  lemma TwoStepsFollow(m: map<string, string>, four: seq<Triple>, two: seq<Triple>, a: string, b: string, c: string)
    requires IsIsomorphism(m, four, two) && Arrow(a, b) in four && Arrow(b, c) in four && a != c
    requires a in BNodes(four) && b in BNodes(four) && c in BNodes(four)
    requires forall t :: t in two ==> NormTriple(t) == t
    ensures a in m && b in m && c in m && m[a] != m[c]
    ensures Arrow(m[a], m[b]) in two && Arrow(m[b], m[c]) in two
  {
    IsomorphismFacts(m, four, two);
    NotMerged(m, a, c);
    hide IsIsomorphism, Injective, BNodes, NormTriple;
    ArrowImage(m, four, two, a, b);
    ArrowImage(m, four, two, b, c);
  }

  lemma IsomorphismFacts(m: map<string, string>, x: seq<Triple>, y: seq<Triple>)
    requires IsIsomorphism(m, x, y)
    ensures Injective(m) && m.Keys == BNodes(x)
  {
  }

  lemma NotMerged(m: map<string, string>, x: string, y: string)
    requires Injective(m) && x in m && y in m && x != y
    ensures m[x] != m[y]
  {
  }

  lemma PlainArrows(a: string, b: string, c: string, d: string)
    ensures forall t :: t in TwoCycles(a, b, c, d) ==> NormTriple(t) == t
  {
  }
}
