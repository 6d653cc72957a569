/**
 When the difference of two graphs is empty.

 The design states "the diff is empty iff the graphs are isomorphic". Empty always implies isomorphic.
 The other direction needs that no RDF triple is stored twice among the blank-node rows and that each
 ground triple is stored under the same ids on both sides; without either it fails, as the concrete
 graphs below show.
 */
module EmptyDiff {
  import opened Sequences
  import opened Text
  import opened Terms
  import opened Dictionary
  import opened Isomorphism
  import opened CanonicalDigest
  import opened CanonicalInvariance
  import opened Components
  import opened GraphDiff

  /** The ground rows as triples. */
  function GroundTriples(rows: seq<Triple>): set<Triple> {
    set t | t in rows && IsGround(t)
  }

  /** Ground RDF triples have one stored form across both graphs. */
  ghost predicate OneForm(a: seq<Triple>, b: seq<Triple>) {
    forall t, u :: t in GroundTriples(a) + GroundTriples(b) && u in GroundTriples(a) + GroundTriples(b) && NormTriple(t) == NormTriple(u) ==> t == u
  }

  ghost predicate NoCollisions(sha: string -> string, ga: seq<seq<Triple>>, gb: seq<seq<Triple>>) {
    forall g, h :: g in ga && h in gb ==> NoCollision(sha, g, h)
  }

  lemma GroundOrBlank(a: seq<Triple>, t: Triple)
    requires WellFormedGraph(a)
    ensures t in a <==> t in GroundTriples(a) || t in BlankRows(a)
    ensures t in GroundTriples(a) ==> TripleBNodes(t) == {}
  {
    assert t in a ==> WellFormed(t);
  }

  lemma BlankRowsKeepBNodes(a: seq<Triple>)
    requires WellFormedGraph(a)
    ensures BNodes(BlankRows(a)) == BNodes(a) && WellFormedGraph(BlankRows(a))
  {
    hide TripleBNodes, WellFormed, BlankRows;
    forall t ensures t in a <==> t in GroundTriples(a) || t in BlankRows(a) {
      GroundOrBlank(a, t);
    }
    forall b ensures b in BNodes(a) <==> b in BNodes(BlankRows(a)) {
      if b in BNodes(a) {
        var t :| t in a && b in TripleBNodes(t);
        GroundOrBlank(a, t);
      }
    }
  }

  lemma GroundStays(m: map<string, string>, t: Triple)
    requires !t.s.BNode? && !t.o.BNode? && t.p.Iri?
    ensures Renamed(m, t) == NormTriple(t)
  {
  }

  lemma BlankStaysBlank(m: map<string, string>, t: Triple, u: Triple)
    requires Renamed(m, t) == NormTriple(u) && WellFormed(t)
    ensures IsBlankRow(t) <==> IsBlankRow(u)
    ensures IsBlankRow(t) <==> t.s.BNode? || t.o.BNode?
  {
  }

  /** Members of a renamed graph. */
  lemma RenamedMember(m: map<string, string>, a: seq<Triple>, x: Triple)
    ensures x in Elements(RenamedAll(m, a)) <==> exists t :: t in a && Renamed(m, t) == x
  {
    hide Renamed;
    if x in Elements(RenamedAll(m, a)) {
      var i :| 0 <= i < |a| && RenamedAll(m, a)[i] == x;
      assert a[i] in a;
    }
    if t :| t in a && Renamed(m, t) == x {
      var i :| 0 <= i < |a| && a[i] == t;
      assert RenamedAll(m, a)[i] == x;
    }
  }

  lemma NormMember(a: seq<Triple>, x: Triple)
    ensures x in Elements(NormAll(a)) <==> exists t :: t in a && NormTriple(t) == x
  {
    hide NormTriple;
    if x in Elements(NormAll(a)) {
      var i :| 0 <= i < |a| && NormAll(a)[i] == x;
      assert a[i] in a;
    }
    if t :| t in a && NormTriple(t) == x {
      var i :| 0 <= i < |a| && a[i] == t;
      assert NormAll(a)[i] == x;
    }
  }

  /** Every renamed row of a is a row of b, read as RDF, and the other way round. */
  ghost predicate Matches(m: map<string, string>, a: seq<Triple>, b: seq<Triple>) {
    && (forall t :: t in a ==> HasImage(m, t, b))
    && (forall u :: u in b ==> HasOrigin(m, u, a))
  }

  ghost predicate HasImage(m: map<string, string>, t: Triple, b: seq<Triple>) {
    exists u :: u in b && Renamed(m, t) == NormTriple(u)
  }

  ghost predicate HasOrigin(m: map<string, string>, u: Triple, a: seq<Triple>) {
    exists t :: t in a && Renamed(m, t) == NormTriple(u)
  }

  lemma GraphIsomorphismMatches(m: map<string, string>, a: seq<Triple>, b: seq<Triple>)
    ensures IsGraphIsomorphism(m, a, b) <==> Bijection(m, BNodes(a), BNodes(b)) && Matches(m, a, b)
  {
    hide Renamed, NormTriple, RenamedAll, NormAll, BNodes, Injective, Elements;
    forall x
      ensures x in Elements(RenamedAll(m, a)) <==> exists t :: t in a && Renamed(m, t) == x
      ensures x in Elements(NormAll(b)) <==> exists u :: u in b && NormTriple(u) == x
    {
      RenamedMember(m, a, x);
      NormMember(b, x);
    }
    if Elements(RenamedAll(m, a)) == Elements(NormAll(b)) {
      forall t | t in a ensures HasImage(m, t, b) {
        assert Renamed(m, t) in Elements(RenamedAll(m, a));
      }
      forall u | u in b ensures HasOrigin(m, u, a) {
        assert NormTriple(u) in Elements(NormAll(b));
      }
    }
    if Matches(m, a, b) {
      forall x ensures x in Elements(RenamedAll(m, a)) <==> x in Elements(NormAll(b)) {
        if x in Elements(RenamedAll(m, a)) {
          var t :| t in a && Renamed(m, t) == x;
          assert HasImage(m, t, b);
        }
        if x in Elements(NormAll(b)) {
          var u :| u in b && NormTriple(u) == x;
          assert HasOrigin(m, u, a);
        }
      }
    }
  }

  /** Ground rows that agree and matching blank rows make the whole graphs match. */
  lemma MatchWhole(m: map<string, string>, a: seq<Triple>, b: seq<Triple>)
    requires WellFormedGraph(a) && WellFormedGraph(b) && GroundTriples(a) == GroundTriples(b)
    requires Matches(m, BlankRows(a), BlankRows(b))
    ensures Matches(m, a, b)
  {
    hide Renamed, NormTriple, BlankRows, TripleBNodes, WellFormedTerm;
    forall t ensures t in a <==> t in GroundTriples(a) || t in BlankRows(a) { GroundOrBlank(a, t); }
    forall t ensures t in b <==> t in GroundTriples(b) || t in BlankRows(b) { GroundOrBlank(b, t); }
    forall t | t in a ensures HasImage(m, t, b) {
      assert WellFormed(t);
      if t in GroundTriples(a) { GroundStays(m, t); } else { assert HasImage(m, t, BlankRows(b)); }
    }
    forall u | u in b ensures HasOrigin(m, u, a) {
      assert WellFormed(u);
      if u in GroundTriples(b) { GroundStays(m, u); } else { assert HasOrigin(m, u, BlankRows(a)); }
    }
  }

  lemma KindFollows(m: map<string, string>, a: seq<Triple>, b: seq<Triple>, t: Triple, u: Triple)
    requires WellFormedGraph(a) && t in a && u in b && Renamed(m, t) == NormTriple(u)
    ensures t in BlankRows(a) <==> u in BlankRows(b)
    ensures t in GroundTriples(a) <==> u in GroundTriples(b)
    ensures t in GroundTriples(a) <==> t !in BlankRows(a)
    ensures t in GroundTriples(a) ==> NormTriple(t) == NormTriple(u)
  {
    assert WellFormed(t);
    BlankStaysBlank(m, t, u);
    BlankRowIsRow(a, t);
    BlankRowIsRow(b, u);
    if t in GroundTriples(a) { GroundStays(m, t); }
  }

  lemma MatchParts(m: map<string, string>, a: seq<Triple>, b: seq<Triple>)
    requires WellFormedGraph(a) && WellFormedGraph(b) && Matches(m, a, b)
    ensures Matches(m, BlankRows(a), BlankRows(b))
    ensures OneForm(a, b) ==> GroundTriples(a) == GroundTriples(b)
  {
    hide Renamed, NormTriple, WellFormedGraph, IsBlankRow, OneForm;
    forall t | t in BlankRows(a) ensures HasImage(m, t, BlankRows(b)) {
      assert HasImage(m, t, b);
      var u :| u in b && Renamed(m, t) == NormTriple(u);
      KindFollows(m, a, b, t, u);
    }
    forall u | u in BlankRows(b) ensures HasOrigin(m, u, BlankRows(a)) {
      assert HasOrigin(m, u, a);
      var t :| t in a && Renamed(m, t) == NormTriple(u);
      KindFollows(m, a, b, t, u);
    }
    if OneForm(a, b) {
      forall t ensures t in GroundTriples(a) <==> t in GroundTriples(b) {
        GroundMeets(m, a, b, t);
      }
    }
  }

  lemma BlankRowIsRow(a: seq<Triple>, t: Triple)
    requires t in a
    ensures IsBlankRow(t) <==> t in BlankRows(a)
  {
  }

  lemma GroundMeets(m: map<string, string>, a: seq<Triple>, b: seq<Triple>, t: Triple)
    requires WellFormedGraph(a) && Matches(m, a, b) && OneForm(a, b)
    ensures t in GroundTriples(a) <==> t in GroundTriples(b)
  {
    hide Renamed, NormTriple, WellFormedGraph, IsBlankRow, BlankRows, OneForm;
    if t in GroundTriples(a) {
      assert HasImage(m, t, b);
      var u :| u in b && Renamed(m, t) == NormTriple(u);
      KindFollows(m, a, b, t, u);
      SameForm(a, b, t, u);
    }
    if t in GroundTriples(b) {
      assert HasOrigin(m, t, a);
      var s :| s in a && Renamed(m, s) == NormTriple(t);
      KindFollows(m, a, b, s, t);
      SameForm(a, b, s, t);
    }
  }

  lemma SameForm(a: seq<Triple>, b: seq<Triple>, t: Triple, u: Triple)
    requires OneForm(a, b) && t in GroundTriples(a) && u in GroundTriples(b) && NormTriple(t) == NormTriple(u)
    ensures t == u
  {
    hide GroundTriples, NormTriple;
    assert t in GroundTriples(a) + GroundTriples(b) && u in GroundTriples(a) + GroundTriples(b);
  }

  lemma BagMatches(m: map<string, string>, a: seq<Triple>, b: seq<Triple>)
    requires IsIsomorphism(m, a, b)
    ensures IsGraphIsomorphism(m, a, b)
  {
    hide BNodes;
    var xs, ys := RenamedAll(m, a), NormAll(b);
    assert forall x :: x in xs <==> x in multiset(xs);
    assert forall x :: x in ys <==> x in multiset(ys);
  }

  // ----- ids and triples -----

  lemma GroundMember(g: GraphRows, dict: seq<DictRow>, x: IdTriple) returns (i: nat)
    requires ReadsAs(dict, g) && x in Ground(g)
    ensures i < |g.quads| == |g.triples| && x == IdsOf(g.quads[i]) && IsGround(g.triples[i])
    ensures QuadDecodes(dict, g.quads[i], g.triples[i]) && g.triples[i] in GroundTriples(g.triples)
  {
    hide QuadDecodes;
    var j :| 0 <= j < |g.quads| && j < |g.triples| && IsGround(g.triples[j]) && x == IdsOf(g.quads[j]);
    i := j;
    assert g.triples[i] in g.triples;
  }

  lemma GroundTripleMember(g: GraphRows, dict: seq<DictRow>, t: Triple) returns (i: nat)
    requires ReadsAs(dict, g) && t in GroundTriples(g.triples)
    ensures i < |g.quads| == |g.triples| && t == g.triples[i] && QuadDecodes(dict, g.quads[i], t)
    ensures IdsOf(g.quads[i]) in Ground(g)
  {
    hide QuadDecodes;
    var j :| 0 <= j < |g.triples| && g.triples[j] == t;
    i := j;
  }

  /** Ids determine terms, so equal sets of ids are equal sets of triples. */
  lemma SameIdsSameTriples(dict: seq<DictRow>, next: int, a: GraphRows, b: GraphRows)
    requires ReadsAs(dict, a) && ReadsAs(dict, b) && DistinctIds(dict, next) && Ground(a) == Ground(b)
    ensures GroundTriples(a.triples) == GroundTriples(b.triples)
  {
    hide DistinctIds, Ground, GroundTriples, ReadsAs;
    forall t | t in GroundTriples(a.triples) ensures t in GroundTriples(b.triples) { IdsCarryOver(dict, next, a, b, t); }
    forall t | t in GroundTriples(b.triples) ensures t in GroundTriples(a.triples) { IdsCarryOver(dict, next, b, a, t); }
  }

  lemma IdsCarryOver(dict: seq<DictRow>, next: int, a: GraphRows, b: GraphRows, t: Triple)
    requires ReadsAs(dict, a) && ReadsAs(dict, b) && DistinctIds(dict, next) && Ground(a) <= Ground(b)
    requires t in GroundTriples(a.triples)
    ensures t in GroundTriples(b.triples)
  {
    hide DistinctIds, Ground, GroundTriples, ReadsAs, Decodes;
    var i := GroundTripleMember(a, dict, t);
    var j := GroundMember(b, dict, IdsOf(a.quads[i]));
    var u := b.triples[j];
    DecodesOneTerm(dict, next, a.quads[i].s, t.s, u.s);
    DecodesOneTerm(dict, next, a.quads[i].p, t.p, u.p);
    DecodesOneTerm(dict, next, a.quads[i].o, t.o, u.o);
  }

  /** With one row per key, equal sets of triples are equal sets of ids. */
  lemma SameTriplesSameIds(dict: seq<DictRow>, a: GraphRows, b: GraphRows)
    requires ReadsAs(dict, a) && ReadsAs(dict, b) && OneRowPerKey(dict) && GroundTriples(a.triples) == GroundTriples(b.triples)
    ensures Ground(a) == Ground(b)
  {
    hide OneRowPerKey, Ground, GroundTriples, ReadsAs;
    forall x | x in Ground(a) ensures x in Ground(b) { TriplesCarryOver(dict, a, b, x); }
    forall x | x in Ground(b) ensures x in Ground(a) { TriplesCarryOver(dict, b, a, x); }
  }

  lemma TriplesCarryOver(dict: seq<DictRow>, a: GraphRows, b: GraphRows, x: IdTriple)
    requires ReadsAs(dict, a) && ReadsAs(dict, b) && OneRowPerKey(dict) && GroundTriples(a.triples) <= GroundTriples(b.triples)
    requires x in Ground(a)
    ensures x in Ground(b)
  {
    hide OneRowPerKey, Ground, GroundTriples, ReadsAs, Decodes;
    var i := GroundMember(a, dict, x);
    var t := a.triples[i];
    var j := GroundTripleMember(b, dict, t);
    OneIdPerTerm(dict, a.quads[i].s, b.quads[j].s, t.s);
    OneIdPerTerm(dict, a.quads[i].p, b.quads[j].p, t.p);
    OneIdPerTerm(dict, a.quads[i].o, b.quads[j].o, t.o);
  }

  // ----- the theorems -----

  /** An empty difference proves the graphs isomorphic, whatever multiplicities and ties they have,
      as long as SHA-256 does not collide on the components. */
  lemma EmptyMeansIsomorphic(dict: seq<DictRow>, next: int, sha: string -> string, a: GraphRows, pa: seq<set<string>>, b: GraphRows, pb: seq<set<string>>)
    requires ReadsAs(dict, a) && ReadsAs(dict, b) && DistinctIds(dict, next)
    requires WellFormedGraph(a.triples) && WellFormedGraph(b.triples)
    requires Decomposes(pa, BlankRows(a.triples)) && Decomposes(pb, BlankRows(b.triples))
    requires NoCollisions(sha, GroupsOfParts(BlankRows(a.triples), pa), GroupsOfParts(BlankRows(b.triples), pb))
    requires NoDifference(sha, a, pa, b, pb)
    ensures Isomorphic(BlankRows(a.triples), BlankRows(b.triples))
    ensures GraphIsomorphic(a.triples, b.triples)
  {
    hide BlankRows, Decomposes, Matches, IsIsomorphism, IsGraphIsomorphism, WellFormedGraph, BNodes, AllBlank, NoCollision, Bijection, Ground, GroundTriples, Digests, ReadsAs, DistinctIds;
    BlankRowsKeepBNodes(a.triples);
    BlankRowsKeepBNodes(b.triples);
    BlankRowsAllBlank(a.triples);
    BlankRowsAllBlank(b.triples);
    SameIdsSameTriples(dict, next, a, b);
    EqualDigestsMeanIsomorphic(sha, BlankRows(a.triples), pa, BlankRows(b.triples), pb);
    var m :| IsIsomorphism(m, BlankRows(a.triples), BlankRows(b.triples));
    BagMatches(m, BlankRows(a.triples), BlankRows(b.triples));
    GraphIsomorphismMatches(m, BlankRows(a.triples), BlankRows(b.triples));
    MatchWhole(m, a.triples, b.triples);
    GraphIsomorphismMatches(m, a.triples, b.triples);
  }

  /** Exactly when the difference is empty: the ground rows are the same set and the blank-node rows
      are isomorphic as bags. */
  lemma EmptyExactly(dict: seq<DictRow>, next: int, sha: string -> string, a: GraphRows, pa: seq<set<string>>, b: GraphRows, pb: seq<set<string>>)
    requires ReadsAs(dict, a) && ReadsAs(dict, b) && DistinctIds(dict, next)
    requires WellFormedGraph(a.triples) && WellFormedGraph(b.triples)
    requires Decomposes(pa, BlankRows(a.triples)) && Decomposes(pb, BlankRows(b.triples))
    requires NoCollisions(sha, GroupsOfParts(BlankRows(a.triples), pa), GroupsOfParts(BlankRows(b.triples), pb))
    requires InvariantOn(sha, GroupsOfParts(BlankRows(a.triples), pa), GroupsOfParts(BlankRows(b.triples), pb))
    ensures NoDifference(sha, a, pa, b, pb) <==> Ground(a) == Ground(b) && Isomorphic(BlankRows(a.triples), BlankRows(b.triples))
  {
    hide BlankRows, Decomposes, BNodes, NoCollisions, InvariantOn, WellFormedGraph, Isomorphic, GraphIsomorphic, Ground, Digests, ReadsAs, DistinctIds;
    BlankRowsKeepBNodes(a.triples);
    if NoDifference(sha, a, pa, b, pb) {
      EmptyMeansIsomorphic(dict, next, sha, a, pa, b, pb);
    }
    if Isomorphic(BlankRows(a.triples), BlankRows(b.triples)) {
      IsomorphicMeansEqualDigests(sha, BlankRows(a.triples), pa, BlankRows(b.triples), pb);
    }
  }

  /** Isomorphic graphs have isomorphic blank-node rows, as bags too once neither repeats one. */
  lemma IsomorphicBlankRows(a: seq<Triple>, b: seq<Triple>)
    requires WellFormedGraph(a) && WellFormedGraph(b) && GraphIsomorphic(a, b)
    ensures DuplicateFree(BlankRows(a)) && DuplicateFree(BlankRows(b)) ==> Isomorphic(BlankRows(a), BlankRows(b))
    ensures OneForm(a, b) ==> GroundTriples(a) == GroundTriples(b)
  {
    hide BlankRows, BNodes, WellFormedGraph, Isomorphic, IsGraphIsomorphism, GroundTriples, Bijection, Matches, OneForm, DuplicateFree;
    BlankRowsKeepBNodes(a);
    BlankRowsKeepBNodes(b);
    var m :| IsGraphIsomorphism(m, a, b);
    GraphIsomorphismMatches(m, a, b);
    MatchParts(m, a, b);
    GraphIsomorphismMatches(m, BlankRows(a), BlankRows(b));
    if DuplicateFree(BlankRows(a)) && DuplicateFree(BlankRows(b)) { BagIsGraphIsomorphism(BlankRows(a), BlankRows(b)); }
  }

  /** The design's claim: the difference is empty iff the graphs are isomorphic, for graphs that store
      each RDF triple once and in one form, over a dictionary with one row per key. */
  lemma EmptyIffIsomorphic(dict: seq<DictRow>, next: int, sha: string -> string, a: GraphRows, pa: seq<set<string>>, b: GraphRows, pb: seq<set<string>>)
    requires ReadsAs(dict, a) && ReadsAs(dict, b) && DistinctIds(dict, next)
    requires WellFormedGraph(a.triples) && WellFormedGraph(b.triples)
    requires DuplicateFree(BlankRows(a.triples)) && DuplicateFree(BlankRows(b.triples))
    requires OneForm(a.triples, b.triples) && OneRowPerKey(dict)
    requires Decomposes(pa, BlankRows(a.triples)) && Decomposes(pb, BlankRows(b.triples))
    requires NoCollisions(sha, GroupsOfParts(BlankRows(a.triples), pa), GroupsOfParts(BlankRows(b.triples), pb))
    requires InvariantOn(sha, GroupsOfParts(BlankRows(a.triples), pa), GroupsOfParts(BlankRows(b.triples), pb))
    ensures NoDifference(sha, a, pa, b, pb) <==> GraphIsomorphic(a.triples, b.triples)
  {
    hide BlankRows, Decomposes, NoCollisions, InvariantOn, WellFormedGraph, GraphIsomorphic, Ground, NoDifference, OneForm, DuplicateFree, GroundTriples, ReadsAs, DistinctIds, OneRowPerKey;
    if NoDifference(sha, a, pa, b, pb) {
      EmptyMeansIsomorphic(dict, next, sha, a, pa, b, pb);
    }
    if GraphIsomorphic(a.triples, b.triples) {
      IsomorphicBlankRows(a.triples, b.triples);
      SameTriplesSameIds(dict, a, b);
      EmptyExactly(dict, next, sha, a, pa, b, pb);
    }
  }

  /** The hypothesis on canonical digests holds wherever the code's own search decides its ties: in
      particular for components without first-degree ties. */
  lemma DecidedComponentsAreInvariant(sha: string -> string, ga: seq<seq<Triple>>, gb: seq<seq<Triple>>)
    requires AllWellFormed(ga) && AllWellFormed(gb)
    requires forall g :: g in ga ==> Decided(sha, g)
    ensures InvariantOn(sha, ga, gb)
  {
    hide Decided, CanonicalLines, Isomorphic, WellFormedGraph;
    forall g, h | g in ga && h in gb && Isomorphic(g, h) ensures Digest(sha, g) == Digest(sha, h) {
      DecidedInvariant(sha, g, h);
    }
  }

  /** So for graphs whose components the search decides, tie-free ones among them, the claim needs
      nothing about RDFC-1.0: only that SHA-256 does not collide on the components. */
  lemma EmptyIffIsomorphicDecided(dict: seq<DictRow>, next: int, sha: string -> string, a: GraphRows, pa: seq<set<string>>, b: GraphRows, pb: seq<set<string>>)
    requires ReadsAs(dict, a) && ReadsAs(dict, b) && DistinctIds(dict, next)
    requires WellFormedGraph(a.triples) && WellFormedGraph(b.triples)
    requires DuplicateFree(BlankRows(a.triples)) && DuplicateFree(BlankRows(b.triples))
    requires OneForm(a.triples, b.triples) && OneRowPerKey(dict)
    requires Decomposes(pa, BlankRows(a.triples)) && Decomposes(pb, BlankRows(b.triples))
    requires NoCollisions(sha, GroupsOfParts(BlankRows(a.triples), pa), GroupsOfParts(BlankRows(b.triples), pb))
    requires forall g :: g in GroupsOfParts(BlankRows(a.triples), pa) ==> Decided(sha, g)
    ensures NoDifference(sha, a, pa, b, pb) <==> GraphIsomorphic(a.triples, b.triples)
  {
    hide BlankRows, Decomposes, BNodes, NoCollisions, InvariantOn, WellFormedGraph, GraphIsomorphic, NoDifference, OneForm, DuplicateFree, Decided, GroupsOfParts, Separate;
    BlankRowsKeepBNodes(a.triples);
    BlankRowsKeepBNodes(b.triples);
    GroupsSeparate(BlankRows(a.triples), pa);
    GroupsSeparate(BlankRows(b.triples), pb);
    DecidedComponentsAreInvariant(sha, GroupsOfParts(BlankRows(a.triples), pa), GroupsOfParts(BlankRows(b.triples), pb));
    EmptyIffIsomorphic(dict, next, sha, a, pa, b, pb);
  }

  // ----- where the claim fails -----

  lemma DistinctFollows(m: map<string, string>, a: seq<Triple>, b: seq<Triple>)
    requires multiset(RenamedAll(m, a)) == multiset(NormAll(b)) && DuplicateFree(b)
    requires forall i, j :: 0 <= i < j < |a| && NormTriple(a[i]) == NormTriple(a[j]) ==> Renamed(m, a[i]) == Renamed(m, a[j])
    ensures DuplicateFree(a)
  {
    hide Renamed, NormTriple;
    forall i, j | 0 <= i < j < |a| ensures NormAll(a)[i] != NormAll(a)[j] {
      if NormTriple(a[i]) == NormTriple(a[j]) {
        TwoOccurrences(RenamedAll(m, a), i, j);
        Multiplicity(NormAll(b), RenamedAll(m, a)[i]);
      }
    }
  }

  lemma SameNormSameRenamed(m: map<string, string>, t: Triple, u: Triple)
    requires NormTriple(t) == NormTriple(u)
    ensures Renamed(m, t) == Renamed(m, u)
    ensures TripleBNodes(t) == TripleBNodes(u)
  {
  }

  /** An isomorphism of bags carries freedom from repetition over. */
  lemma DuplicateFreeFollows(a: seq<Triple>, b: seq<Triple>)
    requires Isomorphic(a, b) && DuplicateFree(b)
    ensures DuplicateFree(a)
  {
    hide BNodes, DuplicateFree, Injective, Renamed, NormTriple, NormAll, RenamedAll;
    var m :| IsIsomorphism(m, a, b);
    forall i, j | 0 <= i < j < |a| && NormTriple(a[i]) == NormTriple(a[j]) ensures Renamed(m, a[i]) == Renamed(m, a[j]) {
      SameNormSameRenamed(m, a[i], a[j]);
    }
    DistinctFollows(m, a, b);
  }

  /** Which graphs isomorphic to one free of repetition show no difference from it: exactly those that
      are free of repetition too and store their ground rows under the same ids. */
  lemma DuplicatesShow(dict: seq<DictRow>, next: int, sha: string -> string, a: GraphRows, pa: seq<set<string>>, b: GraphRows, pb: seq<set<string>>)
    requires ReadsAs(dict, a) && ReadsAs(dict, b) && DistinctIds(dict, next)
    requires WellFormedGraph(a.triples) && WellFormedGraph(b.triples) && GraphIsomorphic(a.triples, b.triples)
    requires DuplicateFree(BlankRows(b.triples))
    requires Decomposes(pa, BlankRows(a.triples)) && Decomposes(pb, BlankRows(b.triples))
    requires NoCollisions(sha, GroupsOfParts(BlankRows(a.triples), pa), GroupsOfParts(BlankRows(b.triples), pb))
    requires InvariantOn(sha, GroupsOfParts(BlankRows(a.triples), pa), GroupsOfParts(BlankRows(b.triples), pb))
    ensures NoDifference(sha, a, pa, b, pb) <==> DuplicateFree(BlankRows(a.triples)) && Ground(a) == Ground(b)
  {
    hide BlankRows, Decomposes, NoCollisions, InvariantOn, WellFormedGraph, NoDifference, OneForm, DuplicateFree, GraphIsomorphic, Ground, GroundTriples, ReadsAs, DistinctIds, Isomorphic;
    EmptyExactly(dict, next, sha, a, pa, b, pb);
    IsomorphicBlankRows(a.triples, b.triples);
    if NoDifference(sha, a, pa, b, pb) { DuplicateFreeFollows(BlankRows(a.triples), BlankRows(b.triples)); }
  }

  /** The identity on a graph's blank nodes. */
  function Identity(a: seq<Triple>): map<string, string> {
    map b | b in BNodes(a) :: b
  }

  lemma IdentityRenames(a: seq<Triple>, t: Triple)
    requires WellFormedGraph(a) && t in a
    ensures Renamed(Identity(a), t) == NormTriple(t)
  {
    BNodesOfMember(a, t);
    assert WellFormed(t);
    assert t.s.BNode? ==> t.s.id in TripleBNodes(t);
    assert t.o.BNode? ==> t.o.id in TripleBNodes(t);
  }

  /** b stores t as RDF reads it. */
  ghost predicate Stores(b: seq<Triple>, t: Triple) {
    exists u :: u in b && NormTriple(u) == NormTriple(t)
  }

  lemma StoredBNodes(a: seq<Triple>, b: seq<Triple>)
    requires forall t :: t in a ==> Stores(b, t)
    ensures BNodes(a) <= BNodes(b)
  {
    hide NormTriple, TripleBNodes;
    forall x | x in BNodes(a) ensures x in BNodes(b) {
      var t :| t in a && x in TripleBNodes(t);
      assert Stores(b, t);
      var u :| u in b && NormTriple(u) == NormTriple(t);
      SameNormSameRenamed(map[], t, u);
    }
  }

  lemma StoredImage(a: seq<Triple>, b: seq<Triple>, t: Triple)
    requires WellFormedGraph(a) && t in a && Stores(b, t)
    ensures HasImage(Identity(a), t, b)
  {
    hide NormTriple, Renamed, WellFormed;
    IdentityRenames(a, t);
  }

  lemma StoredOrigin(a: seq<Triple>, u: Triple)
    requires WellFormedGraph(a) && Stores(a, u)
    ensures HasOrigin(Identity(a), u, a)
  {
    hide NormTriple, Renamed, WellFormed;
    var t :| t in a && NormTriple(t) == NormTriple(u);
    IdentityRenames(a, t);
  }

  lemma IdentityBijection(a: seq<Triple>)
    ensures Bijection(Identity(a), BNodes(a), BNodes(a))
  {
    hide BNodes;
    forall x | x in BNodes(a) ensures x in Identity(a).Values { assert Identity(a)[x] == x; }
  }

  /** Storing RDF triples again, in any form, changes nothing about the graph. */
  lemma SameTriplesIsomorphic(a: seq<Triple>, b: seq<Triple>)
    requires WellFormedGraph(a) && WellFormedGraph(b)
    requires forall t :: t in a ==> Stores(b, t)
    requires forall u :: u in b ==> Stores(a, u)
    ensures GraphIsomorphic(a, b)
  {
    StoredBNodes(a, b);
    StoredBNodes(b, a);
    IdentityBijection(a);
    hide Stores, HasImage, HasOrigin, Bijection, BNodes, WellFormedGraph, IsGraphIsomorphism, Identity;
    var m := Identity(a);
    forall t | t in a ensures HasImage(m, t, b) { StoredImage(a, b, t); }
    forall u | u in b ensures HasOrigin(m, u, a) { StoredOrigin(a, u); }
    GraphIsomorphismMatches(m, a, b);
  }

  lemma IsomorphicSameSize(a: seq<Triple>, b: seq<Triple>)
    ensures Isomorphic(a, b) ==> |a| == |b|
  {
    if m :| IsIsomorphism(m, a, b) {
      assert |multiset(RenamedAll(m, a))| == |a| && |multiset(NormAll(b))| == |b|;
    }
  }

  /** The same triple stored once and stored twice: one graph, a non-empty difference. */
  lemma StoredTwiceDiffers(sha: string -> string, t: Triple, q: QuadRow, dict: seq<DictRow>, next: int, pa: seq<set<string>>, pb: seq<set<string>>)
    requires t == Triple(BNode("x"), Iri("p"), Iri("o")) && DistinctIds(dict, next) && QuadDecodes(dict, q, t)
    requires Decomposes(pa, BlankRows([t, t])) && Decomposes(pb, BlankRows([t]))
    requires NoCollisions(sha, GroupsOfParts(BlankRows([t, t]), pa), GroupsOfParts(BlankRows([t]), pb))
    ensures GraphIsomorphic([t, t], [t])
    ensures !NoDifference(sha, GraphRows([q, q], [t, t]), pa, GraphRows([q], [t]), pb)
  {
    var a, b := [t, t], [t];
    assert WellFormed(t);
    assert forall u :: u in a ==> u == t;
    assert t in b && t in a;
    hide NormTriple, Renamed, WellFormed, QuadDecodes;
    SameTriplesIsomorphic(a, b);
    FilterAll(IsBlankRow, a);
    FilterAll(IsBlankRow, b);
    IsomorphicSameSize(a, b);
    hide Isomorphic, BlankRows, NoDifference, GroupsOfParts;
    if NoDifference(sha, GraphRows([q, q], a), pa, GraphRows([q], b), pb) {
      EmptyMeansIsomorphic(dict, next, sha, GraphRows([q, q], a), pa, GraphRows([q], b), pb);
    }
  }

  /** One ground row on each side under other ids: no decomposition makes the difference empty. */
  lemma OtherIdsDiffer(sha: string -> string, q: QuadRow, t: Triple, r: QuadRow, u: Triple)
    requires IsGround(t) && IsGround(u) && IdsOf(q) != IdsOf(r)
    ensures forall pa, pb :: !NoDifference(sha, GraphRows([q], [t]), pa, GraphRows([r], [u]), pb)
  {
    var a, b := GraphRows([q], [t]), GraphRows([r], [u]);
    assert a.triples[0] == t && a.quads[0] == q;
    assert IdsOf(q) in Ground(a) && IdsOf(q) !in Ground(b);
  }

  /** One RDF triple stored as a plain literal here and with an explicit xsd:string there: isomorphic
      (indeed equal canonical lines), yet the ids differ. */
  lemma TwoFormsDiffer(sha: string -> string, t: Triple, u: Triple)
    requires t == Triple(Iri("s"), Iri("p"), Lit("v", None, None))
    requires u == Triple(Iri("s"), Iri("p"), Lit("v", Some(XSD_STRING), None))
    ensures GraphIsomorphic([t], [u])
    ensures forall dict, next, q, r, pa, pb :: DistinctIds(dict, next) && QuadDecodes(dict, q, t) && QuadDecodes(dict, r, u) ==>
      !NoDifference(sha, GraphRows([q], [t]), pa, GraphRows([r], [u]), pb)
  {
    assert WellFormed(t) && WellFormed(u) by { XsdStringIsPlain(); }
    assert NormTriple(t) == NormTriple(u);
    assert t in [t] && u in [u];
    hide NormTriple, WellFormed, Ground, Decodes;
    SameTriplesIsomorphic([t], [u]);
    forall dict, next, q, r, pa, pb | DistinctIds(dict, next) && QuadDecodes(dict, q, t) && QuadDecodes(dict, r, u)
      ensures !NoDifference(sha, GraphRows([q], [t]), pa, GraphRows([r], [u]), pb)
    {
      if q.o == r.o { DecodesOneTerm(dict, next, q.o, t.o, u.o); }
      OtherIdsDiffer(sha, q, t, r, u);
    }
  }

  /** One ground triple stored under two ids of one key, as a dictionary that holds the key twice allows:
      the same triple on both sides, and a non-empty difference. */
  lemma TwoIdsDiffer(sha: string -> string)
    ensures var dict := [DictRow(IriKey("s"), 1), DictRow(IriKey("p"), 2), DictRow(IriKey("o"), 3), DictRow(IriKey("o"), 4)];
      var t := Triple(Iri("s"), Iri("p"), Iri("o"));
      var a, b := GraphRows([QuadRow(1, 2, 3, 0, false)], [t]), GraphRows([QuadRow(1, 2, 4, 1, false)], [t]);
      && DistinctIds(dict, 5) && ReadsAs(dict, a) && ReadsAs(dict, b)
      && GraphIsomorphic(a.triples, b.triples) && forall pa, pb :: !NoDifference(sha, a, pa, b, pb)
  {
    var dict := [DictRow(IriKey("s"), 1), DictRow(IriKey("p"), 2), DictRow(IriKey("o"), 3), DictRow(IriKey("o"), 4)];
    var t := Triple(Iri("s"), Iri("p"), Iri("o"));
    IriDecodes(dict, 0, "s");
    IriDecodes(dict, 1, "p");
    IriDecodes(dict, 2, "o");
    IriDecodes(dict, 3, "o");
    assert WellFormed(t);
    assert t in [t];
    hide NormTriple, WellFormed, Ground, Decodes, GraphIsomorphic;
    SameTriplesIsomorphic([t], [t]);
    OtherIdsDiffer(sha, QuadRow(1, 2, 3, 0, false), t, QuadRow(1, 2, 4, 1, false), t);
  }

  lemma IriDecodes(dict: seq<DictRow>, i: nat, iri: string)
    requires i < |dict| && dict[i].key == IriKey(iri)
    ensures Decodes(dict, dict[i].id, Iri(iri))
  {
    assert DictRow(IriKey(iri), dict[i].id) == dict[i] && dict[i] in dict && KeyStandsFor(dict, IriKey(iri), Iri(iri));
  }

  lemma XsdStringIsPlain()
    ensures '>' !in XSD_STRING && '\n' !in XSD_STRING
  {
  }
}
