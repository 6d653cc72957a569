/**
 Blank-node components and what comparing them says about isomorphism.

 A component is a least non-empty set of blank nodes that no triple leaves: the connected component of
 the "share a triple" relation. The diff splits a graph's blank-node-bearing triples by component and
 compares the bags of component digests.
 */
module Components {
  import opened Sequences
  import opened Text
  import opened Terms
  import opened Isomorphism
  import opened CanonicalDigest
  import opened Invariance
  import opened TieInvariance

  /** No triple connects a member of s with a blank node outside. */
  ghost predicate Closed(ts: seq<Triple>, s: set<string>) {
    forall t :: t in ts ==> TripleBNodes(t) <= s || TripleBNodes(t) !! s
  }

  ghost predicate Component(ts: seq<Triple>, s: set<string>) {
    && s != {} && s <= BNodes(ts) && Closed(ts, s)
    && forall r :: r != {} && r <= s && Closed(ts, r) ==> r == s
  }

  predicate Touches(t: Triple, s: set<string>) {
    TripleBNodes(t) * s != {}
  }

  function Touching(s: set<string>): Triple -> bool {
    t => Touches(t, s)
  }

  /** The triples of one component, in their stored order. */
  function PartOf(ts: seq<Triple>, s: set<string>): seq<Triple> {
    Filter(Touching(s), ts)
  }

  ghost predicate AllBlank(ts: seq<Triple>) {
    forall t :: t in ts ==> TripleBNodes(t) != {}
  }

  /** All components, each once. */
  ghost predicate Decomposes(parts: seq<set<string>>, ts: seq<Triple>) {
    && NoDuplicates(parts)
    && (forall i :: 0 <= i < |parts| ==> Component(ts, parts[i]))
    && (forall b :: b in BNodes(ts) ==> exists i :: 0 <= i < |parts| && b in parts[i])
  }

  function GroupsOfParts(ts: seq<Triple>, parts: seq<set<string>>): seq<seq<Triple>> {
    Map(s => PartOf(ts, s), parts)
  }

  lemma ClosedIntersection(ts: seq<Triple>, r: set<string>, s: set<string>)
    requires Closed(ts, r) && Closed(ts, s)
    ensures Closed(ts, r * s)
  {
    hide TripleBNodes;
  }

  /** Components that meet are equal. */
  lemma ComponentsMeet(ts: seq<Triple>, r: set<string>, s: set<string>, b: string)
    requires Component(ts, r) && Component(ts, s) && b in r && b in s
    ensures r == s
  {
    hide Closed, BNodes;
    ClosedIntersection(ts, r, s);
    assert b in r * s;
    assert r * s == r && r * s == s;
  }

  lemma ComponentListed(parts: seq<set<string>>, ts: seq<Triple>, s: set<string>)
    requires Decomposes(parts, ts) && Component(ts, s)
    ensures s in parts
  {
    hide Closed, BNodes;
    var b :| b in s;
    var i :| 0 <= i < |parts| && b in parts[i];
    ComponentsMeet(ts, parts[i], s, b);
  }

  // ----- the same notion by paths -----

  /** Consecutive members share a triple. */
  ghost predicate Chain(ts: seq<Triple>, p: seq<string>) {
    && p != []
    && forall i :: 0 < i < |p| ==> Linked(ts, p[i - 1], p[i])
  }

  ghost predicate Linked(ts: seq<Triple>, x: string, y: string) {
    exists t :: t in ts && x in TripleBNodes(t) && y in TripleBNodes(t)
  }

  ghost predicate Connected(ts: seq<Triple>, x: string, y: string) {
    exists p :: Chain(ts, p) && p[0] == x && p[|p| - 1] == y
  }

  lemma {:induction false} ChainStays(ts: seq<Triple>, s: set<string>, p: seq<string>)
    requires Closed(ts, s) && Chain(ts, p) && p[0] in s
    ensures p[|p| - 1] in s
  {
    hide TripleBNodes;
    if |p| > 1 {
      assert Linked(ts, p[0], p[1]);
      var q := p[1..];
      forall i | 0 < i < |q| ensures Linked(ts, q[i - 1], q[i]) {
        assert Linked(ts, p[i + 1 - 1], p[i + 1]);
      }
      ChainStays(ts, s, p[1..]);
    }
  }

  lemma ChainExtends(ts: seq<Triple>, x: string, y: string, z: string)
    requires Connected(ts, x, y) && Linked(ts, y, z)
    ensures Connected(ts, x, z)
  {
    hide Linked;
    var p :| Chain(ts, p) && p[0] == x && p[|p| - 1] == y;
    var q := p + [z];
    assert Chain(ts, q) && q[0] == x && q[|q| - 1] == z;
  }

  lemma ReachedIsClosed(ts: seq<Triple>, s: set<string>, x: string, reached: set<string>)
    requires Closed(ts, s) && reached == set z | z in s && Connected(ts, x, z)
    ensures Closed(ts, reached)
  {
    hide TripleBNodes, Connected;
    forall t | t in ts ensures TripleBNodes(t) <= reached || TripleBNodes(t) !! reached {
      forall a, b | a in TripleBNodes(t) && b in TripleBNodes(t) && a in reached ensures b in reached {
        assert Linked(ts, a, b);
        ChainExtends(ts, x, a, b);
      }
    }
  }

  lemma ConnectedToSelf(ts: seq<Triple>, x: string)
    ensures Connected(ts, x, x)
  {
    assert Chain(ts, [x]) && [x][0] == x && [x][|[x]| - 1] == x;
  }

  /** The component of x is exactly what chains of shared triples reach from x. */
  lemma ComponentIsConnected(ts: seq<Triple>, s: set<string>, x: string, y: string)
    requires Component(ts, s) && x in s
    ensures y in s <==> Connected(ts, x, y)
  {
    if Connected(ts, x, y) {
      var p :| Chain(ts, p) && p[0] == x && p[|p| - 1] == y;
      ChainStays(ts, s, p);
    }
    hide Connected, Closed, BNodes;
    var reached := set z | z in s && Connected(ts, x, z);
    ReachedIsClosed(ts, s, x, reached);
    ConnectedToSelf(ts, x);
    assert x in reached;
    assert reached == s;
  }

  // ----- a graph is the sum of its components -----

  ghost predicate Apart(parts: seq<set<string>>) {
    forall i, j :: 0 <= i < j < |parts| ==> parts[i] !! parts[j]
  }

  /** The part a triple lies in. */
  ghost function Home(parts: seq<set<string>>, t: Triple): int {
    if exists i :: 0 <= i < |parts| && TripleBNodes(t) <= parts[i]
    then var i :| 0 <= i < |parts| && TripleBNodes(t) <= parts[i]; i
    else -1
  }

  ghost predicate Housed(parts: seq<set<string>>, ts: seq<Triple>) {
    forall t :: t in ts ==> TripleBNodes(t) != {} && 0 <= Home(parts, t)
  }

  lemma PartsSum(ts: seq<Triple>, parts: seq<set<string>>)
    requires Apart(parts) && Housed(parts, ts)
    ensures multiset(Flatten(GroupsOfParts(ts, parts))) == multiset(ts)
  {
    var key := (t: Triple) => Home(parts, t);
    forall i | 0 <= i < |parts| ensures GroupsOfParts(ts, parts)[i] == ByKey(key, ts, |parts|)[i] {
      forall t | t in ts ensures Touches(t, parts[i]) <==> key(t) == i {
        HomeIsTouched(parts, t, i);
      }
      FilterSame(Touching(parts[i]), KeyIs(key, i), ts);
    }
    assert GroupsOfParts(ts, parts) == ByKey(key, ts, |parts|);
    GroupingSums(key, ts, |parts|);
  }

  lemma HomeIsTouched(parts: seq<set<string>>, t: Triple, i: nat)
    requires Apart(parts) && TripleBNodes(t) != {} && 0 <= Home(parts, t) && i < |parts|
    ensures Home(parts, t) < |parts|
    ensures Touches(t, parts[i]) <==> Home(parts, t) == i
  {
    hide TripleBNodes;
    var h := Home(parts, t);
    var b :| b in TripleBNodes(t);
    assert b in parts[h];
    if h == i { assert b in TripleBNodes(t) * parts[i]; }
    if Touches(t, parts[i]) {
      var c :| c in TripleBNodes(t) * parts[i];
      assert c in parts[h];
    }
  }

  lemma DecompositionApart(parts: seq<set<string>>, ts: seq<Triple>)
    requires Decomposes(parts, ts)
    ensures Apart(parts)
  {
    hide Component, BNodes;
    forall i, j, b | 0 <= i < j < |parts| && b in parts[i] && b in parts[j] ensures false {
      ComponentsMeet(ts, parts[i], parts[j], b);
    }
  }

  lemma DecompositionHouses(parts: seq<set<string>>, ts: seq<Triple>, t: Triple)
    requires Decomposes(parts, ts) && t in ts && TripleBNodes(t) != {}
    ensures 0 <= Home(parts, t)
  {
    hide TripleBNodes, Component;
    var b :| b in TripleBNodes(t);
    BNodesOfMember(ts, t);
    var i :| 0 <= i < |parts| && b in parts[i];
    ComponentKeepsTriple(ts, parts[i], t, b);
  }

  lemma ComponentKeepsTriple(ts: seq<Triple>, s: set<string>, t: Triple, b: string)
    requires Component(ts, s) && t in ts && b in TripleBNodes(t) && b in s
    ensures TripleBNodes(t) <= s
  {
    hide TripleBNodes, BNodes;
  }

  /** Splitting into components is a partition of the stored rows. */
  lemma ComponentsSum(parts: seq<set<string>>, ts: seq<Triple>)
    requires Decomposes(parts, ts) && AllBlank(ts)
    ensures multiset(Flatten(GroupsOfParts(ts, parts))) == multiset(ts)
  {
    hide Decomposes, TripleBNodes, Home;
    DecompositionApart(parts, ts);
    forall t | t in ts ensures TripleBNodes(t) != {} && 0 <= Home(parts, t) {
      DecompositionHouses(parts, ts, t);
    }
    PartsSum(ts, parts);
  }

  // ----- empty difference means isomorphic -----

  /** No blank node occurs in two groups. */
  ghost predicate Separate(groups: seq<seq<Triple>>) {
    forall i, j :: 0 <= i < j < |groups| ==> BNodes(groups[i]) !! BNodes(groups[j])
  }

  lemma IsomorphicBags(a: seq<Triple>, a': seq<Triple>, b: seq<Triple>, b': seq<Triple>)
    requires multiset(a) == multiset(a') && multiset(b) == multiset(b') && Isomorphic(a, b)
    ensures Isomorphic(a', b')
  {
    hide BNodes, Renamed;
    var m :| IsIsomorphism(m, a, b);
    BNodesOfBag(a, a');
    BNodesOfBag(b, b');
    MapPermutation((t: Triple) => Renamed(m, t), a, a');
    MapPermutation(NormTriple, b, b');
    assert IsIsomorphism(m, a', b');
  }

  lemma BNodesOfSum(a: seq<Triple>, b: seq<Triple>)
    ensures BNodes(a + b) == BNodes(a) + BNodes(b)
  {
    hide TripleBNodes;
    forall x ensures x in BNodes(a + b) <==> x in BNodes(a) || x in BNodes(b) {
      if t :| t in a && x in TripleBNodes(t) { assert t in a + b; }
      if t :| t in b && x in TripleBNodes(t) { assert t in a + b; }
    }
  }

  /** Isomorphisms of two parts that share no blank node glue into one. */
  lemma Glue(a: seq<Triple>, a': seq<Triple>, b: seq<Triple>, b': seq<Triple>)
    requires WellFormedGraph(a) && WellFormedGraph(a')
    requires BNodes(a) !! BNodes(a') && BNodes(b) !! BNodes(b')
    requires Isomorphic(a, b) && Isomorphic(a', b')
    ensures Isomorphic(a + a', b + b')
  {
    var m :| IsIsomorphism(m, a, b);
    var m' :| IsIsomorphism(m', a', b');
    hide BNodes;
    var n := m + m';
    BNodesOfSum(a, a');
    BNodesOfSum(b, b');
    UnionBijection(m, m');
    hide Injective;
    SameRenaming(m, n, a);
    SameRenaming(m', n, a');
    MapAppend((t: Triple) => Renamed(n, t), a, a');
    MapAppend(NormTriple, b, b');
    assert IsIsomorphism(n, a + a', b + b');
  }

  lemma SameRenaming(m: map<string, string>, n: map<string, string>, ts: seq<Triple>)
    requires WellFormedGraph(ts) && m.Keys == BNodes(ts)
    requires forall x :: x in m ==> x in n && n[x] == m[x]
    ensures RenamedAll(n, ts) == RenamedAll(m, ts)
  {
    forall i | 0 <= i < |ts| ensures Renamed(n, ts[i]) == Renamed(m, ts[i]) {
      BNodesOfMember(ts, ts[i]);
      assert WellFormed(ts[i]);
      assert ts[i].s.BNode? ==> ts[i].s.id in TripleBNodes(ts[i]);
      assert ts[i].o.BNode? ==> ts[i].o.id in TripleBNodes(ts[i]);
    }
  }

  ghost predicate AllWellFormed(groups: seq<seq<Triple>>) {
    forall i :: 0 <= i < |groups| ==> WellFormedGraph(groups[i])
  }

  lemma {:induction false} SeparateFromRest(g: seq<Triple>, groups: seq<seq<Triple>>)
    requires forall i :: 0 <= i < |groups| ==> BNodes(g) !! BNodes(groups[i])
    requires AllWellFormed(groups)
    ensures BNodes(g) !! BNodes(Flatten(groups)) && WellFormedGraph(Flatten(groups))
  {
    hide BNodes, WellFormed;
    if groups == [] {
      NoBNodes();
    } else {
      var n := |groups| - 1;
      SeparateFromRest(g, groups[..n]);
      BNodesOfSum(Flatten(groups[..n]), groups[n]);
    }
  }

  lemma NoBNodes()
    ensures BNodes([]) == {}
  {
  }

  lemma FlattenNothing()
    ensures Flatten<Triple>([]) == []
  {
  }

  lemma NothingIsomorphic()
    ensures Isomorphic([], [])
  {
    var m: map<string, string> := map[];
    assert RenamedAll(m, []) == [] && NormAll([]) == [];
    assert IsIsomorphism(m, [], []);
  }

  lemma {:induction false} FlattenWithout(groups: seq<seq<Triple>>, k: nat)
    requires k < |groups|
    ensures multiset(Flatten(groups)) == multiset(Flatten(groups[..k] + groups[k + 1..]) + groups[k])
  {
    var n := |groups| - 1;
    if k < n {
      FlattenWithout(groups[..n], k);
      var rest := groups[..k] + groups[k + 1..];
      assert rest[..n - 1] == groups[..n][..k] + groups[..n][k + 1..];
      assert rest[n - 1] == groups[n];
    } else {
      assert groups[..k] + groups[k + 1..] == groups[..n];
    }
  }

  lemma SeparateWithout(groups: seq<seq<Triple>>, k: nat)
    requires Separate(groups) && AllWellFormed(groups) && k < |groups|
    ensures var rest := groups[..k] + groups[k + 1..];
            && Separate(rest) && AllWellFormed(rest)
            && forall i :: 0 <= i < |rest| ==> BNodes(groups[k]) !! BNodes(rest[i])
  {
    hide BNodes, WellFormedGraph;
    var rest := groups[..k] + groups[k + 1..];
    forall i | 0 <= i < |rest| ensures BNodes(groups[k]) !! BNodes(rest[i]) {
      assert rest[i] == groups[if i < k then i else i + 1];
    }
  }

  /** Groups that pair off as isomorphic assemble into isomorphic graphs. */
  lemma {:induction false} GlueAll(key: seq<Triple> -> string, ga: seq<seq<Triple>>, gb: seq<seq<Triple>>)
    requires Separate(ga) && Separate(gb) && AllWellFormed(ga) && AllWellFormed(gb)
    requires multiset(Map(key, ga)) == multiset(Map(key, gb))
    requires forall g, h :: g in ga && h in gb && key(g) == key(h) ==> Isomorphic(g, h)
    ensures Isomorphic(Flatten(ga), Flatten(gb))
    decreases |ga|
  {
    hide Separate, AllWellFormed, Isomorphic, Flatten;
    assert |multiset(Map(key, ga))| == |ga| && |multiset(Map(key, gb))| == |gb|;
    if ga == [] {
      FlattenNothing();
      NothingIsomorphic();
    } else {
      assert Map(key, ga)[0] in multiset(Map(key, gb));
      var k := IndexOf(Map(key, gb), key(ga[0]));
      var ra, rb := ga[..0] + ga[0 + 1..], gb[..k] + gb[k + 1..];
      RemoveOne(Map(key, ga), Map(key, gb), k);
      MapWithout(key, ga, 0);
      MapWithout(key, gb, k);
      SeparateWithout(ga, 0);
      SeparateWithout(gb, k);
      GlueAll(key, ra, rb);
      GlueOne(ga, gb, 0, k);
    }
  }

  lemma GlueOne(ga: seq<seq<Triple>>, gb: seq<seq<Triple>>, i: nat, k: nat)
    requires i < |ga| && k < |gb|
    requires Separate(ga) && Separate(gb) && AllWellFormed(ga) && AllWellFormed(gb)
    requires Isomorphic(ga[i], gb[k])
    requires Isomorphic(Flatten(ga[..i] + ga[i + 1..]), Flatten(gb[..k] + gb[k + 1..]))
    ensures Isomorphic(Flatten(ga), Flatten(gb))
  {
    hide BNodes, Isomorphic, Flatten, Separate, WellFormed;
    var ra, rb := ga[..i] + ga[i + 1..], gb[..k] + gb[k + 1..];
    SeparateWithout(ga, i);
    SeparateWithout(gb, k);
    SeparateFromRest(ga[i], ra);
    SeparateFromRest(gb[k], rb);
    Glue(Flatten(ra), ga[i], Flatten(rb), gb[k]);
    FlattenWithout(ga, i);
    FlattenWithout(gb, k);
    IsomorphicBags(Flatten(ra) + ga[i], Flatten(ga), Flatten(rb) + gb[k], Flatten(gb));
  }

  lemma PartBNodes(ts: seq<Triple>, s: set<string>)
    requires Component(ts, s)
    ensures BNodes(PartOf(ts, s)) == s
  {
    hide TripleBNodes;
    forall b | b in BNodes(PartOf(ts, s)) ensures b in s {
      var t :| t in PartOf(ts, s) && b in TripleBNodes(t);
      assert t in ts && Touches(t, s);
    }
    forall b | b in s ensures b in BNodes(PartOf(ts, s)) {
      assert b in BNodes(ts);
      var t :| t in ts && b in TripleBNodes(t);
      assert b in TripleBNodes(t) * s;
      assert Touching(s)(t);
    }
  }

  lemma GroupsSeparate(ts: seq<Triple>, parts: seq<set<string>>)
    requires Decomposes(parts, ts) && WellFormedGraph(ts)
    ensures Separate(GroupsOfParts(ts, parts)) && AllWellFormed(GroupsOfParts(ts, parts))
  {
    DecompositionApart(parts, ts);
    hide Component, BNodes, WellFormed, Touches;
    forall i | 0 <= i < |parts|
      ensures BNodes(GroupsOfParts(ts, parts)[i]) == parts[i] && WellFormedGraph(GroupsOfParts(ts, parts)[i])
    {
      PartBNodes(ts, parts[i]);
    }
  }

  ghost function DigestKey(sha: string -> string): seq<Triple> -> string {
    g => Digest(sha, g)
  }

  ghost function Digests(sha: string -> string, groups: seq<seq<Triple>>): seq<string> {
    Map(DigestKey(sha), groups)
  }

  /** Equal bags of component digests prove the blank-node parts isomorphic, as long as SHA-256 does
      not collide on the components' documents. */
  lemma EqualDigestsMeanIsomorphic(sha: string -> string, a: seq<Triple>, pa: seq<set<string>>, b: seq<Triple>, pb: seq<set<string>>)
    requires WellFormedGraph(a) && WellFormedGraph(b) && AllBlank(a) && AllBlank(b)
    requires Decomposes(pa, a) && Decomposes(pb, b)
    requires forall g, h :: g in GroupsOfParts(a, pa) && h in GroupsOfParts(b, pb) ==> NoCollision(sha, g, h)
    requires multiset(Digests(sha, GroupsOfParts(a, pa))) == multiset(Digests(sha, GroupsOfParts(b, pb)))
    ensures Isomorphic(a, b)
  {
    hide Digest, Document, Decomposes, BNodes, WellFormed, Isomorphic, GroupsOfParts;
    var ga, gb := GroupsOfParts(a, pa), GroupsOfParts(b, pb);
    var key := DigestKey(sha);
    GroupsSeparate(a, pa);
    GroupsSeparate(b, pb);
    forall g, h | g in ga && h in gb && key(g) == key(h) ensures Isomorphic(g, h) {
      assert NoCollision(sha, g, h);
      EqualDocumentsMeanIsomorphic(sha, g, h);
    }
    GlueAll(key, ga, gb);
    ComponentsSum(pa, a);
    ComponentsSum(pb, b);
    IsomorphicBags(Flatten(ga), a, Flatten(gb), b);
  }

  // ----- isomorphic means empty difference -----

  lemma TripleNodesFollow(m: map<string, string>, t: Triple, u: Triple)
    requires Injective(m) && TripleBNodes(t) <= m.Keys && Renamed(m, t) == NormTriple(u)
    ensures TripleBNodes(u) == Image(m, TripleBNodes(t))
  {
  }

  lemma ImagesMeet(m: map<string, string>, s: set<string>, r: set<string>)
    requires Injective(m) && s <= m.Keys && r <= m.Keys
    ensures s !! r <==> Image(m, s) !! Image(m, r)
    ensures s <= r <==> Image(m, s) <= Image(m, r)
  {
    if x :| x in s && x in r { assert m[x] in Image(m, s) && m[x] in Image(m, r); }
    if y :| y in Image(m, s) && y in Image(m, r) {
      var x :| x in s && m[x] == y;
      assert x in r;
    }
    if Image(m, s) <= Image(m, r) {
      forall x | x in s ensures x in r { assert m[x] in Image(m, s); }
    }
  }

  lemma TouchesIsMeeting(t: Triple, r: set<string>)
    ensures Touches(t, r) <==> !(TripleBNodes(t) !! r)
  {
  }

  lemma TouchesFollow(m: map<string, string>, t: Triple, u: Triple, r: set<string>)
    requires Injective(m) && TripleBNodes(t) <= m.Keys && r <= m.Keys && Renamed(m, t) == NormTriple(u)
    ensures Touches(t, r) <==> Touches(u, Image(m, r))
    ensures TripleBNodes(t) !! r <==> TripleBNodes(u) !! Image(m, r)
    ensures TripleBNodes(t) <= r <==> TripleBNodes(u) <= Image(m, r)
  {
    hide TripleBNodes, Renamed, Image, Touches;
    TripleNodesFollow(m, t, u);
    ImagesMeet(m, TripleBNodes(t), r);
    TouchesIsMeeting(t, r);
    TouchesIsMeeting(u, Image(m, r));
  }

  lemma ClosedFollows(m: map<string, string>, a: seq<Triple>, b: seq<Triple>, r: set<string>)
    requires IsIsomorphism(m, a, b) && r <= m.Keys
    ensures Closed(a, r) <==> Closed(b, Image(m, r))
  {
    hide BNodes, TripleBNodes, Renamed, NormTriple, RenamedAll, NormAll;
    if Closed(a, r) {
      forall u | u in b ensures TripleBNodes(u) <= Image(m, r) || TripleBNodes(u) !! Image(m, r) {
        var t := Backward(m, a, b, u);
        BNodesOfMember(a, t);
        TouchesFollow(m, t, u, r);
      }
    }
    if Closed(b, Image(m, r)) {
      forall t | t in a ensures TripleBNodes(t) <= r || TripleBNodes(t) !! r {
        var u := Forward(m, a, b, t);
        BNodesOfMember(a, t);
        TouchesFollow(m, t, u, r);
      }
    }
  }

  function Preimage(m: map<string, string>, s: set<string>): set<string> {
    set x | x in m && m[x] in s
  }

  lemma ImageOfPreimage(m: map<string, string>, s: set<string>)
    requires s <= m.Values
    ensures Image(m, Preimage(m, s)) == s
  {
    forall y | y in s ensures y in Image(m, Preimage(m, s)) {
      var x :| x in m && m[x] == y;
    }
  }

  lemma PreimageOfImage(m: map<string, string>, r: set<string>)
    requires Injective(m) && r <= m.Keys
    ensures Preimage(m, Image(m, r)) == r
  {
    forall x | x in r ensures x in Preimage(m, Image(m, r)) {
      assert m[x] in Image(m, r);
    }
  }

  lemma ImageEmpty(m: map<string, string>, r: set<string>)
    requires r <= m.Keys
    ensures Image(m, r) == {} <==> r == {}
    ensures Image(m, r) <= m.Values
  {
    if r != {} {
      var x :| x in r;
      assert m[x] in Image(m, r);
    }
  }

  /** An isomorphism carries components onto components. */
  lemma ComponentFollows(m: map<string, string>, a: seq<Triple>, b: seq<Triple>, r: set<string>)
    requires IsIsomorphism(m, a, b) && r <= m.Keys
    ensures Component(a, r) <==> Component(b, Image(m, r))
  {
    ImageEmpty(m, r);
    ClosedFollows(m, a, b, r);
    hide BNodes, Closed, RenamedAll, NormAll;
    if Component(a, r) {
      forall s | s != {} && s <= Image(m, r) && Closed(b, s) ensures s == Image(m, r) {
        ImageOfPreimage(m, s);
        PreimageOfImage(m, r);
        ImageEmpty(m, Preimage(m, s));
        ClosedFollows(m, a, b, Preimage(m, s));
        assert Preimage(m, s) <= Preimage(m, Image(m, r));
      }
    }
    if Component(b, Image(m, r)) {
      forall q | q != {} && q <= r && Closed(a, q) ensures q == r {
        ImageEmpty(m, q);
        ClosedFollows(m, a, b, q);
        PreimageOfImage(m, q);
        PreimageOfImage(m, r);
        assert Image(m, q) <= Image(m, r);
      }
    }
  }

  ghost function Restrict(m: map<string, string>, r: set<string>): map<string, string> {
    map x | x in m && x in r :: m[x]
  }

  lemma RestrictBijection(m: map<string, string>, r: set<string>)
    requires Injective(m) && r <= m.Keys
    ensures Bijection(Restrict(m, r), r, Image(m, r))
  {
    var n := Restrict(m, r);
    forall y | y in Image(m, r) ensures y in n.Values {
      var x :| x in r && m[x] == y;
      assert n[x] == y;
    }
  }

  /** Corresponding components are isomorphic. */
  lemma PartFollows(m: map<string, string>, a: seq<Triple>, b: seq<Triple>, r: set<string>)
    requires WellFormedGraph(a) && IsIsomorphism(m, a, b) && r <= m.Keys
    requires Component(a, r) && Component(b, Image(m, r))
    ensures Isomorphic(PartOf(a, r), PartOf(b, Image(m, r)))
  {
    hide TripleBNodes, Renamed, NormTriple, Component, WellFormed;
    var s := Image(m, r);
    var h := (t: Triple) => if Touches(t, r) then [Renamed(m, t)] else [];
    var k := (u: Triple) => if Touches(u, s) then [NormTriple(u)] else [];
    forall t, u | t in a && u in b && Renamed(m, t) == NormTriple(u) ensures h(t) == k(u) {
      BNodesOfMember(a, t);
      TouchesFollow(m, t, u, r);
    }
    FlatImagesCorrespond((t: Triple) => Renamed(m, t), NormTriple, h, k, a, b);
    MapOfFilter(Touching(r), (t: Triple) => Renamed(m, t), h, a);
    MapOfFilter(Touching(s), NormTriple, k, b);
    var n := Restrict(m, r);
    RestrictBijection(m, r);
    PartBNodes(a, r);
    PartBNodes(b, s);
    SameRenaming(n, m, PartOf(a, r));
    assert IsIsomorphism(n, PartOf(a, r), PartOf(b, s));
  }

  /** The canonical digest tells nothing apart that is isomorphic: what RDFC-1.0 promises of each
      pair of components, proved in CanonicalInvariance for every decided one. */
  ghost predicate InvariantOn(sha: string -> string, ga: seq<seq<Triple>>, gb: seq<seq<Triple>>) {
    forall g, h :: g in ga && h in gb && Isomorphic(g, h) ==> Digest(sha, g) == Digest(sha, h)
  }

  function Images(m: map<string, string>, parts: seq<set<string>>): seq<set<string>> {
    Map(s => Image(m, s), parts)
  }

  lemma ImageIsPart(m: map<string, string>, a: seq<Triple>, pa: seq<set<string>>, b: seq<Triple>, pb: seq<set<string>>, i: nat)
    requires IsIsomorphism(m, a, b) && Decomposes(pa, a) && Decomposes(pb, b) && i < |pa|
    ensures pa[i] <= m.Keys && Image(m, pa[i]) in pb
  {
    hide BNodes, RenamedAll, NormAll, Closed;
    assert Component(a, pa[i]);
    ComponentFollows(m, a, b, pa[i]);
    ComponentListed(pb, b, Image(m, pa[i]));
  }

  lemma PartIsImage(m: map<string, string>, a: seq<Triple>, pa: seq<set<string>>, b: seq<Triple>, pb: seq<set<string>>, j: nat)
    requires IsIsomorphism(m, a, b) && Decomposes(pa, a) && Decomposes(pb, b) && j < |pb|
    ensures pb[j] in Images(m, pa)
  {
    hide BNodes, RenamedAll, NormAll, Closed;
    assert Component(b, pb[j]);
    var s := Preimage(m, pb[j]);
    ImageOfPreimage(m, pb[j]);
    ComponentFollows(m, a, b, s);
    ComponentListed(pa, a, s);
    assert Images(m, pa)[IndexOf(pa, s)] == pb[j];
  }

  lemma ImagesDistinct(m: map<string, string>, parts: seq<set<string>>)
    requires Injective(m) && NoDuplicates(parts) && forall i :: 0 <= i < |parts| ==> parts[i] <= m.Keys
    ensures NoDuplicates(Images(m, parts))
  {
    forall i, j | 0 <= i < j < |parts| ensures Images(m, parts)[i] != Images(m, parts)[j] {
      PreimageOfImage(m, parts[i]);
      PreimageOfImage(m, parts[j]);
    }
  }

  lemma ImagesAreParts(m: map<string, string>, a: seq<Triple>, pa: seq<set<string>>, b: seq<Triple>, pb: seq<set<string>>)
    requires IsIsomorphism(m, a, b) && Decomposes(pa, a) && Decomposes(pb, b)
    ensures multiset(Images(m, pa)) == multiset(pb)
  {
    hide Decomposes, IsIsomorphism, Component, NoDuplicates, Image, BNodes;
    forall i | 0 <= i < |pa| ensures pa[i] <= m.Keys && Images(m, pa)[i] in pb {
      ImageIsPart(m, a, pa, b, pb, i);
    }
    forall j | 0 <= j < |pb| ensures pb[j] in Images(m, pa) {
      PartIsImage(m, a, pa, b, pb, j);
    }
    DecompositionDistinct(pa, a);
    DecompositionDistinct(pb, b);
    IsomorphismInjective(m, a, b);
    hide Images;
    ImagesDistinct(m, pa);
    SameBagSameSet(Images(m, pa), pb);
  }

  lemma DecompositionDistinct(parts: seq<set<string>>, ts: seq<Triple>)
    requires Decomposes(parts, ts)
    ensures NoDuplicates(parts)
  {
  }

  lemma IsomorphismInjective(m: map<string, string>, a: seq<Triple>, b: seq<Triple>)
    requires IsIsomorphism(m, a, b)
    ensures Injective(m)
  {
  }

  ghost function PartDigest(sha: string -> string, ts: seq<Triple>): set<string> -> string {
    s => Digest(sha, PartOf(ts, s))
  }

  lemma PartDigestFollows(sha: string -> string, m: map<string, string>, a: seq<Triple>, pa: seq<set<string>>, b: seq<Triple>, pb: seq<set<string>>, i: nat)
    requires WellFormedGraph(a) && IsIsomorphism(m, a, b)
    requires Decomposes(pa, a) && Decomposes(pb, b) && i < |pa|
    requires InvariantOn(sha, GroupsOfParts(a, pa), GroupsOfParts(b, pb))
    ensures PartDigest(sha, a)(pa[i]) == PartDigest(sha, b)(Image(m, pa[i]))
  {
    hide Digest, IsIsomorphism, Component, WellFormedGraph, PartOf, Isomorphic, NoDuplicates, Image;
    ImageIsPart(m, a, pa, b, pb, i);
    var j := IndexOf(pb, Image(m, pa[i]));
    assert Component(a, pa[i]) && Component(b, pb[j]);
    hide Decomposes;
    PartFollows(m, a, b, pa[i]);
    assert GroupsOfParts(a, pa)[i] in GroupsOfParts(a, pa);
    assert GroupsOfParts(b, pb)[j] in GroupsOfParts(b, pb);
  }

  lemma DigestsOfParts(sha: string -> string, ts: seq<Triple>, parts: seq<set<string>>)
    ensures Digests(sha, GroupsOfParts(ts, parts)) == Map(PartDigest(sha, ts), parts)
  {
    hide Digest;
  }

  /** Isomorphic graphs have equal bags of component digests. */
  lemma IsomorphicMeansEqualDigests(sha: string -> string, a: seq<Triple>, pa: seq<set<string>>, b: seq<Triple>, pb: seq<set<string>>)
    requires WellFormedGraph(a) && Isomorphic(a, b)
    requires Decomposes(pa, a) && Decomposes(pb, b)
    requires InvariantOn(sha, GroupsOfParts(a, pa), GroupsOfParts(b, pb))
    ensures multiset(Digests(sha, GroupsOfParts(a, pa))) == multiset(Digests(sha, GroupsOfParts(b, pb)))
  {
    var m :| IsIsomorphism(m, a, b);
    hide IsIsomorphism, Decomposes, PartDigest, WellFormedGraph, GroupsOfParts, InvariantOn;
    ImagesAreParts(m, a, pa, b, pb);
    MapPermutation(PartDigest(sha, b), Images(m, pa), pb);
    forall i | 0 <= i < |pa|
      ensures Map(PartDigest(sha, a), pa)[i] == Map(PartDigest(sha, b), Images(m, pa))[i]
    {
      PartDigestFollows(sha, m, a, pa, b, pb, i);
    }
    assert Map(PartDigest(sha, a), pa) == Map(PartDigest(sha, b), Images(m, pa));
    DigestsOfParts(sha, a, pa);
    DigestsOfParts(sha, b, pb);
  }
}
