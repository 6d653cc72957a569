/**
 The N-degree search commutes with isomorphisms. Two isomorphic graphs may list their triples in
 different orders, so related blank nodes are discovered, and permutations tried, in different
 orders; the outcome is the same as long as the search is decisive: no two permutations of one group
 reach equal paths with different issuers, and no two members of one tied class end with equal hashes.
 */
module TieInvariance {
  import opened Sequences
  import opened Text
  import opened Terms
  import opened Isomorphism
  import opened Issuing
  import opened CanonicalForm
  import opened CanonicalDigest
  import opened Canonicalizer
  import opened Invariance

  /** Two searches over isomorphic graphs, with canonical identifiers issued alike so far. */
  ghost predicate Corresponding(ca: Context, cb: Context, m: map<string, string>) {
    && ca.sha == cb.sha
    && WellFormedGraph(ca.ts) && WellFormedGraph(cb.ts)
    && IsIsomorphism(m, ca.ts, cb.ts)
    && Carries(m, ca.canon, cb.canon)
  }

  ghost predicate Follows(m: map<string, string>, oa: Outcome, ob: Outcome) {
    oa.text == ob.text && Carries(m, oa.order, ob.order)
  }

  function Along(m: map<string, string>, p: seq<string>): (q: seq<string>)
    ensures |q| == |p|
  {
    Map(Naming(m), p)
  }

  lemma CarriedMember(m: map<string, string>, oa: seq<string>, ob: seq<string>, x: string, prefix: string)
    requires Injective(m) && Carries(m, oa, ob) && NoDuplicates(oa) && x in m
    ensures x in oa <==> m[x] in ob
    ensures x in oa ==> IssuedLabel(prefix, oa, x) == IssuedLabel(prefix, ob, m[x])
  {
    IssueFollows(m, oa, ob, x);
    if x in oa {
      var i := IndexOf(oa, x);
      forall i, j | 0 <= i < j < |ob| ensures ob[i] != ob[j] { assert oa[i] != oa[j]; }
      IndexOfUnique(ob, i);
    }
  }

  lemma IdentifyFollows(ca: Context, cb: Context, m: map<string, string>, oa: seq<string>, ob: seq<string>, x: string)
    requires Corresponding(ca, cb, m) && GoodOrder(ca.ts, ca.canon)
    requires GoodOrder(ca.ts, oa) && Carries(m, oa, ob) && x in m
    ensures Identify(ca, oa, x) == Identify(cb, ob, m[x])
  {
    CarriedMember(m, ca.canon, cb.canon, x, "c14n");
    CarriedMember(m, oa, ob, x, "b");
    FirstDegreeInvariant(ca.sha, ca.ts, cb.ts, m, x);
    hide FirstDegree, IssuedLabel;
  }

  // ----- groups, as sets -----

  ghost predicate RelatedBy(c: Context, order: seq<string>, id: string, t: Triple, h: string, x: string) {
    && x != id
    && (t.s == BNode(id) || t.o == BNode(id))
    && ((t.s == BNode(x) && h == c.sha(EdgeText(t.p, 's') + Identify(c, order, x)))
        || (t.o == BNode(x) && h == c.sha(EdgeText(t.p, 'o') + Identify(c, order, x))))
  }

  /** Membership in a group does not depend on where the triple stands. */
  ghost predicate Grouped(g: Groups, h: string, x: string) {
    h in g && x in g[h]
  }

  lemma AddedMember(g: Groups, h: string, b: string, k: string, x: string)
    ensures Grouped(AddRelated(g, h, b), k, x) <==> Grouped(g, k, x) || (k == h && x == b)
  {
  }

  ghost predicate RelatedEnd(c: Context, order: seq<string>, id: string, t: Triple, h: string, x: string) {
    x != id
    && ((t.s == BNode(x) && h == c.sha(EdgeText(t.p, 's') + Identify(c, order, x)))
        || (t.o == BNode(x) && h == c.sha(EdgeText(t.p, 'o') + Identify(c, order, x))))
  }

  lemma AddQuadMember(c: Context, order: seq<string>, id: string, quad: nat, g: Groups, h: string, x: string)
    requires quad < |c.ts|
    ensures Grouped(AddQuad(c, order, id, quad, g), h, x)
       <==> Grouped(g, h, x) || RelatedEnd(c, order, id, c.ts[quad], h, x)
  {
    hide Identify, EdgeText, Grouped, AddRelated;
    var t := c.ts[quad];
    var mid := AddTerm(c, order, id, quad, t.s, 's', g);
    if t.s.BNode? { AddedMember(g, c.sha(RelatedText(c, order, t.s.id, quad, 's')), t.s.id, h, x); }
    if t.o.BNode? { AddedMember(mid, c.sha(RelatedText(c, order, t.o.id, quad, 'o')), t.o.id, h, x); }
  }

  lemma {:induction false} GroupsMember(c: Context, order: seq<string>, id: string, quads: seq<nat>, h: string, x: string)
    requires Bounded(quads, |c.ts|)
    ensures Grouped(GroupsOf(c, order, id, quads), h, x)
       <==> exists i :: 0 <= i < |quads| && RelatedEnd(c, order, id, c.ts[quads[i]], h, x)
  {
    hide RelatedEnd, AddQuad;
    if quads != [] {
      var n := |quads| - 1;
      GroupsMember(c, order, id, quads[..n], h, x);
      AddQuadMember(c, order, id, quads[n], GroupsOf(c, order, id, quads[..n]), h, x);
      assert forall i :: 0 <= i < n ==> quads[..n][i] == quads[i];
    }
  }

  lemma {:induction false} QuadsOfMember(ts: seq<Triple>, b: string, q: nat)
    ensures q in QuadsOf(ts, b) <==> q < |ts| && (ts[q].s == BNode(b) || ts[q].o == BNode(b))
  {
    if ts != [] {
      var n := |ts| - 1;
      QuadsOfMember(ts[..n], b, q);
      var l, r := QuadsOf(ts[..n], b), QuadsOfAt(n, ts[n], b);
      assert q in r <==> q == n && (ts[n].s == BNode(b) || ts[n].o == BNode(b));
      hide QuadsOfAt;
      assert q in l + r <==> q in l || q in r;
    }
  }

  lemma SearchGroupsMember(c: Context, order: seq<string>, id: string, h: string, x: string)
    ensures Grouped(GroupsOf(c, order, id, QuadsOf(c.ts, id)), h, x)
       <==> exists t :: t in c.ts && RelatedBy(c, order, id, t, h, x)
  {
    hide Identify, EdgeText, GroupsOf, QuadsOf;
    var quads := QuadsOf(c.ts, id);
    GroupsMember(c, order, id, quads, h, x);
    if i :| 0 <= i < |quads| && RelatedEnd(c, order, id, c.ts[quads[i]], h, x) {
      QuadsOfMember(c.ts, id, quads[i]);
      assert c.ts[quads[i]] in c.ts && RelatedBy(c, order, id, c.ts[quads[i]], h, x);
    }
    if t :| t in c.ts && RelatedBy(c, order, id, t, h, x) {
      var q: nat :| q < |c.ts| && c.ts[q] == t;
      QuadsOfMember(c.ts, id, q);
      var i :| 0 <= i < |quads| && quads[i] == q;
      assert RelatedEnd(c, order, id, c.ts[quads[i]], h, x);
    }
  }

  lemma RelatedFollows(ca: Context, cb: Context, m: map<string, string>, oa: seq<string>, ob: seq<string>, id: string, t: Triple, u: Triple, h: string, x: string)
    requires Corresponding(ca, cb, m) && GoodOrder(ca.ts, ca.canon)
    requires GoodOrder(ca.ts, oa) && Carries(m, oa, ob) && x in m && id in m
    requires TripleBNodes(t) <= m.Keys && t.p.Iri? && u.p.Iri? && Renamed(m, t) == NormTriple(u)
    ensures RelatedBy(ca, oa, id, t, h, x) <==> RelatedBy(cb, ob, m[id], u, h, m[x])
  {
    IdentifyFollows(ca, cb, m, oa, ob, x);
    hide Identify, EdgeText, IsIsomorphism;
    EndFollows(m, t.s, u.s, x);
    EndFollows(m, t.o, u.o, x);
    EndFollows(m, t.s, u.s, id);
    EndFollows(m, t.o, u.o, id);
    assert t.p == u.p;
  }

  lemma EndFollows(m: map<string, string>, t: Term, u: Term, x: string)
    requires Injective(m) && x in m && TermBNodes(t) <= m.Keys
    requires Norm(Relabel(Naming(m), t)) == Norm(u)
    ensures t == BNode(x) <==> u == BNode(m[x])
  {
  }

  /** Each triple of one list has a counterpart in the other. */
  lemma Forward(m: map<string, string>, a: seq<Triple>, b: seq<Triple>, t: Triple) returns (u: Triple)
    requires IsIsomorphism(m, a, b) && t in a
    ensures u in b && Renamed(m, t) == NormTriple(u)
  {
    var ra, nb := RenamedAll(m, a), NormAll(b);
    var i := IndexOf(a, t);
    assert ra[i] in multiset(nb);
    var j :| 0 <= j < |nb| && nb[j] == ra[i];
    u := b[j];
  }

  lemma Backward(m: map<string, string>, a: seq<Triple>, b: seq<Triple>, u: Triple) returns (t: Triple)
    requires IsIsomorphism(m, a, b) && u in b
    ensures t in a && Renamed(m, t) == NormTriple(u)
  {
    var ra, nb := RenamedAll(m, a), NormAll(b);
    var j := IndexOf(b, u);
    assert nb[j] in multiset(ra);
    var i :| 0 <= i < |ra| && ra[i] == nb[j];
    t := a[i];
  }

  lemma GroupedFollows(ca: Context, cb: Context, m: map<string, string>, oa: seq<string>, ob: seq<string>, id: string, h: string, x: string)
    requires Corresponding(ca, cb, m) && GoodOrder(ca.ts, ca.canon)
    requires GoodOrder(ca.ts, oa) && Carries(m, oa, ob) && x in m && id in m
    ensures Grouped(GroupsOf(ca, oa, id, QuadsOf(ca.ts, id)), h, x)
       <==> Grouped(GroupsOf(cb, ob, m[id], QuadsOf(cb.ts, m[id])), h, m[x])
  {
    SearchGroupsMember(ca, oa, id, h, x);
    SearchGroupsMember(cb, ob, m[id], h, m[x]);
    hide GroupsOf, QuadsOf, RelatedBy, Renamed, RenamedAll, Grouped, NoDuplicates;
    if t :| t in ca.ts && RelatedBy(ca, oa, id, t, h, x) {
      var u := Forward(m, ca.ts, cb.ts, t);
      CounterpartRelated(ca, cb, m, oa, ob, id, t, u, h, x);
    }
    if u :| u in cb.ts && RelatedBy(cb, ob, m[id], u, h, m[x]) {
      var t := Backward(m, ca.ts, cb.ts, u);
      CounterpartRelated(ca, cb, m, oa, ob, id, t, u, h, x);
    }
  }

  lemma CounterpartRelated(ca: Context, cb: Context, m: map<string, string>, oa: seq<string>, ob: seq<string>, id: string, t: Triple, u: Triple, h: string, x: string)
    requires Corresponding(ca, cb, m) && GoodOrder(ca.ts, ca.canon)
    requires GoodOrder(ca.ts, oa) && Carries(m, oa, ob) && x in m && id in m
    requires t in ca.ts && u in cb.ts && Renamed(m, t) == NormTriple(u)
    ensures RelatedBy(ca, oa, id, t, h, x) <==> RelatedBy(cb, ob, m[id], u, h, m[x])
  {
    hide RelatedBy, RenamedAll, NormAll, NoDuplicates;
    BNodesOfMember(ca.ts, t);
    assert WellFormed(t) && WellFormed(u);
    RelatedFollows(ca, cb, m, oa, ob, id, t, u, h, x);
  }

  // ----- permutations and paths -----

  lemma {:induction false} VisitFollows(m: map<string, string>, canA: seq<string>, canB: seq<string>, oa: seq<string>, ob: seq<string>, p: seq<string>)
    requires Injective(m) && Carries(m, canA, canB) && Carries(m, oa, ob)
    requires NoDuplicates(canA) && NoDuplicates(oa)
    requires forall x :: x in p ==> x in m
    ensures var ta, tb := Visit(canA, oa, p), Visit(canB, ob, Along(m, p));
            ta.path == tb.path && Carries(m, ta.order, tb.order) && Carries(m, ta.recursion, tb.recursion)
    decreases |p|
  {
    hide VisitStep;
    var q := Along(m, p);
    if p != [] {
      var n := |p| - 1;
      assert q[..n] == Along(m, p[..n]);
      VisitFollows(m, canA, canB, oa, ob, p[..n]);
      assert q[n] == m[p[n]];
      StepFollows(m, canA, canB, Visit(canA, oa, p[..n]), Visit(canB, ob, q[..n]), p[n]);
    }
  }

  lemma StepFollows(m: map<string, string>, canA: seq<string>, canB: seq<string>, ta: Trail, tb: Trail, x: string)
    requires Injective(m) && Carries(m, canA, canB) && x in m
    requires NoDuplicates(canA) && NoDuplicates(ta.order)
    requires ta.path == tb.path && Carries(m, ta.order, tb.order) && Carries(m, ta.recursion, tb.recursion)
    ensures var sa, sb := VisitStep(canA, ta, x), VisitStep(canB, tb, m[x]);
            sa.path == sb.path && Carries(m, sa.order, sb.order) && Carries(m, sa.recursion, sb.recursion)
  {
    hide IssuedLabel;
    CarriedMember(m, canA, canB, x, "c14n");
    IssueFollows(m, ta.order, tb.order, x);
    CarriedMember(m, Issue(ta.order, x), Issue(tb.order, m[x]), x, "b");
  }

  // ----- the search commutes with the isomorphism -----

  ghost predicate InNodes(c: Context, p: seq<string>) {
    forall x :: x in p ==> x in BNodes(c.ts)
  }

  /** p reaches a least path among all arrangements of the group. */
  ghost predicate Least(c: Context, order: seq<string>, group: seq<string>, p: seq<string>)
    requires GoodOrder(c.ts, order)
  {
    && p in Permutations(group) && InNodes(c, p)
    && forall q :: q in Permutations(group) && InNodes(c, q) ==>
         !Less(RunPermutation(c, order, q).text, RunPermutation(c, order, p).text)
  }

  /** All arrangements that reach the least path leave the same issuer behind. */
  ghost predicate SameChoice(c: Context, order: seq<string>, group: seq<string>) {
    GoodOrder(c.ts, order) ==>
      forall p, q :: Least(c, order, group, p) && Least(c, order, group, q) ==>
        RunPermutation(c, order, p).order == RunPermutation(c, order, q).order
  }

  /** Whenever the search compares permutations of a group, the least path decides the issuer. */
  ghost predicate Decisive(c: Context) {
    forall id, start, order, h ::
      GoodOrder(c.ts, start) && h in GroupsOf(c, start, id, QuadsOf(c.ts, id))
      ==> SameChoice(c, order, GroupsOf(c, start, id, QuadsOf(c.ts, id))[h])
  }

  /** Everything the induction carries along. */
  ghost predicate Ready(ca: Context, cb: Context, m: map<string, string>, oa: seq<string>, ob: seq<string>) {
    && Corresponding(ca, cb, m) && GoodOrder(ca.ts, ca.canon) && Decisive(ca)
    && GoodOrder(ca.ts, oa) && GoodOrder(cb.ts, ob) && Carries(m, oa, ob)
  }

  ghost predicate SameGroup(m: map<string, string>, a: seq<string>, b: seq<string>) {
    (forall x :: x in a ==> x in m) && multiset(b) == multiset(Along(m, a))
  }

  lemma MemberInAlong(m: map<string, string>, a: seq<string>, y: string)
    requires forall x :: x in a ==> x in m
    ensures y in Along(m, a) <==> exists x :: x in a && m[x] == y
  {
    var q := Along(m, a);
    if y in q {
      var i := IndexOf(q, y);
      assert a[i] in a;
    }
    if x :| x in a && m[x] == y {
      assert q[IndexOf(a, x)] == y;
    }
  }

  lemma GroupSame(m: map<string, string>, a: seq<string>, b: seq<string>, nb: set<string>)
    requires Injective(m) && NoDuplicates(a) && NoDuplicates(b)
    requires forall x :: x in a ==> x in m
    requires forall y :: y in b ==> y in m.Values
    requires forall x :: x in m ==> (x in a <==> m[x] in b)
    ensures SameGroup(m, a, b)
  {
    var q := Along(m, a);
    forall i, j | 0 <= i < j < |q| ensures q[i] != q[j] {
      assert a[i] in a && a[j] in a;
    }
    forall y ensures multiset(b)[y] == multiset(q)[y] {
      Multiplicity(b, y);
      Multiplicity(q, y);
      MemberInAlong(m, a, y);
    }
  }

  /** The groups of corresponding searches correspond. */
  lemma GroupsFollow(ca: Context, cb: Context, m: map<string, string>, oa: seq<string>, ob: seq<string>, id: string)
    requires Corresponding(ca, cb, m) && GoodOrder(ca.ts, ca.canon)
    requires GoodOrder(ca.ts, oa) && Carries(m, oa, ob) && id in m
    ensures var ga, gb := GroupsOf(ca, oa, id, QuadsOf(ca.ts, id)), GroupsOf(cb, ob, m[id], QuadsOf(cb.ts, m[id]));
            ga.Keys == gb.Keys && forall h :: h in ga ==> SameGroup(m, ga[h], gb[h])
  {
    hide GroupsOf, QuadsOf, BNodes, RenamedAll, NormAll;
    var ga, gb := GroupsOf(ca, oa, id, QuadsOf(ca.ts, id)), GroupsOf(cb, ob, m[id], QuadsOf(cb.ts, m[id]));
    forall h, x | x in m ensures Grouped(ga, h, x) <==> Grouped(gb, h, m[x]) {
      GroupedFollows(ca, cb, m, oa, ob, id, h, x);
    }
    hide Corresponding, Carries, OrderIn;
    SameKeys(ca.ts, cb.ts, m, ga, gb);
    forall h | h in ga ensures SameGroup(m, ga[h], gb[h]) {
      forall x | x in m ensures x in ga[h] <==> m[x] in gb[h] {
        assert Grouped(ga, h, x) <==> Grouped(gb, h, m[x]);
      }
      GroupSame(m, ga[h], gb[h], m.Values);
    }
  }

  lemma SameKeys(a: seq<Triple>, b: seq<Triple>, m: map<string, string>, ga: Groups, gb: Groups)
    requires GoodGroups(a, ga) && GoodGroups(b, gb) && m.Keys == BNodes(a) && m.Values == BNodes(b)
    requires forall h, x :: x in m ==> (Grouped(ga, h, x) <==> Grouped(gb, h, m[x]))
    ensures ga.Keys == gb.Keys
  {
    hide BNodes, NoDuplicates;
    forall h | h in ga ensures h in gb {
      var x := ga[h][0];
      assert x in ga[h] && Grouped(ga, h, x);
      assert Grouped(gb, h, m[x]);
    }
    forall h | h in gb ensures h in ga {
      var y := gb[h][0];
      assert y in gb[h] && y in m.Values;
      var x :| x in m && m[x] == y;
      assert Grouped(gb, h, m[x]);
      assert Grouped(ga, h, x);
    }
  }

  /** The best of the permutations is a least one. */
  lemma {:induction false} BestIsLeast(c: Context, order: seq<string>, perms: seq<seq<string>>, k: nat) returns (j: nat)
    requires GoodOrder(c.ts, order) && 0 < k <= |perms|
    requires forall p, x :: p in perms && x in p ==> x in BNodes(c.ts)
    ensures j < k && BestOf(c, order, perms, k) == Best(RunPermutation(c, order, perms[j]))
    ensures forall i :: 0 <= i < k ==>
      !Less(RunPermutation(c, order, perms[i]).text, RunPermutation(c, order, perms[j]).text)
    ensures forall i :: 0 <= i < j ==> RunPermutation(c, order, perms[i]).text != RunPermutation(c, order, perms[j]).text
  {
    hide RunPermutation, BNodes, OrderIn;
    var last := RunPermutation(c, order, perms[k - 1]);
    if k == 1 {
      j := 0;
      LessTrichotomy(last.text, last.text);
    } else {
      j := BestIsLeast(c, order, perms, k - 1);
      var best := RunPermutation(c, order, perms[j]);
      LessTrichotomy(last.text, best.text);
      LessTrichotomy(last.text, last.text);
      if Less(last.text, best.text) {
        forall i | 0 <= i < k ensures !Less(RunPermutation(c, order, perms[i]).text, last.text) {
          var t := RunPermutation(c, order, perms[i]).text;
          if Less(t, last.text) { LessTransitive(t, last.text, best.text); }
        }
        assert forall i :: 0 <= i < k - 1 ==> RunPermutation(c, order, perms[i]).text != last.text;
        j := k - 1;
      }
    }
  }

  lemma ResolvedIsLeast(c: Context, order: seq<string>, group: seq<string>) returns (p: seq<string>)
    requires GoodOrder(c.ts, order) && InNodes(c, group)
    ensures Least(c, order, group, p) && ResolveGroup(c, order, group) == RunPermutation(c, order, p)
  {
    hide RunPermutation, BNodes, OrderIn, BestOf, Permutations;
    var perms := Permutations(group);
    PermutationsInNodes(c.ts, group);
    PermutationsExact(group, group);
    var j := BestIsLeast(c, order, perms, |perms|);
    p := perms[j];
    assert p in perms;
  }

  /** An arrangement of one group corresponds to an arrangement of the other, both ways. */
  lemma ArrangementsFollow(m: map<string, string>, groupA: seq<string>, groupB: seq<string>, p: seq<string>)
    requires SameGroup(m, groupA, groupB) && p in Permutations(groupA)
    ensures (forall x :: x in p ==> x in m) && Along(m, p) in Permutations(groupB)
  {
    hide Permutations;
    PermutationsExact(groupA, p);
    PermutationMembers(groupA, p);
    MapPermutation(Naming(m), p, groupA);
    PermutationsExact(groupB, Along(m, p));
  }

  /** The arrangement of groupA that corresponds to q. */
  lemma ArrangementBack(m: map<string, string>, groupA: seq<string>, groupB: seq<string>, q: seq<string>) returns (p: seq<string>)
    requires Injective(m) && SameGroup(m, groupA, groupB) && q in Permutations(groupB)
    ensures p in Permutations(groupA) && Along(m, p) == q
  {
    hide Permutations;
    PermutationsExact(groupB, q);
    p := PullBack(m, groupA, q);
    PermutationsExact(groupA, p);
  }

  lemma AlongWithout(m: map<string, string>, a: seq<string>, i: nat)
    requires (forall x :: x in a ==> x in m) && i < |a|
    ensures |Along(m, a)| == |a|
    ensures Along(m, a[..i] + a[i + 1..]) == Along(m, a)[..i] + Along(m, a)[i + 1..]
  {
    MapWithout(Naming(m), a, i);
  }

  lemma AlongOneMore(m: map<string, string>, a: seq<string>, i: nat, rest: seq<string>)
    requires (forall x :: x in a ==> x in m) && i < |a| && forall x :: x in rest ==> x in m
    ensures |Along(m, a)| == |a|
    ensures Along(m, [a[i]] + rest) == [Along(m, a)[i]] + Along(m, rest)
  {
  }

  lemma {:induction false} PullBack(m: map<string, string>, a: seq<string>, q: seq<string>) returns (p: seq<string>)
    requires (forall x :: x in a ==> x in m) && multiset(q) == multiset(Along(m, a))
    ensures multiset(p) == multiset(a) && (forall x :: x in p ==> x in m) && Along(m, p) == q
    decreases |q|
  {
    AlongLength(m, a);
    hide Along, IndexOf;
    assert |q| == |multiset(q)| == |multiset(Along(m, a))| == |a|;
    if q == [] {
      p := [];
      AlongLength(m, []);
    } else {
      assert q[0] in multiset(Along(m, a));
      var i := IndexOf(Along(m, a), q[0]);
      RemoveOne(q, Along(m, a), i);
      AlongWithout(m, a, i);
      var rest := PullBack(m, a[..i] + a[i + 1..], q[1..]);
      assert m[a[i]] == q[0] by { AlongAt(m, a, i); }
      p := PutInFront(m, a, i, rest, q);
    }
  }

  lemma AlongAt(m: map<string, string>, a: seq<string>, i: nat)
    requires (forall x :: x in a ==> x in m) && i < |a|
    ensures |Along(m, a)| == |a| && Along(m, a)[i] == m[a[i]]
  {
  }

  lemma PutInFront(m: map<string, string>, a: seq<string>, i: nat, rest: seq<string>, q: seq<string>) returns (p: seq<string>)
    requires (forall x :: x in a ==> x in m) && (forall x :: x in rest ==> x in m) && i < |a|
    requires multiset(rest) == multiset(a[..i] + a[i + 1..]) && q != [] && Along(m, rest) == q[1..] && m[a[i]] == q[0]
    ensures multiset(p) == multiset(a) && (forall x :: x in p ==> x in m) && Along(m, p) == q
  {
    AlongOneMore(m, a, i, rest);
    assert Along(m, a)[i] == m[a[i]];
    hide Along;
    PutBack(a, i);
    p := [a[i]] + rest;
  }

  lemma AlongLength(m: map<string, string>, a: seq<string>)
    requires forall x :: x in a ==> x in m
    ensures |Along(m, a)| == |a|
  {
  }

  lemma NodesFollow(ca: Context, cb: Context, m: map<string, string>, p: seq<string>)
    requires Corresponding(ca, cb, m) && InNodes(ca, p)
    ensures (forall x :: x in p ==> x in m) && InNodes(cb, Along(m, p))
  {
    hide BNodes, RenamedAll, NormAll;
    forall y | y in Along(m, p) ensures y in BNodes(cb.ts) {
      MemberInAlong(m, p, y);
      assert forall x :: x in m ==> m[x] in m.Values;
    }
  }

  lemma {:induction false} GossipFollows(ca: Context, cb: Context, m: map<string, string>, ta: Trail, tb: Trail, k: nat)
    requires Ready(ca, cb, m, ta.order, tb.order)
    requires (forall x :: x in ta.recursion ==> x in ta.order) && (forall x :: x in tb.recursion ==> x in tb.order)
    requires ta.path == tb.path && Carries(m, ta.recursion, tb.recursion) && k <= |ta.recursion|
    ensures Follows(m, Gossip(ca, ta, k), Gossip(cb, tb, k))
    decreases Unissued(ca.ts, ta.order), 7, k
  {
    hide Gossip, NDegree, Corresponding, Decisive, OrderIn, IssuedLabel, NoDuplicates;
    if k == 0 {
      GossipStart(ca, ta);
      GossipStart(cb, tb);
    } else {
      GossipFollows(ca, cb, m, ta, tb, k - 1);
      GossipStep(ca, ta, k - 1);
      GossipStep(cb, tb, k - 1);
      var ga, gb := Gossip(ca, ta, k - 1), Gossip(cb, tb, k - 1);
      var x := ta.recursion[k - 1];
      NDegreeFollows(ca, cb, m, x, ga.order, gb.order);
      LabelFollows(ca, cb, m, ga.order, gb.order, x);
    }
  }

  lemma LabelFollows(ca: Context, cb: Context, m: map<string, string>, oa: seq<string>, ob: seq<string>, x: string)
    requires Corresponding(ca, cb, m) && GoodOrder(ca.ts, oa) && Carries(m, oa, ob) && x in m && x in oa
    ensures m[x] in ob && TemporaryLabel(oa, x) == TemporaryLabel(ob, m[x])
  {
    CarriedMember(m, oa, ob, x, "b");
  }

  lemma RunFollows(ca: Context, cb: Context, m: map<string, string>, oa: seq<string>, ob: seq<string>, p: seq<string>)
    requires Ready(ca, cb, m, oa, ob) && InNodes(ca, p) && InNodes(cb, Along(m, p))
    ensures Follows(m, RunPermutation(ca, oa, p), RunPermutation(cb, ob, Along(m, p)))
    decreases Unissued(ca.ts, oa), 2
  {
    hide Gossip, NDegree, Visit, Decisive, RenamedAll, NormAll, BNodes;
    var q := Along(m, p);
    NodesFollow(ca, cb, m, p);
    VisitFollows(m, ca.canon, cb.canon, oa, ob, p);
    RunPermutationIsGossip(ca, oa, p);
    RunPermutationIsGossip(cb, ob, q);
    var ta, tb := Visit(ca.canon, oa, p), Visit(cb.canon, ob, q);
    if |ta.recursion| == 0 {
      GossipStart(ca, ta);
      GossipStart(cb, tb);
    } else {
      GossipFollows(ca, cb, m, ta, tb, |ta.recursion|);
    }
  }

  lemma ResolveGroupFollows(ca: Context, cb: Context, m: map<string, string>, oa: seq<string>, ob: seq<string>, groupA: seq<string>, groupB: seq<string>)
    requires Ready(ca, cb, m, oa, ob) && InNodes(ca, groupA) && InNodes(cb, groupB)
    requires SameGroup(m, groupA, groupB) && SameChoice(ca, oa, groupA)
    ensures Follows(m, ResolveGroup(ca, oa, groupA), ResolveGroup(cb, ob, groupB))
    decreases Unissued(ca.ts, oa), 4
  {
    hide RunPermutation, ResolveGroup, Permutations, BNodes, Decisive, OrderIn, Along, RenamedAll, NormAll, SameGroup;
    var p := ResolvedIsLeast(ca, oa, groupA);
    var q := ResolvedIsLeast(cb, ob, groupB);
    var r := ArrangementBack(m, groupA, groupB, q);
    ArrangementInNodes(ca, groupA, r);
    forall s | s in Permutations(groupA) && InNodes(ca, s)
      ensures Along(m, s) in Permutations(groupB) && InNodes(cb, Along(m, s))
      ensures Follows(m, RunPermutation(ca, oa, s), RunPermutation(cb, ob, Along(m, s)))
    {
      ArrangementsFollow(m, groupA, groupB, s);
      NodesFollow(ca, cb, m, s);
      RunFollows(ca, cb, m, oa, ob, s);
    }
    assert Least(ca, oa, groupA, r);
    assert !Less(RunPermutation(cb, ob, Along(m, p)).text, RunPermutation(cb, ob, q).text);
    LessTrichotomy(RunPermutation(ca, oa, p).text, RunPermutation(ca, oa, r).text);
  }

  lemma ArrangementInNodes(c: Context, group: seq<string>, p: seq<string>)
    requires InNodes(c, group) && p in Permutations(group)
    ensures InNodes(c, p)
  {
    PermutationMembers(group, p);
  }

  lemma {:induction false} ResolveGroupsFollow(ca: Context, cb: Context, m: map<string, string>, oa: seq<string>, ob: seq<string>, id: string, ga: Groups, gb: Groups, hashes: seq<string>, k: nat)
    requires Ready(ca, cb, m, oa, ob) && k <= |hashes|
    requires ga == GroupsOf(ca, oa, id, QuadsOf(ca.ts, id)) && GoodGroups(cb.ts, gb)
    requires ga.Keys == gb.Keys && forall h :: h in ga ==> SameGroup(m, ga[h], gb[h])
    requires forall h :: h in hashes ==> h in ga
    ensures Follows(m, ResolveGroups(ca, oa, ga, hashes, k), ResolveGroups(cb, ob, gb, hashes, k))
    decreases Unissued(ca.ts, oa), 5, k
  {
    hide ResolveGroup, GroupsOf, QuadsOf, BNodes, Corresponding, OrderIn, SameGroup, SameChoice;
    if k > 0 {
      ResolveGroupsFollow(ca, cb, m, oa, ob, id, ga, gb, hashes, k - 1);
      var ra, rb := ResolveGroups(ca, oa, ga, hashes, k - 1), ResolveGroups(cb, ob, gb, hashes, k - 1);
      var h := hashes[k - 1];
      assert h in hashes;
      assert SameChoice(ca, ra.order, ga[h]);
      UnissuedShrinks(ca.ts, oa, ra.order);
      ResolveGroupFollows(ca, cb, m, ra.order, rb.order, ga[h], gb[h]);
    }
  }

  lemma UnissuedShrinks(ts: seq<Triple>, before: seq<string>, after: seq<string>)
    requires GoodOrder(ts, before) && GoodOrder(ts, after) && before <= after
    ensures Unissued(ts, after) <= Unissued(ts, before)
  {
  }

  /** Hash N-Degree Quads gives the same hash on both sides, and issuers that correspond. */
  lemma NDegreeFollows(ca: Context, cb: Context, m: map<string, string>, id: string, oa: seq<string>, ob: seq<string>)
    requires Ready(ca, cb, m, oa, ob) && id in m
    ensures Follows(m, NDegree(ca, id, oa), NDegree(cb, m[id], ob))
    decreases Unissued(ca.ts, oa), 6, 0
  {
    hide GroupsOf, QuadsOf, BNodes, OrderIn, ResolveGroups, Decisive;
    GroupsFollow(ca, cb, m, oa, ob, id);
    var ga := GroupsOf(ca, oa, id, QuadsOf(ca.ts, id));
    var gb := GroupsOf(cb, ob, m[id], QuadsOf(cb.ts, m[id]));
    var hashes := Ascending(ga.Keys);
    assert forall h :: h in hashes ==> h in Elements(hashes);
    ResolveGroupsFollow(ca, cb, m, oa, ob, id, ga, gb, hashes, |hashes|);
  }
}
