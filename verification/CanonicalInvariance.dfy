/**
 The canonical document as an isomorphism invariant: for every graph whose ties the N-degree search
 decides, equal documents mean isomorphic graphs and isomorphic graphs have equal documents, whatever
 the labels and whatever the order of the triples.
 */
module CanonicalInvariance {
  import opened Sequences
  import opened Text
  import opened Terms
  import opened Isomorphism
  import opened Issuing
  import opened CanonicalForm
  import opened CanonicalDigest
  import opened Canonicalizer
  import opened Invariance
  import opened TieInvariance

  function Texts(rs: seq<Outcome>): (ts: seq<string>)
    ensures |ts| == |rs|
    ensures forall i :: 0 <= i < |rs| ==> ts[i] == rs[i].text
  {
    Map((r: Outcome) => r.text, rs)
  }

  // ----- sorting outcomes by hash -----

  lemma {:induction false} InsertTexts(x: Outcome, xs: seq<Outcome>)
    ensures Texts(InsertOutcome(x, xs)) == Insert(x.text, Texts(xs))
  {
    hide Texts;
    if xs != [] && Less(xs[0].text, x.text) {
      InsertTexts(x, xs[1..]);
      assert Texts(xs)[1..] == Texts(xs[1..]);
      assert Texts(InsertOutcome(x, xs)) == [xs[0].text] + Texts(InsertOutcome(x, xs[1..]));
    } else {
      assert Texts([x] + xs) == [x.text] + Texts(xs);
    }
  }

  lemma {:induction false} SortTexts(rs: seq<Outcome>)
    ensures Texts(SortOutcomes(rs)) == Sort(Texts(rs))
  {
    hide InsertOutcome, Insert, Texts;
    if rs != [] {
      SortTexts(rs[1..]);
      InsertTexts(rs[0], SortOutcomes(rs[1..]));
      assert Texts(rs)[1..] == Texts(rs[1..]);
    }
  }

  /** Each outcome on one side has a counterpart on the other. */
  ghost predicate Matched(m: map<string, string>, ra: seq<Outcome>, rb: seq<Outcome>) {
    forall i :: 0 <= i < |ra| ==> HasCounterpart(m, ra[i], rb)
  }

  ghost predicate HasCounterpart(m: map<string, string>, r: Outcome, rb: seq<Outcome>) {
    exists j :: 0 <= j < |rb| && Follows(m, r, rb[j])
  }

  ghost predicate AllFollow(m: map<string, string>, ra: seq<Outcome>, rb: seq<Outcome>) {
    |ra| == |rb| && forall i :: 0 <= i < |ra| ==> Follows(m, ra[i], rb[i])
  }

  /** With distinct hashes, sorting lines the counterparts up. */
  lemma SortAligns(m: map<string, string>, ra: seq<Outcome>, rb: seq<Outcome>)
    requires |ra| == |rb| && Matched(m, ra, rb) && NoDuplicates(Texts(ra))
    ensures AllFollow(m, SortOutcomes(ra), SortOutcomes(rb))
  {
    SameTexts(m, ra, rb);
    SortTexts(ra);
    SortTexts(rb);
    var sa, sb := SortOutcomes(ra), SortOutcomes(rb);
    SortCanonical(Texts(ra), Texts(rb));
    assert |sa| == |Texts(sa)| && |sb| == |Texts(sb)|;
    forall i | 0 <= i < |sa| ensures Follows(m, sa[i], sb[i]) {
      assert sa[i] in multiset(ra);
      var j :| 0 <= j < |ra| && ra[j] == sa[i];
      var k :| 0 <= k < |rb| && Follows(m, ra[j], rb[k]);
      assert sb[i] in multiset(rb);
      var l :| 0 <= l < |rb| && rb[l] == sb[i];
      assert Texts(rb)[k] == Texts(sa)[i] == Texts(sb)[i] == Texts(rb)[l];
    }
  }

  lemma SameTexts(m: map<string, string>, ra: seq<Outcome>, rb: seq<Outcome>)
    requires |ra| == |rb| && Matched(m, ra, rb) && NoDuplicates(Texts(ra))
    ensures multiset(Texts(ra)) == multiset(Texts(rb)) && NoDuplicates(Texts(rb))
  {
    var ta, tb := Texts(ra), Texts(rb);
    forall x | x in Elements(ta) ensures x in Elements(tb) {
      var i := IndexOf(ta, x);
      var j :| 0 <= j < |rb| && Follows(m, ra[i], rb[j]);
      assert tb[j] == x;
    }
    CoveringIsPermutation(ta, tb);
  }

  lemma {:induction false} CoveringIsPermutation(a: seq<string>, b: seq<string>)
    requires |a| == |b| && NoDuplicates(a) && Elements(a) <= Elements(b)
    ensures multiset(a) == multiset(b) && NoDuplicates(b)
  {
    if a != [] {
      assert a[0] in Elements(b);
      var k := IndexOf(b, a[0]);
      var rest := b[..k] + b[k + 1..];
      forall x | x in Elements(a[1..]) ensures x in Elements(rest) {
        assert x in Elements(a) && x in b && x != a[0];
        var i := IndexOf(b, x);
        assert if i < k then rest[i] == x else rest[i - 1] == x;
      }
      CoveringIsPermutation(a[1..], rest);
      PutBack(b, k);
      assert a == [a[0]] + a[1..];
      forall i, j | 0 <= i < j < |b| ensures b[i] != b[j] {
        Multiplicity(a, b[i]);
        if b[i] == b[j] { TwoOccurrences(b, i, j); }
      }
    }
  }

  // ----- one tied class -----

  lemma {:induction false} IssueAllFollows(m: map<string, string>, oa: seq<string>, ob: seq<string>, ia: seq<string>, ib: seq<string>)
    requires Injective(m) && Carries(m, oa, ob) && Carries(m, ia, ib)
    ensures Carries(m, IssueAll(oa, ia), IssueAll(ob, ib))
    decreases |ia|
  {
    if ia != [] {
      var n := |ia| - 1;
      IssueAllFollows(m, oa, ob, ia[..n], ib[..n]);
      IssueFollows(m, IssueAll(oa, ia[..n]), IssueAll(ob, ib[..n]), ia[n]);
    }
  }

  lemma {:induction false} IssueOutcomesFollow(ca: Context, cb: Context, m: map<string, string>, ra: seq<Outcome>, rb: seq<Outcome>, k: nat)
    requires Injective(m) && Carries(m, ca.canon, cb.canon)
    requires GoodOrder(ca.ts, ca.canon) && GoodOrder(cb.ts, cb.canon)
    requires forall i :: 0 <= i < |ra| ==> GoodOrder(ca.ts, ra[i].order)
    requires forall i :: 0 <= i < |rb| ==> GoodOrder(cb.ts, rb[i].order)
    requires AllFollow(m, ra, rb) && k <= |ra|
    ensures Carries(m, IssueOutcomes(ca.ts, ca.canon, ra, k), IssueOutcomes(cb.ts, cb.canon, rb, k))
  {
    hide OrderIn;
    if k > 0 {
      IssueOutcomesFollow(ca, cb, m, ra, rb, k - 1);
      assert Follows(m, ra[k - 1], rb[k - 1]);
      IssueAllFollows(m, IssueOutcomes(ca.ts, ca.canon, ra, k - 1), IssueOutcomes(cb.ts, cb.canon, rb, k - 1),
                      ra[k - 1].order, rb[k - 1].order);
    }
  }

  /** Which members of a class still need an identifier. */
  function Open(canon: seq<string>, group: seq<string>, k: nat): seq<string>
    requires k <= |group|
  {
    if k == 0 then []
    else if group[k - 1] in canon then Open(canon, group, k - 1)
    else Open(canon, group, k - 1) + [group[k - 1]]
  }

  lemma {:induction false} OpenMembers(canon: seq<string>, group: seq<string>, k: nat)
    requires k <= |group|
    ensures forall x :: x in Open(canon, group, k) <==> x !in canon && x in group[..k]
    ensures NoDuplicates(group) ==> NoDuplicates(Open(canon, group, k))
  {
    if k > 0 {
      OpenMembers(canon, group, k - 1);
      assert group[..k] == group[..k - 1] + [group[k - 1]];
      assert NoDuplicates(group) ==> group[k - 1] !in group[..k - 1];
    }
  }

  lemma {:induction false} ResultsAreSearches(c: Context, group: seq<string>, k: nat)
    requires k <= |group| && Elements(group) <= BNodes(c.ts)
    ensures var open := Open(c.canon, group, k);
            && |Results(c, group, k)| == |open|
            && forall i :: 0 <= i < |open| ==>
                 GoodOrder(c.ts, [open[i]]) && Results(c, group, k)[i] == NDegree(c, open[i], [open[i]])
  {
    hide NDegree, BNodes;
    if k > 0 {
      ResultsAreSearches(c, group, k - 1);
      assert group[k - 1] in Elements(group);
      assert Elements([group[k - 1]]) == {group[k - 1]};
    }
  }

  ghost predicate Counterparts(m: map<string, string>, groupA: seq<string>, groupB: seq<string>) {
    && NoDuplicates(groupA) && NoDuplicates(groupB)
    && Elements(groupA) <= m.Keys && Elements(groupB) == Image(m, Elements(groupA))
  }

  lemma OpenFollows(m: map<string, string>, canA: seq<string>, canB: seq<string>, groupA: seq<string>, groupB: seq<string>)
    requires Injective(m) && Carries(m, canA, canB) && Counterparts(m, groupA, groupB)
    ensures Counterparts(m, Open(canA, groupA, |groupA|), Open(canB, groupB, |groupB|))
    ensures |Open(canA, groupA, |groupA|)| == |Open(canB, groupB, |groupB|)|
  {
    var a, b := Open(canA, groupA, |groupA|), Open(canB, groupB, |groupB|);
    OpenMembers(canA, groupA, |groupA|);
    OpenMembers(canB, groupB, |groupB|);
    assert groupA[..|groupA|] == groupA && groupB[..|groupB|] == groupB;
    forall x | x in m ensures x in canA <==> m[x] in canB {
      IssueFollows(m, canA, canB, x);
    }
    forall x | x in Elements(a) ensures x in m && m[x] in Elements(b) {
      assert x in Elements(groupA) && m[x] in Elements(groupB);
    }
    forall y | y in Elements(b) ensures y in Image(m, Elements(a)) {
      assert y in Elements(groupB);
      var x :| x in Elements(groupA) && m[x] == y;
      assert x in Elements(a);
    }
    ImageCardinality(m, Elements(a));
    CardinalityOfNoDuplicates(a);
    CardinalityOfNoDuplicates(b);
  }

  lemma SearchesFollow(ca: Context, cb: Context, m: map<string, string>, x: string)
    requires Corresponding(ca, cb, m) && GoodOrder(ca.ts, ca.canon) && Decisive(ca) && x in m
    requires GoodOrder(ca.ts, [x]) && GoodOrder(cb.ts, [m[x]])
    ensures Follows(m, NDegree(ca, x, [x]), NDegree(cb, m[x], [m[x]]))
  {
    hide NDegree, Corresponding, Decisive, OrderIn;
    NDegreeFollows(ca, cb, m, x, [x], [m[x]]);
  }

  lemma ResultMatch(ca: Context, cb: Context, m: map<string, string>, groupA: seq<string>, groupB: seq<string>, i: nat) returns (j: nat)
    requires Corresponding(ca, cb, m) && GoodOrder(ca.ts, ca.canon) && Decisive(ca)
    requires Counterparts(m, groupA, groupB)
    requires Elements(groupA) <= BNodes(ca.ts) && Elements(groupB) <= BNodes(cb.ts)
    requires i < |Results(ca, groupA, |groupA|)|
    ensures j < |Results(cb, groupB, |groupB|)|
    ensures Follows(m, Results(ca, groupA, |groupA|)[i], Results(cb, groupB, |groupB|)[j])
  {
    hide NDegree, Results, Decisive, BNodes, RenamedAll, NormAll, Follows, Open, NoDuplicates;
    var a, b := Open(ca.canon, groupA, |groupA|), Open(cb.canon, groupB, |groupB|);
    ResultsAreSearches(ca, groupA, |groupA|);
    ResultsAreSearches(cb, groupB, |groupB|);
    OpenFollows(m, ca.canon, cb.canon, groupA, groupB);
    assert a[i] in Elements(a);
    assert m[a[i]] in Elements(b);
    j := IndexOf(b, m[a[i]]);
    SearchesFollow(ca, cb, m, a[i]);
  }

  lemma ResultsMatch(ca: Context, cb: Context, m: map<string, string>, groupA: seq<string>, groupB: seq<string>)
    requires Corresponding(ca, cb, m) && GoodOrder(ca.ts, ca.canon) && Decisive(ca)
    requires Counterparts(m, groupA, groupB)
    requires Elements(groupA) <= BNodes(ca.ts) && Elements(groupB) <= BNodes(cb.ts)
    ensures |Results(ca, groupA, |groupA|)| == |Results(cb, groupB, |groupB|)|
    ensures Matched(m, Results(ca, groupA, |groupA|), Results(cb, groupB, |groupB|))
  {
    var ra, rb := Results(ca, groupA, |groupA|), Results(cb, groupB, |groupB|);
    ResultsAreSearches(ca, groupA, |groupA|);
    ResultsAreSearches(cb, groupB, |groupB|);
    OpenFollows(m, ca.canon, cb.canon, groupA, groupB);
    hide Results, Follows, Corresponding, Decisive, Counterparts, OrderIn, BNodes, Open;
    forall i | 0 <= i < |ra| ensures HasCounterpart(m, ra[i], rb) {
      var j := ResultMatch(ca, cb, m, groupA, groupB, i);
    }
  }

  lemma ResolveClassFollows(ca: Context, cb: Context, m: map<string, string>, groupA: seq<string>, groupB: seq<string>)
    requires Corresponding(ca, cb, m) && GoodOrder(ca.ts, ca.canon) && GoodOrder(cb.ts, cb.canon) && Decisive(ca)
    requires Counterparts(m, groupA, groupB)
    requires Elements(groupA) <= BNodes(ca.ts) && Elements(groupB) <= BNodes(cb.ts)
    requires NoDuplicates(Texts(Results(ca, groupA, |groupA|)))
    ensures Carries(m, ResolveClass(ca.sha, ca.ts, ca.canon, groupA), ResolveClass(cb.sha, cb.ts, cb.canon, groupB))
  {
    hide Results, Decisive, BNodes, RenamedAll, NormAll, SortOutcomes, IssueOutcomes, NoDuplicates;
    var ra, rb := Results(ca, groupA, |groupA|), Results(cb, groupB, |groupB|);
    assert ca == Context(ca.sha, ca.ts, ca.canon) && cb == Context(cb.sha, cb.ts, cb.canon);
    ResultsMatch(ca, cb, m, groupA, groupB);
    SortAligns(m, ra, rb);
    SortKeepsOutcomes(ca.ts, ra);
    SortKeepsOutcomes(cb.ts, rb);
    var sa, sb := SortOutcomes(ra), SortOutcomes(rb);
    IssueOutcomesFollow(ca, cb, m, sa, sb, |sa|);
  }

  // ----- the whole canonical order -----

  /** The canonical order just before the k-th tied class. */
  ghost function OrderBefore(sha: string -> string, ts: seq<Triple>, k: nat): seq<string>
    requires k <= |Ties(sha, ts)|
  {
    var cs := Classes(sha, ts);
    FoldClasses(Resolver(sha, ts), IssueUniques(cs, |cs|), Ties(sha, ts), k)
  }

  ghost function Ties(sha: string -> string, ts: seq<Triple>): seq<seq<string>> {
    TiedClasses(Ascending, Classes(sha, ts), |Classes(sha, ts)|)
  }

  /** The N-degree search decides every tie of the graph: within each tied class, least paths are
      decisive and final hashes distinct. */
  ghost predicate Decided(sha: string -> string, ts: seq<Triple>) {
    forall k :: 0 <= k < |Ties(sha, ts)| ==> DecidedAt(sha, ts, OrderBefore(sha, ts, k), Ties(sha, ts)[k])
  }

  ghost predicate DecidedAt(sha: string -> string, ts: seq<Triple>, canon: seq<string>, group: seq<string>) {
    && Decisive(Context(sha, ts, canon))
    && (Elements(group) <= BNodes(ts) ==> NoDuplicates(Texts(Results(Context(sha, ts, canon), group, |group|))))
  }

  /** A graph without ties is decided. */
  lemma TieFreeDecided(sha: string -> string, ts: seq<Triple>)
    requires TieFree(sha, ts)
    ensures Decided(sha, ts)
  {
    hide TieFree, Classes, DecidedAt;
    TieFreeClasses(sha, ts, |Classes(sha, ts)|);
  }

  lemma {:induction false} TiesFollow(m: map<string, string>, ca: seq<set<string>>, cb: seq<set<string>>, k: nat)
    requires Injective(m) && |ca| == |cb| && k <= |ca|
    requires forall i :: 0 <= i < |ca| ==> ca[i] <= m.Keys && cb[i] == Image(m, ca[i])
    ensures |TiedClasses(Ascending, ca, k)| == |TiedClasses(Ascending, cb, k)|
    ensures forall j :: 0 <= j < |TiedClasses(Ascending, ca, k)| ==>
      Counterparts(m, TiedClasses(Ascending, ca, k)[j], TiedClasses(Ascending, cb, k)[j])
  {
    if k > 0 {
      TiesFollow(m, ca, cb, k - 1);
      ImageCardinality(m, ca[k - 1]);
    }
  }

  lemma OrderBeforeGood(sha: string -> string, ts: seq<Triple>, k: nat)
    requires k <= |Ties(sha, ts)|
    ensures GoodOrder(ts, OrderBefore(sha, ts, k))
    ensures forall j :: 0 <= j < |Ties(sha, ts)| ==> Elements(Ties(sha, ts)[j]) <= BNodes(ts)
  {
    hide BNodes, Classes, Resolver;
    var cs := Classes(sha, ts);
    ClassesCover(sha, ts);
    ResolverResolves(sha, ts);
    UniquesIssued(BNodes(ts), cs, |cs|);
    TiedClassesListed(Ascending, BNodes(ts), cs, |cs|);
    FoldIssues(BNodes(ts), Resolver(sha, ts), IssueUniques(cs, |cs|), Ties(sha, ts), k);
  }

  lemma OrderStep(sha: string -> string, ts: seq<Triple>, k: nat)
    requires k < |Ties(sha, ts)|
    ensures GoodOrder(ts, OrderBefore(sha, ts, k)) && Elements(Ties(sha, ts)[k]) <= BNodes(ts)
    ensures OrderBefore(sha, ts, k + 1) == ResolveClass(sha, ts, OrderBefore(sha, ts, k), Ties(sha, ts)[k])
  {
    hide BNodes, Classes, ResolveClass, OrderIn;
    OrderBeforeGood(sha, ts, k);
  }

  lemma {:induction false} OrdersFollow(sha: string -> string, a: seq<Triple>, b: seq<Triple>, m: map<string, string>, k: nat)
    requires WellFormedGraph(a) && WellFormedGraph(b) && IsIsomorphism(m, a, b) && Decided(sha, a)
    requires |Ties(sha, a)| == |Ties(sha, b)| && k <= |Ties(sha, a)|
    requires forall j :: 0 <= j < |Ties(sha, a)| ==> Counterparts(m, Ties(sha, a)[j], Ties(sha, b)[j])
    requires Carries(m, OrderBefore(sha, a, 0), OrderBefore(sha, b, 0))
    ensures Carries(m, OrderBefore(sha, a, k), OrderBefore(sha, b, k))
  {
    hide BNodes, RenamedAll, NormAll, Ties, OrderBefore, ResolveClass, Counterparts, WellFormed, OrderIn, NoDuplicates;
    if k > 0 {
      OrdersFollow(sha, a, b, m, k - 1);
      OrderStep(sha, a, k - 1);
      OrderStep(sha, b, k - 1);
      var ca, cb := Context(sha, a, OrderBefore(sha, a, k - 1)), Context(sha, b, OrderBefore(sha, b, k - 1));
      assert DecidedAt(sha, a, ca.canon, Ties(sha, a)[k - 1]);
      ResolveClassFollows(ca, cb, m, Ties(sha, a)[k - 1], Ties(sha, b)[k - 1]);
    }
  }

  /** Relabelling blank nodes and reordering triples leave the canonical lines of a decided graph
      unchanged. */
  lemma DecidedInvariant(sha: string -> string, a: seq<Triple>, b: seq<Triple>)
    requires WellFormedGraph(a) && WellFormedGraph(b)
    requires Decided(sha, a) && Isomorphic(a, b)
    ensures CanonicalLines(sha, a) == CanonicalLines(sha, b)
  {
    hide Decided, BNodes, RenamedAll, NormAll, Classes, CanonicalLines, WellFormed;
    var m :| IsIsomorphism(m, a, b);
    var ca, cb := Classes(sha, a), Classes(sha, b);
    ClassesFollow(sha, a, b, m);
    TiesFollow(m, ca, cb, |ca|);
    UniquesFollow(m, ca, cb, |ca|);
    OrdersFollow(sha, a, b, m, |Ties(sha, a)|);
    CarriedOrdersPrintAlike(sha, a, b, m);
  }

  /** Equal documents characterise isomorphism of decided graphs. */
  lemma DocumentsDecideIsomorphism(sha: string -> string, a: seq<Triple>, b: seq<Triple>)
    requires WellFormedGraph(a) && WellFormedGraph(b) && Decided(sha, a)
    ensures Document(sha, a) == Document(sha, b) <==> Isomorphic(a, b)
  {
    hide Decided, CanonicalLines, Isomorphic;
    if Document(sha, a) == Document(sha, b) { EqualDocumentsMeanIsomorphic(sha, a, b); }
    if Isomorphic(a, b) { DecidedInvariant(sha, a, b); }
  }
}
