/**
 Comparing two lists of digested components as bags (`compare_components`), and what the two leftover
 lists say about the bags of digests.
 */
module ComponentDiff {
  import opened Sequences
  import opened Text
  import opened Terms
  import opened CanonicalForm
  import opened CanonicalDigest

  /** One component: its digest, its rows and their canonical labels. */
  datatype Part = Part(digest: string, triples: seq<Triple>, labels: map<string, string>)

  function HasDigest(d: string): Part -> bool {
    (p: Part) => p.digest == d
  }

  function WithDigest(d: string, ps: seq<Part>): seq<Part> {
    Filter(HasDigest(d), ps)
  }

  function DigestsOf(ps: seq<Part>): seq<string> {
    Map((p: Part) => p.digest, ps)
  }

  lemma {:induction false} DigestCount(ps: seq<Part>, d: string)
    ensures multiset(DigestsOf(ps))[d] == |WithDigest(d, ps)|
  {
    if ps != [] {
      DigestCount(ps[1..], d);
      assert DigestsOf(ps) == [ps[0].digest] + DigestsOf(ps[1..]);
    }
  }

  /** The parts of xs with digest d that find no partner in ys: all but the first few. */
  function Unmatched(d: string, xs: seq<Part>, ys: seq<Part>): seq<Part> {
    var mine := WithDigest(d, xs);
    mine[Least(|mine|, |WithDigest(d, ys)|)..]
  }

  function Least(m: nat, n: nat): (k: nat)
    ensures k <= m && k <= n && (k == m || k == n)
  {
    if m < n then m else n
  }

  function Leftover(xs: seq<Part>, ys: seq<Part>): string -> seq<Part> {
    d => Unmatched(d, xs, ys)
  }

  ghost predicate ByDigest(groups: map<string, seq<Part>>, ps: seq<Part>) {
    && (forall d :: d in groups <==> d in DigestsOf(ps))
    && (forall d :: d in groups ==> groups[d] == WithDigest(d, ps))
  }

  lemma OneMore(ps: seq<Part>, p: Part, d: string)
    ensures WithDigest(d, ps + [p]) == WithDigest(d, ps) + if p.digest == d then [p] else []
    ensures d in DigestsOf(ps + [p]) <==> d in DigestsOf(ps) || d == p.digest
  {
    FilterAppend(HasDigest(d), ps, [p]);
    assert Filter(HasDigest(d), [p]) == (if p.digest == d then [p] else []) + Filter(HasDigest(d), []);
    assert DigestsOf(ps + [p]) == DigestsOf(ps) + [p.digest];
  }

  lemma NoneWithDigest(ps: seq<Part>, d: string)
    ensures d !in DigestsOf(ps) <==> WithDigest(d, ps) == []
  {
    DigestCount(ps, d);
    assert d in multiset(DigestsOf(ps)) <==> d in DigestsOf(ps);
  }

  method GroupByDigest(ps: seq<Part>) returns (groups: map<string, seq<Part>>)
    ensures ByDigest(groups, ps)
  {
    groups := map[];
    for i := 0 to |ps|
      invariant ByDigest(groups, ps[..i])
    {
      var d := ps[i].digest;
      assert ps[..i + 1] == ps[..i] + [ps[i]];
      forall e
        ensures WithDigest(e, ps[..i + 1]) == WithDigest(e, ps[..i]) + if d == e then [ps[i]] else []
        ensures e in DigestsOf(ps[..i + 1]) <==> e in DigestsOf(ps[..i]) || e == d
      {
        OneMore(ps[..i], ps[i], e);
      }
      NoneWithDigest(ps[..i], d);
      hide WithDigest, DigestsOf;
      groups := groups[d := (if d in groups then groups[d] else []) + [ps[i]]];
    }
    assert ps[..|ps|] == ps;
  }

  /** The digests of ps in the order a BTreeMap yields them. */
  ghost function DigestOrder(ps: seq<Part>): seq<string> {
    Ascending(Elements(DigestsOf(ps)))
  }

  /** How many digests, counted with multiplicity, both sides share among the first k of ds. */
  ghost function SharedCount(ds: seq<string>, k: nat, a: seq<Part>, b: seq<Part>): nat
    requires k <= |ds|
  {
    if k == 0 then 0 else SharedCount(ds, k - 1, a, b) + Least(|WithDigest(ds[k - 1], a)|, |WithDigest(ds[k - 1], b)|)
  }

  ghost function Removed(a: seq<Part>, b: seq<Part>): seq<Part> {
    FlatMap(Leftover(a, b), DigestOrder(a))
  }

  ghost function Added(a: seq<Part>, b: seq<Part>): seq<Part> {
    FlatMap(Leftover(b, a), DigestOrder(a))
    + FlatMap(Leftover(b, a), Ascending(Elements(DigestsOf(b)) - Elements(DigestsOf(a))))
  }

  lemma FlatMapStep<K, V>(f: K -> seq<V>, ds: seq<K>, k: nat)
    requires k < |ds|
    ensures FlatMap(f, ds[..k + 1]) == FlatMap(f, ds[..k]) + f(ds[k])
  {
    assert ds[..k + 1] == ds[..k] + [ds[k]];
    FlatMapAppend(f, ds[..k], [ds[k]]);
    assert FlatMap(f, [ds[k]]) == f(ds[k]) + FlatMap(f, []);
  }

  /** b's groups without the digests ds. */
  ghost predicate Remaining(rest: map<string, seq<Part>>, b: seq<Part>, ds: seq<string>) {
    && (forall d :: d in rest <==> d in DigestsOf(b) && d !in ds)
    && (forall d :: d in rest ==> rest[d] == WithDigest(d, b))
  }

  /** Takes d out of the remaining groups: b's components with that digest, possibly none. */
  method TakeGroup(rest: map<string, seq<Part>>, d: string, ghost b: seq<Part>, ghost ds: seq<string>)
    returns (rest': map<string, seq<Part>>, cb: seq<Part>)
    requires Remaining(rest, b, ds) && d !in ds
    ensures Remaining(rest', b, ds + [d]) && cb == WithDigest(d, b)
  {
    NoneWithDigest(b, d);
    cb := if d in rest then rest[d] else [];
    rest' := map e | e in rest && e != d :: rest[e];
  }

  /** The digests ds, each once, with a's components of each. */
  ghost predicate Walks(ds: seq<string>, byA: map<string, seq<Part>>, a: seq<Part>) {
    forall i :: 0 <= i < |ds| ==> ds[i] !in ds[..i] && ds[i] in byA && byA[ds[i]] == WithDigest(ds[i], a)
  }

  lemma WalksInOrder(ds: seq<string>, byA: map<string, seq<Part>>, a: seq<Part>)
    requires ByDigest(byA, a) && ds == Ascending(byA.Keys)
    ensures Walks(ds, byA, a) && ds == DigestOrder(a)
  {
    hide DigestsOf, WithDigest;
    assert byA.Keys == Elements(DigestsOf(a));
    forall i | 0 <= i < |ds| ensures ds[i] !in ds[..i] && ds[i] in byA {
      assert ds[i] in Elements(ds);
    }
  }

  /** The walk over a's digests: keep on either side what has no partner. */
  method MatchGroups(ds: seq<string>, byA: map<string, seq<Part>>, byB: map<string, seq<Part>>, ghost a: seq<Part>, ghost b: seq<Part>)
    returns (removed: seq<Part>, added: seq<Part>, common: nat, rest: map<string, seq<Part>>)
    requires Walks(ds, byA, a) && ByDigest(byB, b)
    ensures removed == FlatMap(Leftover(a, b), ds)
    ensures added == FlatMap(Leftover(b, a), ds)
    ensures common == SharedCount(ds, |ds|, a, b)
    ensures Remaining(rest, b, ds)
  {
    removed, added, common, rest := [], [], 0, byB;
    NothingMatched(byB, a, b);
    hide WithDigest, DigestsOf, Remaining, FlatMap, Leftover;
    for i := 0 to |ds|
      invariant removed == FlatMap(Leftover(a, b), ds[..i])
      invariant added == FlatMap(Leftover(b, a), ds[..i])
      invariant common == SharedCount(ds, i, a, b)
      invariant Remaining(rest, b, ds[..i])
    {
      var cb;
      FlatMapStep(Leftover(a, b), ds, i);
      FlatMapStep(Leftover(b, a), ds, i);
      LeftoverAt(a, b, ds[i]);
      LeftoverAt(b, a, ds[i]);
      assert ds[..i + 1] == ds[..i] + [ds[i]];
      rest, cb := TakeGroup(rest, ds[i], b, ds[..i]);
      var ca := byA[ds[i]];
      var shared := Least(|ca|, |cb|);
      common := common + shared;
      removed := removed + ca[shared..];
      added := added + cb[shared..];
    }
    assert ds[..|ds|] == ds;
  }

  lemma NothingMatched(byB: map<string, seq<Part>>, a: seq<Part>, b: seq<Part>)
    requires ByDigest(byB, b)
    ensures Remaining(byB, b, [])
    ensures FlatMap(Leftover(a, b), []) == [] && FlatMap(Leftover(b, a), []) == []
  {
  }

  lemma LeftoverAt(xs: seq<Part>, ys: seq<Part>, d: string)
    ensures Leftover(xs, ys)(d) == Unmatched(d, xs, ys)
  {
  }

  lemma InDigestOrder(a: seq<Part>, d: string)
    ensures d in DigestOrder(a) <==> d in DigestsOf(a)
  {
    hide DigestsOf, Sorted, NoDuplicates;
    assert d in DigestOrder(a) <==> d in Elements(DigestOrder(a));
  }

  lemma RemainingAt(rest: map<string, seq<Part>>, a: seq<Part>, b: seq<Part>, d: string)
    requires Remaining(rest, b, DigestOrder(a))
    ensures d in rest <==> d in Elements(DigestsOf(b)) && d !in Elements(DigestsOf(a))
    ensures d in rest ==> rest[d] == Unmatched(d, b, a)
  {
    hide DigestsOf, WithDigest, DigestOrder;
    InDigestOrder(a, d);
    NoneWithDigest(a, d);
  }

  lemma RemainingKeys(rest: map<string, seq<Part>>, a: seq<Part>, b: seq<Part>)
    requires Remaining(rest, b, DigestOrder(a))
    ensures rest.Keys == Elements(DigestsOf(b)) - Elements(DigestsOf(a))
    ensures forall d :: d in rest ==> rest[d] == Unmatched(d, b, a)
  {
    hide Elements, Remaining, Unmatched;
    forall d
      ensures d in rest <==> d in Elements(DigestsOf(b)) && d !in Elements(DigestsOf(a))
      ensures d in rest ==> rest[d] == Unmatched(d, b, a)
    {
      RemainingAt(rest, a, b, d);
    }
  }

  /** What only b has. */
  method AddRemaining(rest: map<string, seq<Part>>, soFar: seq<Part>, ghost a: seq<Part>, ghost b: seq<Part>) returns (added: seq<Part>)
    requires Remaining(rest, b, DigestOrder(a))
    ensures added == soFar + FlatMap(Leftover(b, a), Ascending(Elements(DigestsOf(b)) - Elements(DigestsOf(a))))
  {
    RemainingKeys(rest, a, b);
    var es := SortedMembers(rest.Keys);
    RemainingListed(rest, es, a, b);
    added := Collect(rest, es, soFar, Leftover(b, a));
  }

  lemma RemainingListed(rest: map<string, seq<Part>>, es: seq<string>, a: seq<Part>, b: seq<Part>)
    requires Elements(es) == rest.Keys
    requires forall d :: d in rest ==> rest[d] == Unmatched(d, b, a)
    ensures forall i :: 0 <= i < |es| ==> es[i] in rest && rest[es[i]] == Leftover(b, a)(es[i])
  {
    hide Unmatched;
    forall i | 0 <= i < |es| ensures es[i] in rest {
      assert es[i] in Elements(es);
    }
  }

  /** The groups of the keys ks, one after the other. */
  method Collect<K(==), V>(groups: map<K, seq<V>>, ks: seq<K>, soFar: seq<V>, ghost f: K -> seq<V>) returns (all: seq<V>)
    requires forall i :: 0 <= i < |ks| ==> ks[i] in groups && groups[ks[i]] == f(ks[i])
    ensures all == soFar + FlatMap(f, ks)
  {
    all := soFar;
    for i := 0 to |ks|
      invariant all == soFar + FlatMap(f, ks[..i])
    {
      FlatMapStep(f, ks, i);
      all := all + groups[ks[i]];
    }
    assert ks[..|ks|] == ks;
  }

  /** `compare_components`: (removed from a, added in b, how many pair off). */
  method CompareComponents(a: seq<Part>, b: seq<Part>) returns (removed: seq<Part>, added: seq<Part>, common: nat)
    ensures removed == Removed(a, b)
    ensures added == Added(a, b)
    ensures common == SharedCount(DigestOrder(a), |DigestOrder(a)|, a, b)
  {
    var byA := GroupByDigest(a);
    var byB := GroupByDigest(b);
    var rest;
    var ds := SortedMembers(byA.Keys);
    WalksInOrder(ds, byA, a);
    removed, added, common, rest := MatchGroups(ds, byA, byB, a, b);
    added := AddRemaining(rest, added, a, b);
  }

  // ----- what is left over -----

  lemma {:induction false} FilterSuffix<T>(p: T -> bool, xs: seq<T>, k: nat)
    requires k <= |xs| && forall x :: x in xs ==> p(x)
    ensures Filter(p, xs[k..]) == xs[k..]
    decreases |xs| - k
  {
    if k < |xs| {
      FilterSuffix(p, xs, k + 1);
      assert xs[k..][1..] == xs[k + 1..];
    }
  }

  lemma UnmatchedDigest(d: string, e: string, xs: seq<Part>, ys: seq<Part>)
    ensures WithDigest(e, Unmatched(d, xs, ys)) == if d == e then Unmatched(d, xs, ys) else []
  {
    var mine := WithDigest(d, xs);
    if d == e {
      FilterSuffix(HasDigest(d), mine, Least(|mine|, |WithDigest(d, ys)|));
    } else {
      var rest := Unmatched(d, xs, ys);
      forall x | x in rest ensures x.digest == d {
        assert x in mine;
      }
      FilterNone(HasDigest(e), rest);
    }
  }

  lemma {:induction false} LeftoverWithDigest(ds: seq<string>, xs: seq<Part>, ys: seq<Part>, e: string)
    requires NoDuplicates(ds)
    ensures WithDigest(e, FlatMap(Leftover(xs, ys), ds)) == if e in ds then Unmatched(e, xs, ys) else []
  {
    hide Unmatched;
    if ds != [] {
      LeftoverWithDigest(ds[1..], xs, ys, e);
      UnmatchedDigest(ds[0], e, xs, ys);
      FilterAppend(HasDigest(e), Leftover(xs, ys)(ds[0]), FlatMap(Leftover(xs, ys), ds[1..]));
    }
  }

  /** All but the first n. */
  function Later<T>(xs: seq<T>, n: nat): seq<T> {
    if n < |xs| then xs[n..] else []
  }

  lemma UnmatchedIsLater(d: string, xs: seq<Part>, ys: seq<Part>)
    ensures Unmatched(d, xs, ys) == Later(WithDigest(d, xs), |WithDigest(d, ys)|)
  {
  }

  lemma {:induction false} InOrder(f: string -> seq<Part>, ds: seq<string>)
    requires Sorted(ds) && forall d, p :: d in ds && p in f(d) ==> p.digest == d
    ensures Sorted(DigestsOf(FlatMap(f, ds)))
    ensures forall p :: p in FlatMap(f, ds) ==> p.digest in ds
  {
    if ds != [] {
      TailSorted(ds);
      assert forall d :: d in ds[1..] ==> d in ds;
      InOrder(f, ds[1..]);
      var head, rest := f(ds[0]), FlatMap(f, ds[1..]);
      assert ds[0] in ds;
      hide Sorted, AtMost;
      forall p | p in rest ensures AtMost(ds[0], p.digest) {
        FirstIsLeast(ds, p.digest);
      }
      HeadThenRest(head, rest, ds[0]);
    }
  }

  lemma HeadThenRest(head: seq<Part>, rest: seq<Part>, d: string)
    requires (forall p :: p in head ==> p.digest == d) && (forall p :: p in rest ==> AtMost(d, p.digest))
    requires Sorted(DigestsOf(rest))
    ensures Sorted(DigestsOf(head + rest))
  {
    hide Less;
    var all := DigestsOf(head + rest);
    forall i, j | 0 <= i < j < |all| ensures AtMost(all[i], all[j]) {
      if i < |head| {
        assert (head + rest)[i] in head;
        if j < |head| { assert (head + rest)[j] in head; } else { assert (head + rest)[j] in rest; }
      } else {
        assert all[i] == DigestsOf(rest)[i - |head|] && all[j] == DigestsOf(rest)[j - |head|];
      }
    }
  }

  lemma LeftoverHasDigest(xs: seq<Part>, ys: seq<Part>, d: string, p: Part)
    requires p in Leftover(xs, ys)(d)
    ensures p.digest == d
  {
    assert p in WithDigest(d, xs);
    assert HasDigest(d)(p);
  }

  /** What is removed comes in ascending order of the digests; what is added in two ascending runs, first
      the digests a has too. */
  lemma ReportedInOrder(a: seq<Part>, b: seq<Part>) returns (k: nat)
    ensures Sorted(DigestsOf(Removed(a, b)))
    ensures k <= |Added(a, b)| && Sorted(DigestsOf(Added(a, b)[..k])) && Sorted(DigestsOf(Added(a, b)[k..]))
    ensures forall p :: p in Added(a, b)[..k] ==> p.digest in DigestsOf(a)
    ensures forall p :: p in Added(a, b)[k..] ==> p.digest !in DigestsOf(a)
  {
    var ds, es := DigestOrder(a), Ascending(Elements(DigestsOf(b)) - Elements(DigestsOf(a)));
    forall d, p | d in ds && p in Leftover(a, b)(d) ensures p.digest == d { LeftoverHasDigest(a, b, d, p); }
    forall d, p | p in Leftover(b, a)(d) ensures p.digest == d { LeftoverHasDigest(b, a, d, p); }
    InOrder(Leftover(a, b), ds);
    InOrder(Leftover(b, a), ds);
    InOrder(Leftover(b, a), es);
    forall d ensures d in ds ==> d in DigestsOf(a) { InDigestOrder(a, d); }
    forall d | d in es ensures d !in DigestsOf(a) { assert d in Elements(es); }
    hide Sorted, DigestsOf, Leftover;
    var first, second := FlatMap(Leftover(b, a), ds), FlatMap(Leftover(b, a), es);
    k := |first|;
    assert Added(a, b) == first + second;
    assert (first + second)[..|first|] == first && (first + second)[|first|..] == second;
  }

  /** Of each digest, what is left of xs is exactly the surplus over ys, and it is the later ones. */
  lemma RemovedIsSurplus(a: seq<Part>, b: seq<Part>, d: string)
    ensures WithDigest(d, Removed(a, b)) == Unmatched(d, a, b) == Later(WithDigest(d, a), |WithDigest(d, b)|)
  {
    hide WithDigest, DigestsOf;
    LeftoverWithDigest(DigestOrder(a), a, b, d);
    NoneWithDigest(a, d);
    assert d in DigestOrder(a) <==> d in Elements(DigestOrder(a));
  }

  lemma AddedIsSurplus(a: seq<Part>, b: seq<Part>, d: string)
    ensures WithDigest(d, Added(a, b)) == Unmatched(d, b, a) == Later(WithDigest(d, b), |WithDigest(d, a)|)
  {
    var es := Ascending(Elements(DigestsOf(b)) - Elements(DigestsOf(a)));
    LeftoverWithDigest(DigestOrder(a), b, a, d);
    LeftoverWithDigest(es, b, a, d);
    FilterAppend(HasDigest(d), FlatMap(Leftover(b, a), DigestOrder(a)), FlatMap(Leftover(b, a), es));
    hide DigestsOf;
    NoneWithDigest(b, d);
    assert d in DigestOrder(a) <==> d in Elements(DigestOrder(a));
    assert d in es <==> d in Elements(es);
  }

  /** The leftovers are the two bag differences of the digests. */
  lemma LeftoversAreBagDifferences(a: seq<Part>, b: seq<Part>)
    ensures multiset(DigestsOf(Removed(a, b))) == multiset(DigestsOf(a)) - multiset(DigestsOf(b))
    ensures multiset(DigestsOf(Added(a, b))) == multiset(DigestsOf(b)) - multiset(DigestsOf(a))
  {
    forall d
      ensures multiset(DigestsOf(Removed(a, b)))[d] == (multiset(DigestsOf(a)) - multiset(DigestsOf(b)))[d]
      ensures multiset(DigestsOf(Added(a, b)))[d] == (multiset(DigestsOf(b)) - multiset(DigestsOf(a)))[d]
    {
      RemovedIsSurplus(a, b, d);
      AddedIsSurplus(a, b, d);
      DigestCount(a, d);
      DigestCount(b, d);
      DigestCount(Removed(a, b), d);
      DigestCount(Added(a, b), d);
    }
  }

  /** Nothing is left on either side exactly when the bags of digests are equal. */
  lemma NothingLeftMeansEqualBags(a: seq<Part>, b: seq<Part>)
    ensures Removed(a, b) == [] && Added(a, b) == [] <==> multiset(DigestsOf(a)) == multiset(DigestsOf(b))
  {
    var ra, rb := Removed(a, b), Added(a, b);
    var ma, mb := multiset(DigestsOf(a)), multiset(DigestsOf(b));
    LeftoversAreBagDifferences(a, b);
    assert |multiset(DigestsOf(ra))| == |ra| && |multiset(DigestsOf(rb))| == |rb|;
    if ra == [] && rb == [] {
      forall d ensures ma[d] == mb[d] {
        assert (ma - mb)[d] == 0 && (mb - ma)[d] == 0;
      }
    }
  }

  lemma UnmatchedLength(d: string, xs: seq<Part>, ys: seq<Part>)
    ensures |Unmatched(d, xs, ys)| == |WithDigest(d, xs)| - Least(|WithDigest(d, xs)|, |WithDigest(d, ys)|)
  {
  }

  lemma {:induction false} SharedPlusLeft(ds: seq<string>, k: nat, a: seq<Part>, b: seq<Part>)
    requires k <= |ds|
    ensures SharedCount(ds, k, a, b) + |FlatMap(Leftover(a, b), ds[..k])| == |FlatMap(Leftover(a, []), ds[..k])|
  {
    if k > 0 {
      LeftoverAt(a, b, ds[k - 1]);
      LeftoverAt(a, [], ds[k - 1]);
      UnmatchedLength(ds[k - 1], a, b);
      UnmatchedLength(ds[k - 1], a, []);
      assert WithDigest(ds[k - 1], []) == [];
      hide Leftover, Unmatched, WithDigest, FlatMap;
      SharedPlusLeft(ds, k - 1, a, b);
      FlatMapStep(Leftover(a, b), ds, k - 1);
      FlatMapStep(Leftover(a, []), ds, k - 1);
    }
  }

  /** Conservation: every component of either graph is counted as common or reported once. */
  lemma EveryComponentAccountedFor(a: seq<Part>, b: seq<Part>)
    ensures SharedCount(DigestOrder(a), |DigestOrder(a)|, a, b) + |Removed(a, b)| == |a|
    ensures SharedCount(DigestOrder(a), |DigestOrder(a)|, a, b) + |Added(a, b)| == |b|
  {
    hide DigestsOf, Unmatched;
    var ds := DigestOrder(a);
    SharedPlusLeft(ds, |ds|, a, b);
    assert ds[..|ds|] == ds;
    LeftoversAreBagDifferences(a, []);
    LeftoversAreBagDifferences(a, b);
    DigestsCounted([]);
    DigestsCounted(a);
    DigestsCounted(b);
    DigestsCounted(Removed(a, []));
    DigestsCounted(Removed(a, b));
    DigestsCounted(Added(a, b));
    var ma, mb := multiset(DigestsOf(a)), multiset(DigestsOf(b));
    assert ma - multiset(DigestsOf([])) == ma;
    assert |ma| == |ma * mb| + |ma - mb| && |mb| == |mb * ma| + |mb - ma|;
    assert ma * mb == mb * ma;
  }

  lemma DigestsCounted(ps: seq<Part>)
    ensures |multiset(DigestsOf(ps))| == |ps|
  {
  }
}
