/**
 The canonical document, read back, and the order in which its labels are given out.

 Line by line the document reads as the input with its blank nodes renamed onto c14n0, c14n1, and so on.
 Blank nodes with a hash of their own come first, in the order of their hashes, and tied classes are
 taken in that order too.
 */
module CanonicalReading {
  import opened Sequences
  import opened Text
  import opened Terms
  import opened NTriplesReader
  import opened Isomorphism
  import opened Issuing
  import opened CanonicalForm
  import opened CanonicalDigest
  import opened CanonicalInvariance
  import opened PairedTies

  /** The triple a line holds; nothing must follow it but the newline. */
  function LineTriple(l: string): Option<Triple> {
    match ReadTriple(l)
    case Fail => None
    case Got(t, rest) => if rest == "\n" then Some(t) else None
  }

  function Known(t: Triple): Option<Triple> {
    Some(t)
  }

  lemma LabelledReads(ts: seq<Triple>, m: map<string, string>)
    requires WellFormedGraph(ts) && Labelling(m, ts)
    ensures Map(LineTriple, Lines(ts, m)) == Map(Known, RenamedAll(m, ts))
  {
    hide NtTriple, ReadTriple, WellFormed, RelabelTriple, NormTriple;
    forall i | 0 <= i < |ts| ensures LineTriple(Lines(ts, m)[i]) == Some(RenamedAll(m, ts)[i]) {
      LabelledIsWellFormed(ts, m, ts[i]);
      NtTripleReads(ts[i], Naming(m));
    }
  }

  /** The digest hashes the sorted lines one after another; read back, they are the input's triples with
      the blank nodes renamed one to one onto the canonical names. */
  lemma DocumentReads(sha: string -> string, ts: seq<Triple>) returns (lines: seq<string>, m: map<string, string>)
    requires WellFormedGraph(ts)
    ensures Digest(sha, ts) == sha(Concat(lines)) && Sorted(lines)
    ensures Injective(m) && m.Keys == BNodes(ts)
    ensures forall b :: b in m ==> IsCanonicalName(m[b], |BNodes(ts)|)
    ensures multiset(Map(LineTriple, lines)) == multiset(Map(Known, RenamedAll(m, ts)))
  {
    hide LineTriple, Renamed, Lines, Decimal, CanonicalLabels, Labelling, BNodes, Sort, Sorted, Injective;
    lines, m := CanonicalLines(sha, ts), CanonicalLabels(sha, ts);
    CanonicalLabelsBijective(sha, ts);
    LabelledReads(ts, m);
    SortSorts(Lines(ts, m));
    MapPermutation(LineTriple, lines, Lines(ts, m));
    LabellingFacts(m, ts);
    forall b | b in m ensures IsCanonicalName(m[b], |BNodes(ts)|) { NameOf(m[b], |BNodes(ts)|); }
  }

  /** c14n0 .. c14n(n-1), with the number in decimal. */
  ghost predicate IsCanonicalName(l: string, n: nat) {
    |l| > 4 && l[..4] == "c14n" && 0 <= Denoted(l[4..]) < n && l == "c14n" + Decimal(Denoted(l[4..]))
  }

  lemma NameOf(l: string, n: nat)
    requires l in CanonicalNames(n)
    ensures IsCanonicalName(l, n)
  {
    var i: nat :| i < n && l == "c14n" + Decimal(i);
    assert l[4..] == Decimal(i);
    DecimalDenotes(i);
  }

  lemma LabellingFacts(m: map<string, string>, ts: seq<Triple>)
    requires Labelling(m, ts)
    ensures Injective(m) && m.Keys == BNodes(ts)
  {
  }

  // ----- the order of the labels -----

  lemma {:induction false} UniquePlace<N>(cs: seq<set<N>>, k: nat, i: nat, j: nat)
    requires i < j < k <= |cs| && |cs[i]| == 1 && |cs[j]| == 1
    requires forall a, b :: 0 <= a < b < |cs| ==> cs[a] !! cs[b]
    ensures TheOnly(cs[i]) in IssueUniques(cs, k) && TheOnly(cs[j]) in IssueUniques(cs, k)
    ensures IndexOf(IssueUniques(cs, k), TheOnly(cs[i])) < IndexOf(IssueUniques(cs, k), TheOnly(cs[j]))
  {
    var x, y := TheOnly(cs[i]), TheOnly(cs[j]);
    if j == k - 1 {
      UniqueAmong(cs, k - 1, i);
      NotYetUnique(cs, k - 1, y);
      IndexOfPrefix(IssueUniques(cs, k - 1), IssueUniques(cs, k), x);
      IndexAppended(IssueUniques(cs, k - 1), x, y);
    } else {
      UniquePlace(cs, k - 1, i, j);
      var before, after := IssueUniques(cs, k - 1), IssueUniques(cs, k);
      assert before <= after;
      IndexOfPrefix(before, after, x);
      IndexOfPrefix(before, after, y);
    }
  }

  lemma IndexAppended<N>(order: seq<N>, x: N, y: N)
    requires x in order && y !in order
    ensures IndexOf(order + [y], x) < IndexOf(order + [y], y) && y in order + [y]
  {
    IndexOfPrefix(order, order + [y], x);
    assert (order + [y])[|order|] == y;
    NotWithin(order, order + [y], y);
  }

  lemma NotWithin<N>(prefix: seq<N>, order: seq<N>, y: N)
    requires prefix <= order && y in order && y !in prefix
    ensures IndexOf(order, y) >= |prefix|
  {
    forall i | 0 <= i < |prefix| ensures order[i] != y { assert prefix[i] in prefix; }
  }

  lemma {:induction false} UniqueAmong<N>(cs: seq<set<N>>, k: nat, i: nat)
    requires i < k <= |cs| && |cs[i]| == 1
    ensures TheOnly(cs[i]) in IssueUniques(cs, k)
  {
    if i < k - 1 {
      UniqueAmong(cs, k - 1, i);
      var before := IssueUniques(cs, k - 1);
      assert before <= IssueUniques(cs, k);
      assert IssueUniques(cs, k)[IndexOf(before, TheOnly(cs[i]))] == TheOnly(cs[i]);
    }
  }

  lemma {:induction false} NotYetUnique<N>(cs: seq<set<N>>, k: nat, y: N)
    requires k <= |cs| && forall a :: 0 <= a < k ==> y !in cs[a]
    ensures y !in IssueUniques(cs, k)
  {
    if k > 0 {
      NotYetUnique(cs, k - 1, y);
      if |cs[k - 1]| == 1 { assert TheOnly(cs[k - 1]) in cs[k - 1]; }
    }
  }

  lemma {:induction false} OnlyUniques<N>(cs: seq<set<N>>, k: nat, y: N)
    requires k <= |cs| && y in IssueUniques(cs, k)
    ensures exists a :: 0 <= a < k && cs[a] == {y}
  {
    if y !in IssueUniques(cs, k - 1) {
      assert cs[k - 1] == {TheOnly(cs[k - 1])};
    } else {
      OnlyUniques(cs, k - 1, y);
    }
  }

  lemma ClassOfUnique(sha: string -> string, ts: seq<Triple>, x: string) returns (i: nat)
    requires UniqueHash(sha, ts, x)
    ensures i < |Classes(sha, ts)| && Classes(sha, ts)[i] == {x} && Ascending(Hashes(sha, ts))[i] == FirstDegree(sha, ts, x)
  {
    hide FirstDegree;
    var hs := Ascending(Hashes(sha, ts));
    assert FirstDegree(sha, ts, x) in Elements(hs);
    i := IndexOf(hs, FirstDegree(sha, ts, x));
    assert Classes(sha, ts)[i] == HashClass(sha, ts, hs[i]) == {x};
  }

  lemma ClassesDisjoint(sha: string -> string, ts: seq<Triple>)
    ensures forall a, b :: 0 <= a < b < |Classes(sha, ts)| ==> Classes(sha, ts)[a] !! Classes(sha, ts)[b]
  {
    hide FirstDegree, BNodes;
    var hs := Ascending(Hashes(sha, ts));
    forall a, b | 0 <= a < b < |Classes(sha, ts)| ensures Classes(sha, ts)[a] !! Classes(sha, ts)[b] {
      assert hs[a] != hs[b];
    }
  }

  lemma AscendingIndex(hs: seq<string>, i: nat, j: nat)
    requires Sorted(hs) && NoDuplicates(hs) && i < |hs| && j < |hs|
    ensures Less(hs[i], hs[j]) <==> i < j
  {
    if i < j { assert AtMost(hs[i], hs[j]) && hs[i] != hs[j]; }
    if j < i { assert AtMost(hs[j], hs[i]) && hs[j] != hs[i]; }
    LessTrichotomy(hs[i], hs[j]);
  }

  lemma UniquesBegin(sha: string -> string, ts: seq<Triple>)
    ensures IssueUniques(Classes(sha, ts), |Classes(sha, ts)|) <= CanonicalOrder(sha, ts)
  {
    hide BNodes, Classes, IssueUniques, OrderIn;
    var cs := Classes(sha, ts);
    ClassesCover(sha, ts);
    ResolverResolves(sha, ts);
    UniquesIssued(BNodes(ts), cs, |cs|);
    TiedClassesListed(Ascending, BNodes(ts), cs, |cs|);
    var groups := TiedClasses(Ascending, cs, |cs|);
    FoldGrows(BNodes(ts), Resolver(sha, ts), IssueUniques(cs, |cs|), groups, |groups|);
  }

  lemma {:induction false} FoldGrows<N(!new)>(nodes: set<N>, resolve: (seq<N>, seq<N>) -> seq<N>, canon: seq<N>, groups: seq<seq<N>>, k: nat)
    requires Resolves(nodes, resolve) && OrderIn(nodes, canon) && k <= |groups| && forall g :: g in groups ==> Elements(g) <= nodes
    ensures OrderIn(nodes, FoldClasses(resolve, canon, groups, k)) && canon <= FoldClasses(resolve, canon, groups, k)
  {
    if k > 0 {
      FoldGrows(nodes, resolve, canon, groups, k - 1);
      assert groups[k - 1] in groups;
    }
  }

  lemma BeforeOrAmong(prefix: seq<string>, order: seq<string>, x: string, y: string)
    requires prefix <= order && x in prefix && y in order && y !in prefix
    ensures x in order && IndexOf(order, x) < IndexOf(order, y)
  {
    IndexOfPrefix(prefix, order, x);
    NotWithin(prefix, order, y);
  }

  /** Nodes with a hash of their own are numbered first, in the order of the hashes. */
  lemma UniquesInHashOrder(sha: string -> string, ts: seq<Triple>, x: string, y: string)
    requires UniqueHash(sha, ts, x) && y in BNodes(ts) && x != y
    requires UniqueHash(sha, ts, y) ==> Less(FirstDegree(sha, ts, x), FirstDegree(sha, ts, y))
    ensures x in CanonicalOrder(sha, ts) && y in CanonicalOrder(sha, ts)
    ensures IndexOf(CanonicalOrder(sha, ts), x) < IndexOf(CanonicalOrder(sha, ts), y)
  {
    var cs, order := Classes(sha, ts), CanonicalOrder(sha, ts);
    var hs := Ascending(Hashes(sha, ts));
    var i := ClassOfUnique(sha, ts, x);
    CanonicalOrderComplete(sha, ts);
    assert y in Elements(order);
    ClassesDisjoint(sha, ts);
    UniquesBegin(sha, ts);
    hide FirstDegree, IssueUniques, CanonicalOrder;
    var first := IssueUniques(cs, |cs|);
    UniqueAmong(cs, |cs|, i);
    assert TheOnly(cs[i]) == x;
    if UniqueHash(sha, ts, y) {
      var j := ClassOfUnique(sha, ts, y);
      assert TheOnly(cs[j]) == y;
      AscendingIndex(hs, i, j);
      UniquePlace(cs, |cs|, i, j);
      IndexOfPrefix(first, order, x);
      IndexOfPrefix(first, order, y);
    } else {
      TiedNotUnique(sha, ts, y);
      BeforeOrAmong(first, order, x, y);
    }
  }

  lemma SingletonIsUnique(sha: string -> string, ts: seq<Triple>, a: nat, y: string)
    requires a < |Classes(sha, ts)| && Classes(sha, ts)[a] == {y}
    ensures UniqueHash(sha, ts, y)
  {
    hide FirstDegree;
    var h := Ascending(Hashes(sha, ts))[a];
    assert y in HashClass(sha, ts, h);
    forall b | b in BNodes(ts) && FirstDegree(sha, ts, b) == FirstDegree(sha, ts, y) ensures b == y {
      assert b in HashClass(sha, ts, h);
    }
  }

  lemma TiedNotUnique(sha: string -> string, ts: seq<Triple>, y: string)
    requires y in BNodes(ts) && !UniqueHash(sha, ts, y)
    ensures y !in IssueUniques(Classes(sha, ts), |Classes(sha, ts)|)
  {
    hide FirstDegree, IssueUniques, Classes, BNodes, UniqueHash;
    var cs := Classes(sha, ts);
    if y in IssueUniques(cs, |cs|) {
      OnlyUniques(cs, |cs|, y);
      var a :| 0 <= a < |cs| && cs[a] == {y};
      SingletonIsUnique(sha, ts, a, y);
    }
  }

  /** Tied classes are taken in the order of their hashes. */
  lemma {:induction false} TiesInHashOrder(sha: string -> string, ts: seq<Triple>, k: nat, i: nat, j: nat, x: string, y: string)
    requires k <= |Classes(sha, ts)| && i < j < |TiedClasses(Ascending, Classes(sha, ts), k)|
    requires x in TiedClasses(Ascending, Classes(sha, ts), k)[i] && y in TiedClasses(Ascending, Classes(sha, ts), k)[j]
    ensures Less(FirstDegree(sha, ts, x), FirstDegree(sha, ts, y))
  {
    hide FirstDegree, Hashes, BNodes, Sorted, NoDuplicates;
    var cs := Classes(sha, ts);
    if j < |TiedClasses(Ascending, cs, k - 1)| {
      TiesInHashOrder(sha, ts, k - 1, i, j, x, y);
    } else {
      var a := TiedClassOf(sha, ts, k - 1, i, x);
      assert y in Elements(Ascending(cs[k - 1]));
      HashesAscend(sha, ts, a, k - 1);
    }
  }

  lemma HashesAscend(sha: string -> string, ts: seq<Triple>, i: nat, j: nat)
    requires i < j < |Ascending(Hashes(sha, ts))|
    ensures Less(Ascending(Hashes(sha, ts))[i], Ascending(Hashes(sha, ts))[j])
  {
    hide Hashes;
    AscendingIndex(Ascending(Hashes(sha, ts)), i, j);
  }

  lemma {:induction false} TiedClassOf(sha: string -> string, ts: seq<Triple>, k: nat, i: nat, x: string) returns (a: nat)
    requires k <= |Classes(sha, ts)| && i < |TiedClasses(Ascending, Classes(sha, ts), k)|
    requires x in TiedClasses(Ascending, Classes(sha, ts), k)[i]
    ensures a < k && FirstDegree(sha, ts, x) == Ascending(Hashes(sha, ts))[a]
  {
    hide FirstDegree, Hashes, BNodes;
    var cs := Classes(sha, ts);
    if i < |TiedClasses(Ascending, cs, k - 1)| {
      a := TiedClassOf(sha, ts, k - 1, i, x);
    } else {
      a := k - 1;
      assert x in Elements(Ascending(cs[a]));
    }
  }
}
