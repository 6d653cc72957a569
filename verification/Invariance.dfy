/**
 What the canonical form does not depend on: blank-node labels and the order of the triples.

 First-degree hashes never depend on either. Where they tell all blank nodes apart, neither does the
 canonical document; together with EqualDocumentsMeanIsomorphic this makes equality of documents the
 same as isomorphism.
 */
module Invariance {
  import opened Sequences
  import opened Text
  import opened Terms
  import opened Isomorphism
  import opened Issuing
  import opened CanonicalForm
  import opened CanonicalDigest
  import opened Canonicalizer

  lemma TermLine(m: map<string, string>, t: Term, u: Term, n: string)
    requires Injective(m) && n in m && TermBNodes(t) <= m.Keys
    requires Norm(Relabel(Naming(m), t)) == Norm(u)
    ensures NtTerm(t, SelfNaming(n)) == NtTerm(u, SelfNaming(m[n]))
    ensures t == BNode(n) <==> u == BNode(m[n])
  {
  }

  lemma MentionsFollow(m: map<string, string>, t: Triple, u: Triple, n: string)
    requires Injective(m) && n in m && TripleBNodes(t) <= m.Keys && t.p.Iri?
    requires Renamed(m, t) == NormTriple(u)
    ensures LinesMentioning(n, t) == LinesMentioning(m[n], u)
  {
    TermLine(m, t.s, u.s, n);
    TermLine(m, t.p, u.p, n);
    TermLine(m, t.o, u.o, n);
  }

  /** An isomorphism preserves first-degree hashes, in tied graphs too. */
  lemma FirstDegreeInvariant(sha: string -> string, a: seq<Triple>, b: seq<Triple>, m: map<string, string>, n: string)
    requires WellFormedGraph(a) && IsIsomorphism(m, a, b) && n in BNodes(a)
    ensures FirstDegree(sha, a, n) == FirstDegree(sha, b, m[n])
  {
    forall t, u | t in a && u in b && Renamed(m, t) == NormTriple(u)
      ensures LinesMentioning(n, t) == LinesMentioning(m[n], u)
    {
      BNodesOfMember(a, t);
      assert WellFormed(t);
      MentionsFollow(m, t, u, n);
    }
    FlatImagesCorrespond((t: Triple) => Renamed(m, t), NormTriple,
                         (t: Triple) => LinesMentioning(n, t), (t: Triple) => LinesMentioning(m[n], t), a, b);
    SortCanonical(FirstDegreeLines(a, n), FirstDegreeLines(b, m[n]));
  }

  function Image(m: map<string, string>, s: set<string>): set<string> {
    set x | x in s && x in m :: m[x]
  }

  lemma ImageCardinality(m: map<string, string>, s: set<string>)
    requires Injective(m) && s <= m.Keys
    ensures |Image(m, s)| == |s|
    decreases s
  {
    if s != {} {
      var x :| x in s;
      ImageCardinality(m, s - {x});
      assert Image(m, s) == Image(m, s - {x}) + {m[x]};
      assert m[x] !in Image(m, s - {x});
    }
  }

  /** The hash classes of isomorphic graphs correspond, in the same order. */
  lemma ClassesFollow(sha: string -> string, a: seq<Triple>, b: seq<Triple>, m: map<string, string>)
    requires WellFormedGraph(a) && IsIsomorphism(m, a, b)
    ensures |Classes(sha, a)| == |Classes(sha, b)|
    ensures forall i :: 0 <= i < |Classes(sha, a)| ==> Classes(sha, a)[i] <= m.Keys
    ensures forall i :: 0 <= i < |Classes(sha, a)| ==> Classes(sha, b)[i] == Image(m, Classes(sha, a)[i])
  {
    hide FirstDegree, BNodes, RenamedAll, NormAll;
    forall n | n in BNodes(a) ensures m[n] in BNodes(b) && FirstDegree(sha, a, n) == FirstDegree(sha, b, m[n]) {
      FirstDegreeInvariant(sha, a, b, m, n);
      assert m[n] in m.Values;
    }
    forall c | c in BNodes(b) ensures exists n :: n in BNodes(a) && m[n] == c {
      assert c in m.Values;
    }
    assert Hashes(sha, a) == Hashes(sha, b);
    var hs := Ascending(Hashes(sha, a));
    forall i | 0 <= i < |hs| ensures HashClass(sha, b, hs[i]) == Image(m, HashClass(sha, a, hs[i])) {
      var ca, cb := HashClass(sha, a, hs[i]), HashClass(sha, b, hs[i]);
      forall c | c in cb ensures c in Image(m, ca) {
        var n :| n in BNodes(a) && m[n] == c;
        assert n in ca;
      }
    }
  }

  lemma {:induction false} UniquesFollow(m: map<string, string>, ca: seq<set<string>>, cb: seq<set<string>>, k: nat)
    requires Injective(m) && |ca| == |cb| && k <= |ca|
    requires forall i :: 0 <= i < |ca| ==> ca[i] <= m.Keys && cb[i] == Image(m, ca[i])
    ensures Carries(m, IssueUniques(ca, k), IssueUniques(cb, k))
  {
    if k > 0 {
      UniquesFollow(m, ca, cb, k - 1);
      ImageCardinality(m, ca[k - 1]);
      if |ca[k - 1]| == 1 {
        var x := TheOnly(ca[k - 1]);
        assert m[x] in cb[k - 1] && TheOnly(cb[k - 1]) == m[x];
        IssueFollows(m, IssueUniques(ca, k - 1), IssueUniques(cb, k - 1), x);
      }
    }
  }

  lemma IssueFollows(m: map<string, string>, oa: seq<string>, ob: seq<string>, x: string)
    requires Injective(m) && Carries(m, oa, ob) && x in m
    ensures Carries(m, Issue(oa, x), Issue(ob, m[x]))
    ensures x in oa <==> m[x] in ob
  {
    if x in oa {
      var i := IndexOf(oa, x);
      assert ob[i] == m[x];
    }
    if m[x] in ob {
      var i := IndexOf(ob, m[x]);
      assert oa[i] == x;
    }
  }

  /** Without first-degree ties, relabelling blank nodes and reordering triples leave the canonical
      lines and the digest unchanged. */
  lemma TieFreeInvariant(sha: string -> string, a: seq<Triple>, b: seq<Triple>)
    requires WellFormedGraph(a) && WellFormedGraph(b)
    requires TieFree(sha, a) && Isomorphic(a, b)
    ensures CanonicalLines(sha, a) == CanonicalLines(sha, b)
    ensures Digest(sha, a) == Digest(sha, b)
  {
    var m :| IsIsomorphism(m, a, b);
    var ca, cb := Classes(sha, a), Classes(sha, b);
    ClassesFollow(sha, a, b, m);
    TieFreeClasses(sha, a, |ca|);
    UniquesFollow(m, ca, cb, |ca|);
    forall i | 0 <= i < |cb| ensures |cb[i]| == 1 {
      ImageCardinality(m, ca[i]);
    }
    NoneTied(cb, |cb|);
    CarriedOrdersPrintAlike(sha, a, b, m);
  }

  lemma {:induction false} NoneTied(cs: seq<set<string>>, k: nat)
    requires k <= |cs| && forall i :: 0 <= i < |cs| ==> |cs[i]| == 1
    ensures TiedClasses(Ascending, cs, k) == []
  {
    if k > 0 { NoneTied(cs, k - 1); }
  }

  /** Equal documents characterise isomorphism of tie-free graphs. */
  lemma TieFreeDocumentsDecide(sha: string -> string, a: seq<Triple>, b: seq<Triple>)
    requires WellFormedGraph(a) && WellFormedGraph(b) && TieFree(sha, a)
    ensures Document(sha, a) == Document(sha, b) <==> Isomorphic(a, b)
  {
    if Document(sha, a) == Document(sha, b) { EqualDocumentsMeanIsomorphic(sha, a, b); }
    if Isomorphic(a, b) { TieFreeInvariant(sha, a, b); }
  }
}
