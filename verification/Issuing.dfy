/**
 Issuing identifiers to the members of a finite set: first those alone in their hash class, then
 class by class through a resolver. Generic in the type of the members.
 */
module Issuing {
  import opened Sequences

  /** An issuer is determined by its prefix and the order in which it issued. */
  function Issue<N(==)>(order: seq<N>, id: N): (r: seq<N>)
    ensures order <= r && id in r
    ensures Elements(r) == Elements(order) + {id}
    ensures NoDuplicates(order) ==> NoDuplicates(r)
  {
    if id in order then order else order + [id]
  }

  function IssueAll<N(==)>(order: seq<N>, ids: seq<N>): (r: seq<N>)
    ensures order <= r
    ensures Elements(r) == Elements(order) + Elements(ids)
    ensures NoDuplicates(order) ==> NoDuplicates(r)
  {
    if ids == [] then order else Issue(IssueAll(order, ids[..|ids| - 1]), ids[|ids| - 1])
  }

  /** A duplicate-free order drawn from the given set. */
  ghost predicate OrderIn<N>(nodes: set<N>, order: seq<N>) {
    NoDuplicates(order) && Elements(order) <= nodes
  }

  ghost predicate Within<N>(nodes: set<N>, cs: seq<set<N>>) {
    forall i :: 0 <= i < |cs| ==> cs[i] <= nodes
  }

  ghost predicate Covers<N>(nodes: set<N>, cs: seq<set<N>>) {
    forall b :: b in nodes ==> exists i :: 0 <= i < |cs| && b in cs[i]
  }

  ghost function TheOnly<N>(s: set<N>): (x: N)
    requires |s| == 1
    ensures s == {x}
  {
    var x :| x in s;
    assert |s - {x}| == 0;
    x
  }

  /** The order after the first k classes, counting only classes of one member. */
  ghost function IssueUniques<N>(cs: seq<set<N>>, k: nat): seq<N>
    requires k <= |cs|
  {
    if k == 0 then []
    else if |cs[k - 1]| == 1 then Issue(IssueUniques(cs, k - 1), TheOnly(cs[k - 1]))
    else IssueUniques(cs, k - 1)
  }

  lemma {:induction false} UniquesIssued<N>(nodes: set<N>, cs: seq<set<N>>, k: nat)
    requires k <= |cs| && Within(nodes, cs)
    ensures OrderIn(nodes, IssueUniques(cs, k))
    ensures forall i :: 0 <= i < k && |cs[i]| == 1 ==> cs[i] <= Elements(IssueUniques(cs, k))
  {
    if k > 0 {
      UniquesIssued(nodes, cs, k - 1);
      assert cs[k - 1] <= nodes;
    }
  }

  /** The classes still tied among the first k, each listed in its own order. */
  ghost function TiedClasses<N>(listing: set<N> -> seq<N>, cs: seq<set<N>>, k: nat): seq<seq<N>>
    requires k <= |cs|
  {
    if k == 0 then []
    else if |cs[k - 1]| == 1 then TiedClasses(listing, cs, k - 1)
    else TiedClasses(listing, cs, k - 1) + [listing(cs[k - 1])]
  }

  ghost predicate ListsSets<N(!new)>(listing: set<N> -> seq<N>) {
    forall s :: Elements(listing(s)) == s
  }

  lemma {:induction false} TiedClassesListed<N(!new)>(listing: set<N> -> seq<N>, nodes: set<N>, cs: seq<set<N>>, k: nat)
    requires k <= |cs| && Within(nodes, cs) && ListsSets(listing)
    ensures forall g :: g in TiedClasses(listing, cs, k) ==> Elements(g) <= nodes
    ensures forall i :: 0 <= i < k && |cs[i]| != 1 ==> listing(cs[i]) in TiedClasses(listing, cs, k)
  {
    if k > 0 {
      TiedClassesListed(listing, nodes, cs, k - 1);
      assert cs[k - 1] <= nodes;
    }
  }

  ghost function FoldClasses<N>(resolve: (seq<N>, seq<N>) -> seq<N>, canon: seq<N>, groups: seq<seq<N>>, k: nat): seq<N>
    requires k <= |groups|
  {
    if k == 0 then canon
    else resolve(FoldClasses(resolve, canon, groups, k - 1), groups[k - 1])
  }

  /** Resolving a class keeps the identifiers already issued and issues one to each of its members. */
  ghost predicate Resolves<N(!new)>(nodes: set<N>, resolve: (seq<N>, seq<N>) -> seq<N>) {
    forall canon, group {:trigger resolve(canon, group)} :: OrderIn(nodes, canon) && Elements(group) <= nodes ==>
      && OrderIn(nodes, resolve(canon, group))
      && canon <= resolve(canon, group)
      && Elements(group) <= Elements(resolve(canon, group))
  }

  lemma PrefixElements<N>(a: seq<N>, b: seq<N>)
    requires a <= b
    ensures Elements(a) <= Elements(b)
  {
    assert forall x :: x in a ==> x in b[..|a|];
  }

  lemma ResolveStep<N(!new)>(nodes: set<N>, resolve: (seq<N>, seq<N>) -> seq<N>, canon: seq<N>, group: seq<N>)
    requires OrderIn(nodes, canon) && Resolves(nodes, resolve) && Elements(group) <= nodes
    ensures var r := resolve(canon, group);
            && OrderIn(nodes, r) && canon <= r
            && Elements(canon) <= Elements(r) && Elements(group) <= Elements(r)
  {
    PrefixElements(canon, resolve(canon, group));
  }

  lemma {:induction false} FoldIssues<N(!new)>(nodes: set<N>, resolve: (seq<N>, seq<N>) -> seq<N>, canon: seq<N>, groups: seq<seq<N>>, k: nat)
    requires k <= |groups| && OrderIn(nodes, canon) && Resolves(nodes, resolve)
    requires forall i :: 0 <= i < |groups| ==> Elements(groups[i]) <= nodes
    ensures OrderIn(nodes, FoldClasses(resolve, canon, groups, k))
    ensures Elements(canon) <= Elements(FoldClasses(resolve, canon, groups, k))
  {
    if k > 0 {
      FoldIssues(nodes, resolve, canon, groups, k - 1);
      ResolveStep(nodes, resolve, FoldClasses(resolve, canon, groups, k - 1), groups[k - 1]);
    }
  }

  lemma {:induction false} FoldIssuesGroup<N(!new)>(nodes: set<N>, resolve: (seq<N>, seq<N>) -> seq<N>, canon: seq<N>, groups: seq<seq<N>>, k: nat, i: nat)
    requires i < k <= |groups| && OrderIn(nodes, canon) && Resolves(nodes, resolve)
    requires forall i :: 0 <= i < |groups| ==> Elements(groups[i]) <= nodes
    ensures Elements(groups[i]) <= Elements(FoldClasses(resolve, canon, groups, k))
  {
    FoldIssues(nodes, resolve, canon, groups, k - 1);
    ResolveStep(nodes, resolve, FoldClasses(resolve, canon, groups, k - 1), groups[k - 1]);
    if i < k - 1 { FoldIssuesGroup(nodes, resolve, canon, groups, k - 1, i); }
  }

  /** Uniques first, then every tied class: each member is issued exactly once. */
  lemma FoldIsComplete<N(!new)>(listing: set<N> -> seq<N>, nodes: set<N>, resolve: (seq<N>, seq<N>) -> seq<N>, cs: seq<set<N>>)
    requires Within(nodes, cs) && Covers(nodes, cs) && Resolves(nodes, resolve) && ListsSets(listing)
    ensures var groups := TiedClasses(listing, cs, |cs|);
            var order := FoldClasses(resolve, IssueUniques(cs, |cs|), groups, |groups|);
            NoDuplicates(order) && Elements(order) == nodes
  {
    var uniques, groups := IssueUniques(cs, |cs|), TiedClasses(listing, cs, |cs|);
    var order := FoldClasses(resolve, uniques, groups, |groups|);
    UniquesIssued(nodes, cs, |cs|);
    TiedClassesListed(listing, nodes, cs, |cs|);
    FoldIssues(nodes, resolve, uniques, groups, |groups|);
    forall b | b in nodes ensures b in Elements(order) {
      var i :| 0 <= i < |cs| && b in cs[i];
      if |cs[i]| != 1 {
        var k := IndexOf(groups, listing(cs[i]));
        FoldIssuesGroup(nodes, resolve, uniques, groups, |groups|, k);
      }
    }
  }
}
