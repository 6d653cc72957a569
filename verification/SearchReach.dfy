/**
 Where an N-degree search goes: it issues exactly the blank nodes that chains of triples reach from its
 start without passing a canonical or an already issued one, and a path spells the identifiers of the
 nodes in the order they are visited.
 */
module SearchReach {
  import opened Sequences
  import opened Text
  import opened Terms
  import opened Isomorphism
  import opened Issuing
  import opened CanonicalForm
  import opened CanonicalDigest
  import opened TieInvariance
  import opened Components
  import opened PairedTies
  import opened RelatedHashes

  // ----- one path -----

  /** The identifiers of the nodes of p, one behind the other, by the issuer as it ends up. */
  function Spelled(canon: seq<string>, order: seq<string>, p: seq<string>): string
    requires forall x :: x in p ==> x in canon || x in order
  {
    if p == [] then ""
    else
      var k := |p| - 1;
      assert p[k] in p;
      Spelled(canon, order, p[..k])
      + if p[k] in canon then "_:c14n" + Decimal(IndexOf(canon, p[k])) else "_:b" + Decimal(IndexOf(order, p[k]))
  }

  /** Later issuing leaves the identifiers given out before. */
  lemma {:induction false} SpelledGrows(canon: seq<string>, order: seq<string>, more: seq<string>, p: seq<string>)
    requires order <= more && forall x :: x in p ==> x in canon || x in order
    ensures forall x :: x in p ==> x in canon || x in more
    ensures Spelled(canon, more, p) == Spelled(canon, order, p)
  {
    forall x | x in p ensures x in canon || x in more {
      if x !in canon { assert more[IndexOf(order, x)] == x; }
    }
    if p != [] {
      var k := |p| - 1;
      assert p[k] in p;
      SpelledGrows(canon, order, more, p[..k]);
      if p[k] !in canon { IndexOfPrefix(order, more, p[k]); }
    }
  }

  ghost predicate Spells(canon: seq<string>, order: seq<string>, p: seq<string>, tr: Trail) {
    && (forall x :: x in p ==> x in canon || x in tr.order)
    && tr.path == Spelled(canon, tr.order, p)
    && tr.order == order + tr.recursion
    && (forall x :: x in tr.recursion <==> x in p && x !in canon && x !in order)
  }

  lemma StepSpells(canon: seq<string>, order: seq<string>, p: seq<string>, tr: Trail, x: string)
    requires Spells(canon, order, p, tr)
    ensures Spells(canon, order, p + [x], VisitStep(canon, tr, x))
  {
    hide Decimal, Spelled;
    var after, q := VisitStep(canon, tr, x), p + [x];
    SpelledGrows(canon, tr.order, after.order, p);
    LabelText(canon, after.order, x);
    assert forall y :: y in q <==> y in p || y == x;
    SpelledStep(canon, after.order, p, x);
  }

  lemma SpelledStep(canon: seq<string>, order: seq<string>, p: seq<string>, x: string)
    requires (forall y :: y in p ==> y in canon || y in order) && (x in canon || x in order)
    ensures forall y :: y in p + [x] ==> y in canon || y in order
    ensures Spelled(canon, order, p + [x]) == Spelled(canon, order, p)
      + if x in canon then "_:c14n" + Decimal(IndexOf(canon, x)) else "_:b" + Decimal(IndexOf(order, x))
  {
    hide Decimal;
    assert (p + [x])[..|p|] == p && (p + [x])[|p|] == x;
  }

  /** A path spells its nodes; the new ones among them are issued in the order they are met. */
  lemma {:induction false} VisitSpells(canon: seq<string>, order: seq<string>, p: seq<string>)
    ensures var tr := Visit(canon, order, p);
      && (forall x :: x in p ==> x in canon || x in tr.order)
      && tr.path == Spelled(canon, tr.order, p)
      && tr.order == order + tr.recursion
      && (forall x :: x in tr.recursion <==> x in p && x !in canon && x !in order)
    decreases |p|
  {
    hide VisitStep, Spelled;
    if p == [] {
      assert Spelled(canon, order, p) == "" by { NothingSpelled(canon, order); }
    } else {
      var k := |p| - 1;
      VisitSpells(canon, order, p[..k]);
      assert p == p[..k] + [p[k]];
      assert Visit(canon, order, p) == VisitStep(canon, Visit(canon, order, p[..k]), p[k]);
      hide Visit;
      StepSpells(canon, order, p[..k], Visit(canon, order, p[..k]), p[k]);
    }
  }

  lemma NothingSpelled(canon: seq<string>, order: seq<string>)
    ensures Spelled(canon, order, []) == ""
  {
  }

  lemma LabelText(canon: seq<string>, order: seq<string>, x: string)
    ensures x in canon ==> "_:" + CanonicalLabel(canon, x) == "_:c14n" + Decimal(IndexOf(canon, x))
    ensures x in order ==> "_:" + TemporaryLabel(order, x) == "_:b" + Decimal(IndexOf(order, x))
  {
    hide Decimal;
    if x in canon { assert "_:" + ("c14n" + Decimal(IndexOf(canon, x))) == "_:c14n" + Decimal(IndexOf(canon, x)); }
    if x in order { assert "_:" + ("b" + Decimal(IndexOf(order, x))) == "_:b" + Decimal(IndexOf(order, x)); }
  }

  // ----- the whole search -----

  /** Every neighbour of x has an identifier. */
  ghost predicate Settles(c: Context, order: seq<string>, x: string) {
    forall y :: Neighbour(c.ts, x, y) ==> y in c.canon || y in order
  }

  /** Every node issued since `from` has all its neighbours identified. */
  ghost predicate Settled(c: Context, from: seq<string>, order: seq<string>) {
    forall x :: x in order && x !in from ==> Settles(c, order, x)
  }

  lemma SettlesGrows(c: Context, order: seq<string>, more: seq<string>, x: string)
    requires order <= more && Settles(c, order, x)
    ensures Settles(c, more, x)
  {
    hide Neighbour;
    forall y | Neighbour(c.ts, x, y) ensures y in c.canon || y in more {
      if y in order { assert more[IndexOf(order, y)] == y; }
    }
  }

  lemma SettledTransitive(c: Context, a: seq<string>, b: seq<string>, d: seq<string>)
    requires b <= d && Settled(c, a, b) && Settled(c, b, d)
    ensures Settled(c, a, d)
  {
    hide Settles;
    forall x | x in d && x !in a ensures Settles(c, d, x) {
      if x in b { SettlesGrows(c, b, d, x); }
    }
  }

  lemma SettleMore(c: Context, from: seq<string>, before: seq<string>, after: seq<string>, rs: seq<string>, k: nat)
    requires 0 < k <= |rs| && before <= after && Settled(c, from, before) && Settled(c, before, after)
    requires forall j :: 0 <= j < k - 1 ==> Settles(c, before, rs[j])
    requires Settles(c, after, rs[k - 1])
    ensures Settled(c, from, after) && forall j :: 0 <= j < k ==> Settles(c, after, rs[j])
  {
    hide Settled, Settles;
    SettledTransitive(c, from, before, after);
    forall j | 0 <= j < k ensures Settles(c, after, rs[j]) {
      if j < k - 1 { SettlesGrows(c, before, after, rs[j]); }
    }
  }

  /** The recursive searches of a path settle its new nodes and whatever they reach. */
  lemma {:induction false} GossipSettles(c: Context, tr: Trail, k: nat)
    requires GoodOrder(c.ts, tr.order) && k <= |tr.recursion| && forall x :: x in tr.recursion ==> x in tr.order
    ensures var o := Gossip(c, tr, k).order;
      tr.order <= o && Settled(c, tr.order, o) && forall j :: 0 <= j < k ==> Settles(c, o, tr.recursion[j])
    decreases Unissued(c.ts, tr.order), 7, k
  {
    hide Settled, Settles, BNodes, OrderIn, Gossip, NDegree, Unissued, IssuedLabel;
    if k == 0 {
      GossipStart(c, tr);
      SettledSelf(c, tr.order);
    } else {
      GossipSettles(c, tr, k - 1);
      GossipStep(c, tr, k - 1);
      var before, after := Gossip(c, tr, k - 1).order, Gossip(c, tr, k).order;
      FewerUnissued(c.ts, tr.order, before);
      SearchSettles(c, tr.recursion[k - 1], before);
      SettleMore(c, tr.order, before, after, tr.recursion, k);
    }
  }

  lemma SettledSelf(c: Context, order: seq<string>)
    ensures Settled(c, order, order)
  {
  }

  lemma PathSettles(c: Context, order: seq<string>, p: seq<string>)
    requires GoodOrder(c.ts, order) && forall x :: x in p ==> x in BNodes(c.ts)
    ensures var o := RunPermutation(c, order, p).order;
      order <= o && Settled(c, order, o) && forall x :: x in p ==> x in c.canon || x in o
    decreases Unissued(c.ts, order), 2
  {
    var tr := Visit(c.canon, order, p);
    RunPermutationIsGossip(c, order, p);
    VisitSpells(c.canon, order, p);
    hide Visit, RunPermutation, Settles, BNodes, OrderIn;
    if tr.recursion == [] {
      GossipStart(c, tr);
      SettledSelf(c, order);
    } else {
      assert Unissued(c.ts, tr.order) < Unissued(c.ts, order);
      GossipSettlesPath(c, order, tr);
    }
    hide Gossip;
    var o := RunPermutation(c, order, p).order;
    forall x | x in p ensures x in c.canon || x in o {
      if x in tr.order { assert o[IndexOf(tr.order, x)] == x; }
    }
  }

  lemma GossipSettlesPath(c: Context, order: seq<string>, tr: Trail)
    requires GoodOrder(c.ts, order) && GoodOrder(c.ts, tr.order) && tr.order == order + tr.recursion
    requires forall x :: x in tr.recursion ==> x in tr.order
    ensures var o := Gossip(c, tr, |tr.recursion|).order; tr.order <= o && Settled(c, order, o)
    decreases Unissued(c.ts, tr.order), 7, |tr.recursion| + 1
  {
    hide Gossip, Settles, BNodes, OrderIn;
    GossipSettles(c, tr, |tr.recursion|);
    var o := Gossip(c, tr, |tr.recursion|).order;
    forall x | x in o && x !in order ensures Settles(c, o, x) {
      if x in tr.order {
        assert x in tr.recursion;
        assert Settles(c, o, tr.recursion[IndexOf(tr.recursion, x)]);
      }
    }
  }

  lemma GroupSettles(c: Context, order: seq<string>, group: seq<string>)
    requires GoodOrder(c.ts, order) && forall x :: x in group ==> x in BNodes(c.ts)
    ensures var o := ResolveGroup(c, order, group).order;
      order <= o && Settled(c, order, o) && forall x :: x in group ==> x in c.canon || x in o
    decreases Unissued(c.ts, order), 4
  {
    var perms := Permutations(group);
    PermutationsInNodes(c.ts, group);
    PermutationsExact(group, group);
    hide RunPermutation, Settled, BNodes, Permutations, OrderIn;
    var j := BestIsLeast(c, order, perms, |perms|);
    assert perms[j] in perms;
    PermutationMembers(group, perms[j]);
    PathSettles(c, order, perms[j]);
  }

  lemma {:induction false} GroupsSettle(c: Context, order: seq<string>, g: Groups, hashes: seq<string>, k: nat)
    requires GoodOrder(c.ts, order) && GoodGroups(c.ts, g) && k <= |hashes| && forall h :: h in hashes ==> h in g
    ensures var o := ResolveGroups(c, order, g, hashes, k).order;
      && order <= o && Settled(c, order, o)
      && forall i, x :: 0 <= i < k && x in g[hashes[i]] ==> x in c.canon || x in o
    decreases Unissued(c.ts, order), 5, k
  {
    hide ResolveGroup, Settled, BNodes, OrderIn;
    if k == 0 {
      SettledSelf(c, order);
    } else {
      GroupsSettle(c, order, g, hashes, k - 1);
      var before := ResolveGroups(c, order, g, hashes, k - 1).order;
      var after := ResolveGroups(c, order, g, hashes, k).order;
      assert hashes[k - 1] in g;
      FewerUnissued(c.ts, order, before);
      GroupSettles(c, before, g[hashes[k - 1]]);
      SettledTransitive(c, order, before, after);
      forall i, x | 0 <= i < k && x in g[hashes[i]] ensures x in c.canon || x in after {
        if i < k - 1 && x in before { assert after[IndexOf(before, x)] == x; }
      }
    }
  }

  lemma FewerUnissued(ts: seq<Triple>, order: seq<string>, more: seq<string>)
    requires GoodOrder(ts, order) && GoodOrder(ts, more) && order <= more
    ensures Unissued(ts, more) <= Unissued(ts, order)
  {
  }

  /** A finished search has identified every neighbour of its node, and of every node it issued on the
      way. */
  lemma {:induction false} SearchSettles(c: Context, id: string, order: seq<string>)
    requires GoodOrder(c.ts, order)
    ensures var o := NDegree(c, id, order).order; order <= o && Settled(c, order, o) && Settles(c, o, id)
    decreases Unissued(c.ts, order), 6, 0
  {
    var g := GroupsOf(c, order, id, QuadsOf(c.ts, id));
    var hashes := Ascending(g.Keys);
    assert forall h :: h in hashes <==> h in Elements(hashes);
    hide ResolveGroups, Settled, BNodes, OrderIn, GroupsOf, QuadsOf, Neighbour;
    GroupsSettle(c, order, g, hashes, |hashes|);
    var o := NDegree(c, id, order).order;
    forall y | Neighbour(c.ts, id, y) ensures y in c.canon || y in o {
      var h := NeighbourGrouped(c, order, id, y);
      assert h in Elements(hashes);
      assert hashes[IndexOf(hashes, h)] == h;
    }
  }

  lemma NeighbourGrouped(c: Context, order: seq<string>, id: string, y: string) returns (h: string)
    requires Neighbour(c.ts, id, y)
    ensures var g := GroupsOf(c, order, id, QuadsOf(c.ts, id)); h in g && y in g[h]
  {
    hide GroupsOf, QuadsOf, EdgeText, Identify;
    var t :| t in c.ts && id in TripleBNodes(t) && y in TripleBNodes(t);
    var subject := t.s == BNode(y);
    EdgeGrouped(c, order, id, t, y, subject);
    h := c.sha(EdgeText(t.p, EndChar(subject)) + Identify(c, order, y));
  }
}
