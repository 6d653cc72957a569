/**
 The canonicalization code: identifier issuers, the budgeted and pruned N-degree search, and
 `canonicalize_labeled`, proved to compute the functions of CanonicalForm and CanonicalDigest.
 */
module Canonicalizer {
  import opened Sequences
  import opened Text
  import opened Terms
  import opened Isomorphism
  import opened Issuing
  import opened CanonicalForm
  import opened CanonicalDigest

  const MAX_NDEGREE_CALLS: nat := 10000
  const MAX_PERMUTATION_GROUP: nat := 7
  const MAX_RECURSION_DEPTH: nat := 32

  /** Which budget a refused canonicalization tripped. */
  datatype Budget = Depth | Calls | GroupSize

  datatype Result<T> = Ok(value: T) | Refused(budget: Budget)

  /** A stable prefix, a counter, the labels handed out, and the order in which they were. */
  class Issuer {
    const prefix: string
    var counter: nat
    var issued: map<string, string>
    var order: seq<string>

    ghost predicate Valid()
      reads this
    {
      && NoDuplicates(order)
      && counter == |order|
      && issued.Keys == Elements(order)
      && forall id :: id in issued ==> id in order && issued[id] == IssuedLabel(prefix, order, id)
    }

    constructor (prefix: string)
      ensures Valid() && this.prefix == prefix && order == []
    {
      this.prefix := prefix;
      counter := 0;
      issued := map[];
      order := [];
    }

    constructor Copy(from: Issuer)
      requires from.Valid()
      ensures Valid() && prefix == from.prefix && order == from.order
    {
      prefix := from.prefix;
      counter := from.counter;
      issued := from.issued;
      order := from.order;
    }

    /** The label of id, issuing the next one the first time id is seen. */
    method Issue(id: string) returns (v: string)
      requires Valid()
      modifies this
      ensures Valid()
      ensures order == Issuing.Issue(old(order), id)
      ensures v == IssuedLabel(prefix, order, id)
    {
      assert id in issued <==> id in Elements(order);
      if id in issued {
        return issued[id];
      }
      v := prefix + Decimal(counter);
      counter := counter + 1;
      issued := issued[id := v];
      order := order + [id];
      forall x | x in issued
        ensures x in order && issued[x] == IssuedLabel(prefix, order, x)
      {
        if x == id {
          IndexOfUnique(order, |order| - 1);
        } else {
          assert x in Elements(old(order));
          IndexOfPrefix(old(order), order, x);
        }
      }
    }

    predicate HasIssued(id: string)
      requires Valid()
      reads this
      ensures HasIssued(id) <==> id in order
    {
      assert id in order <==> id in Elements(order);
      id in issued
    }

    function LabelOf(id: string): (v: string)
      requires Valid() && HasIssued(id)
      reads this
      ensures v == IssuedLabel(prefix, order, id)
    {
      issued[id]
    }
  }

  /** `permutations`: pick each item first, then arrange the rest. */
  method Permute(items: seq<string>) returns (out: seq<seq<string>>)
    ensures out == Permutations(items)
    decreases |items|
  {
    if |items| <= 1 {
      return [items];
    }
    out := [];
    for i := 0 to |items|
      invariant out == PermutationsFirst(items, i)
    {
      var rest := items[..i] + items[i + 1..];
      var ps := Permute(rest);
      var k := 0;
      ghost var before := out;
      while k < |ps|
        invariant k <= |ps|
        invariant out == before + Prefixed(items[i], ps)[..k]
      {
        out := out + [[items[i]] + ps[k]];
        k := k + 1;
      }
      assert Prefixed(items[i], ps)[..|ps|] == Prefixed(items[i], ps);
    }
  }

  function PushIndex(index: map<string, seq<nat>>, t: Term, i: nat): map<string, seq<nat>> {
    if t.BNode? then index[t.id := (if t.id in index then index[t.id] else []) + [i]] else index
  }

  ghost predicate Indexes(index: map<string, seq<nat>>, ts: seq<Triple>) {
    && index.Keys == BNodes(ts)
    && forall b :: b in index ==> index[b] == QuadsOf(ts, b)
  }

  lemma {:induction false} NotMentioned(ts: seq<Triple>, b: string)
    requires b !in BNodes(ts)
    ensures QuadsOf(ts, b) == []
  {
    if ts != [] {
      var n := |ts| - 1;
      BNodesOfMember(ts, ts[n]);
      assert b !in BNodes(ts[..n]);
      assert b !in TripleBNodes(ts[n]);
      NotMentioned(ts[..n], b);
    }
  }

  lemma PushBoth(index: map<string, seq<nat>>, t: Triple, i: nat, b: string)
    ensures var r := PushIndex(PushIndex(index, t.s, i), t.o, i);
            && (b in r <==> b in index || b in TripleBNodes(t))
            && (b in r ==> r[b] == (if b in index then index[b] else []) + QuadsOfAt(i, t, b))
  {
  }

  lemma IndexStep(index: map<string, seq<nat>>, ts: seq<Triple>, t: Triple)
    requires Indexes(index, ts)
    ensures Indexes(PushIndex(PushIndex(index, t.s, |ts|), t.o, |ts|), ts + [t])
  {
    hide PushIndex, BNodes, TripleBNodes, QuadsOfAt;
    var r := PushIndex(PushIndex(index, t.s, |ts|), t.o, |ts|);
    BNodesStep(ts, t);
    assert (ts + [t])[..|ts|] == ts;
    forall b ensures b in r <==> b in BNodes(ts + [t]) {
      PushBoth(index, t, |ts|, b);
    }
    forall b | b in r ensures r[b] == QuadsOf(ts + [t], b) {
      PushBoth(index, t, |ts|, b);
      if b !in index { NotMentioned(ts, b); }
    }
  }

  lemma BNodesStep(ts: seq<Triple>, t: Triple)
    ensures BNodes(ts + [t]) == BNodes(ts) + TripleBNodes(t)
  {
    hide TripleBNodes;
    assert forall u :: u in ts + [t] <==> u in ts || u == t;
  }

  /** The index of triples by blank node: a triple whose two ends are one blank node counts twice. */
  method IndexQuads(triples: seq<Triple>) returns (index: map<string, seq<nat>>)
    ensures Indexes(index, triples)
  {
    index := map[];
    for i := 0 to |triples|
      invariant Indexes(index, triples[..i])
    {
      IndexStep(index, triples[..i], triples[i]);
      assert triples[..i + 1] == triples[..i] + [triples[i]];
      index := PushIndex(index, triples[i].s, i);
      index := PushIndex(index, triples[i].o, i);
    }
    assert triples[..|triples|] == triples;
  }

  /** The first-degree lines of n read through the index. */
  function QuadLines(ts: seq<Triple>, quads: seq<nat>, n: string): seq<string>
    requires Bounded(quads, |ts|)
  {
    if quads == [] then []
    else
      var k := |quads| - 1;
      QuadLines(ts, quads[..k], n) + [NtTriple(ts[quads[k]], SelfNaming(n))]
  }

  lemma {:induction false} QuadLinesAppend(ts: seq<Triple>, xs: seq<nat>, ys: seq<nat>, n: string)
    requires Bounded(xs, |ts|) && Bounded(ys, |ts|)
    ensures QuadLines(ts, xs + ys, n) == QuadLines(ts, xs, n) + QuadLines(ts, ys, n)
  {
    hide NtTriple;
    if ys == [] {
      assert xs + ys == xs;
    } else {
      var k := |ys| - 1;
      QuadLinesAppend(ts, xs, ys[..k], n);
      assert (xs + ys)[..|xs + ys| - 1] == xs + ys[..k];
    }
  }

  lemma FirstDegreeLinesStep(ts: seq<Triple>, n: string)
    requires ts != []
    ensures var k := |ts| - 1; FirstDegreeLines(ts, n) == FirstDegreeLines(ts[..k], n) + LinesMentioning(n, ts[k])
  {
    hide LinesMentioning;
    var k := |ts| - 1;
    var g := (t: Triple) => LinesMentioning(n, t);
    assert ts == ts[..k] + [ts[k]];
    FlatMapAppend(g, ts[..k], [ts[k]]);
    assert FlatMap(g, [ts[k]]) == g(ts[k]) + FlatMap(g, []);
  }

  lemma {:induction false} IndexedLines(ts: seq<Triple>, n: string, whole: seq<Triple>)
    requires ts <= whole
    ensures QuadLines(whole, QuadsOf(ts, n), n) == FirstDegreeLines(ts, n)
  {
    if ts != [] {
      hide LinesMentioning, QuadLines, QuadsOfAt, FirstDegreeLines, NtTriple;
      var k := |ts| - 1;
      IndexedLines(ts[..k], n, whole);
      FirstDegreeLinesStep(ts, n);
      assert whole[k] == ts[k];
      QuadLinesAppend(whole, QuadsOf(ts[..k], n), QuadsOfAt(k, ts[k], n), n);
      MentionLines(whole, k, n);
    }
  }

  lemma MentionLines(whole: seq<Triple>, k: nat, n: string)
    requires k < |whole|
    ensures QuadLines(whole, QuadsOfAt(k, whole[k], n), n) == LinesMentioning(n, whole[k])
  {
    var l := NtTriple(whole[k], SelfNaming(n));
    assert [k][..0] == [] && [k, k][..1] == [k];
    assert QuadLines(whole, [], n) == [];
    assert QuadLines(whole, [k], n) == [l];
    assert QuadLines(whole, [k, k], n) == [l, l];
  }

  class CanonState {
    const sha: string -> string
    const triples: seq<Triple>
    const bnodeQuads: map<string, seq<nat>>
    var ndegreeCalls: nat

    ghost predicate Valid() {
      Indexes(bnodeQuads, triples)
    }

    constructor (sha: string -> string, triples: seq<Triple>)
      ensures Valid() && this.sha == sha && this.triples == triples && ndegreeCalls == 0
    {
      var index := IndexQuads(triples);
      this.sha := sha;
      this.triples := triples;
      this.bnodeQuads := index;
      this.ndegreeCalls := 0;
    }

    /** What an issuer that hands out the canonical identifiers fixes. */
    ghost function Fixed(canonical: Issuer): Context
      reads canonical
    {
      Context(sha, triples, canonical.order)
    }

    ghost predicate Usable(issuer: Issuer, prefix: string)
      reads issuer
    {
      issuer.Valid() && issuer.prefix == prefix && GoodOrder(triples, issuer.order)
    }

    method HashFirstDegree(n: string) returns (h: string)
      requires Valid() && n in BNodes(triples)
      ensures h == FirstDegree(sha, triples, n)
    {
      hide NtTriple, FirstDegreeLines, QuadsOf;
      var quads := bnodeQuads[n];
      var lines: seq<string> := [];
      IndexedLines(triples, n, triples);
      for k := 0 to |quads|
        invariant lines == QuadLines(triples, quads[..k], n)
      {
        assert quads[..k + 1][..k] == quads[..k];
        lines := lines + [NtTriple(triples[quads[k]], SelfNaming(n))];
      }
      assert quads[..|quads|] == quads;
      h := sha(Concat(Sort(lines)));
    }

    method HashRelated(related: string, quad: nat, issuer: Issuer, canonical: Issuer, position: char) returns (h: string)
      requires Valid() && Usable(issuer, "b") && Usable(canonical, "c14n")
      requires quad < |triples| && related in BNodes(triples)
      ensures h == sha(RelatedText(Fixed(canonical), issuer.order, related, quad, position))
    {
      var input := [position];
      if position != 'g' {
        input := input + ("<" + (if triples[quad].p.Iri? then triples[quad].p.iri else "") + ">");
      }
      assert input == EdgeText(triples[quad].p, position);
      hide FirstDegree, IssuedLabel, EdgeText;
      if canonical.HasIssued(related) {
        input := input + ("_:" + canonical.LabelOf(related));
      } else if issuer.HasIssued(related) {
        input := input + ("_:" + issuer.LabelOf(related));
      } else {
        var d := HashFirstDegree(related);
        input := input + d;
      }
      h := sha(input);
    }

    /** One end of one triple joins the groups, unless it is id itself or not a blank node. */
    method GroupTerm(hn: Groups, id: string, quad: nat, t: Term, position: char, issuer: Issuer, canonical: Issuer) returns (g: Groups)
      requires Valid() && Usable(issuer, "b") && Usable(canonical, "c14n")
      requires quad < |triples| && TermBNodes(t) <= BNodes(triples)
      ensures g == AddTerm(Fixed(canonical), issuer.order, id, quad, t, position, hn)
    {
      hide RelatedText;
      g := hn;
      if t.BNode? && t.id != id {
        assert t.id in TermBNodes(t);
        var h := HashRelated(t.id, quad, issuer, canonical, position);
        if h !in g {
          g := g[h := []];
        }
        assert h !in hn ==> g[h] + [t.id] == [t.id] && g[h := [t.id]] == hn[h := [t.id]];
        if t.id !in g[h] {
          g := g[h := g[h] + [t.id]];
        }
        assert g == AddRelated(hn, h, t.id);
      }
    }

    method GroupRelated(id: string, issuer: Issuer, canonical: Issuer) returns (hn: Groups)
      requires Valid() && Usable(issuer, "b") && Usable(canonical, "c14n") && id in BNodes(triples)
      ensures hn == GroupsOf(Fixed(canonical), issuer.order, id, QuadsOf(triples, id))
    {
      hide GroupsOf, AddTerm;
      hn := map[];
      var quads := bnodeQuads[id];
      GroupsOfNone(Fixed(canonical), issuer.order, id);
      assert quads[..0] == [];
      for k := 0 to |quads|
        invariant hn == GroupsOf(Fixed(canonical), issuer.order, id, quads[..k])
      {
        GroupsOfStep(Fixed(canonical), issuer.order, id, quads, k);
        var t := triples[quads[k]];
        BNodesOfMember(triples, t);
        hn := GroupTerm(hn, id, quads[k], t.s, 's', issuer, canonical);
        hn := GroupTerm(hn, id, quads[k], t.o, 'o', issuer, canonical);
      }
      assert quads[..|quads|] == quads;
    }

    /** Write the identifiers of one permutation onto the path, issuing temporary ones on a copy.
        Stops early, with `greater`, once the path is greater than the best one so far. */
    method VisitAll(perm: seq<string>, issuer: Issuer, canonical: Issuer, best: string)
      returns (copy: Issuer, path: string, recursion: seq<string>, greater: bool)
      requires Valid() && Usable(issuer, "b") && Usable(canonical, "c14n")
      requires forall x :: x in perm ==> x in BNodes(triples)
      ensures fresh(copy) && Usable(copy, "b")
      ensures !greater ==> Trail(path, copy.order, recursion) == Visit(canonical.order, issuer.order, perm)
      ensures greater ==> best != "" && Less(best, RunPermutation(Fixed(canonical), issuer.order, perm).text)
    {
      hide Unissued, RunPermutation, IssuedLabel, Visit, Less, IndexOf;
      copy := new Issuer.Copy(issuer);
      VisitNothing(canonical.order, issuer.order);
      path, recursion, greater := "", [], false;
      for k := 0 to |perm|
        invariant Usable(copy, "b")
        invariant Trail(path, copy.order, recursion) == Visit(canonical.order, issuer.order, perm[..k])
      {
        var related := perm[k];
        VisitUnfolds(canonical.order, issuer.order, perm, k);
        if canonical.HasIssued(related) {
          path := path + "_:" + canonical.LabelOf(related);
        } else {
          if !copy.HasIssued(related) {
            recursion := recursion + [related];
          }
          var v := copy.Issue(related);
          path := path + "_:" + v;
        }
        if best != "" && |path| >= |best| && Less(best, path) {
          AbandonedVisit(Fixed(canonical), issuer.order, perm, k + 1, best);
          greater := true;
          return;
        }
      }
      assert perm[..|perm|] == perm;
    }

    /** One recursive search: its hash goes onto the path and its issuer replaces the copy. */
    method SearchNext(ghost tr: Trail, ghost k: nat, related: string, path: string, copy: Issuer, canonical: Issuer, depth: nat)
      returns (r: Result<(string, Issuer)>)
      requires Valid() && Usable(copy, "b") && Usable(canonical, "c14n") && copy != canonical
      requires GoodOrder(triples, tr.order) && forall x :: x in tr.recursion ==> x in tr.order
      requires k < |tr.recursion| && related == tr.recursion[k]
      requires Outcome(path, copy.order) == Gossip(Fixed(canonical), tr, k)
      requires depth + 2 <= |copy.order|
      modifies this`ndegreeCalls, copy
      ensures r.Ok? ==>
        && fresh(r.value.1) && Usable(r.value.1, "b")
        && Outcome(r.value.0, r.value.1.order) == Gossip(Fixed(canonical), tr, k + 1)
      ensures Within(r)
      ensures old(ndegreeCalls) <= ndegreeCalls <= old(ndegreeCalls) + SearchCalls(Fixed(canonical), related, old(copy.order))
      decreases Unissued(triples, copy.order), 7
    {
      hide NDegree, Gossip, Issuer.Valid, IndexOf, NoDuplicates, BNodes, SearchCalls;
      GossipStep(Fixed(canonical), tr, k);
      assert related in BNodes(triples) by { assert related in Elements(copy.order); }
      var passed := new Issuer.Copy(copy);
      var sub := HashNDegree(related, passed, canonical, depth + 1);
      if sub.Refused? {
        return Refused(sub.budget);
      }
      var v := copy.Issue(related);
      r := Ok((path + "_:" + v + "<" + sub.value.0 + ">", sub.value.1));
    }

    /** The recursive searches of one path, in turn. Stops (None) once the path is greater than the
        best one so far. */
    method GossipAll(recursion: seq<string>, start: string, copy: Issuer, canonical: Issuer, depth: nat, best: string)
      returns (r: Result<Option<(string, Issuer)>>)
      requires Valid() && Usable(copy, "b") && Usable(canonical, "c14n") && copy != canonical
      requires forall x :: x in recursion ==> x in copy.order
      requires |recursion| > 0 ==> depth + 2 <= |copy.order|
      modifies this`ndegreeCalls, copy
      ensures r.Ok? && r.value.Some? ==>
        && (r.value.value.1 == copy || fresh(r.value.value.1)) && Usable(r.value.value.1, "b")
        && Outcome(r.value.value.0, r.value.value.1.order)
             == Gossip(Fixed(canonical), Trail(start, old(copy.order), recursion), |recursion|)
      ensures r.Ok? && r.value.None? ==>
        && best != ""
        && Less(best, Gossip(Fixed(canonical), Trail(start, old(copy.order), recursion), |recursion|).text)
      ensures Within(r)
      ensures old(ndegreeCalls) <= ndegreeCalls
        <= old(ndegreeCalls) + PathCalls(Fixed(canonical), Trail(start, old(copy.order), recursion), |recursion|)
      decreases Unissued(triples, copy.order), if recursion == [] then 1 else 8
    {
      hide NDegree, Gossip, IndexOf, NoDuplicates, BNodes, Issuer.Valid, Less, PathCalls, SearchCalls;
      ghost var c, tr := Fixed(canonical), Trail(start, copy.order, recursion);
      var path, current := start, copy;
      GossipStart(c, tr);
      PathCallsStart(c, tr);
      for k := 0 to |recursion|
        invariant old(ndegreeCalls) <= ndegreeCalls <= old(ndegreeCalls) + PathCalls(c, tr, k)
        invariant (current == copy || fresh(current)) && Usable(current, "b") && tr.order <= current.order
        invariant Outcome(path, current.order) == Gossip(c, tr, k)
      {
        PathCallsStep(c, tr, k);
        PathCallsGrow(c, tr, k + 1, |recursion|);
        var sub := SearchNext(tr, k, recursion[k], path, current, canonical, depth);
        if sub.Refused? {
          return Refused(sub.budget);
        }
        path, current := sub.value.0, sub.value.1;
        if best != "" && |path| >= |best| && Less(best, path) {
          AbandonedGossip(c, tr, k + 1, best);
          return Ok(None);
        }
      }
      r := Ok(Some((path, current)));
    }

    /** One permutation of a group: visit its members, then search from those first issued on this
        path. The path is abandoned (None) as soon as it is greater than the best path so far. */
    method RunOne(perm: seq<string>, issuer: Issuer, canonical: Issuer, depth: nat, best: string)
      returns (r: Result<Option<(string, Issuer)>>)
      requires Valid() && Usable(issuer, "b") && Usable(canonical, "c14n")
      requires forall x :: x in perm ==> x in BNodes(triples)
      requires depth + 1 <= |issuer.order|
      modifies this`ndegreeCalls
      ensures r.Ok? && r.value.Some? ==>
        && fresh(r.value.value.1) && Usable(r.value.value.1, "b")
        && Outcome(r.value.value.0, r.value.value.1.order) == RunPermutation(Fixed(canonical), issuer.order, perm)
      ensures r.Ok? && r.value.None? ==>
        best != "" && Less(best, RunPermutation(Fixed(canonical), issuer.order, perm).text)
      ensures Within(r)
      ensures old(ndegreeCalls) <= ndegreeCalls <= old(ndegreeCalls) + RunCalls(Fixed(canonical), issuer.order, perm)
      decreases Unissued(triples, issuer.order), 2
    {
      hide NDegree, Gossip, IndexOf, NoDuplicates, BNodes, Issuer.Valid, RunPermutation, Visit, RunCalls, PathCalls;
      var copy, path, recursion, greater := VisitAll(perm, issuer, canonical, best);
      if greater {
        return Ok(None);
      }
      RunPermutationIsGossip(Fixed(canonical), issuer.order, perm);
      RunCallsIsPath(Fixed(canonical), issuer.order, perm);
      r := GossipAll(recursion, path, copy, canonical, depth, best);
    }

    /** What a refusal says: the depth budget cannot trip on 33 blank nodes or fewer, the group
        budget not on 7 or fewer, and the call budget only after 10000 calls. */
    ghost predicate Within<T>(r: Result<T>)
      reads this
    {
      && (r == Refused(Depth) ==> |BNodes(triples)| > 33)
      && (r == Refused(GroupSize) ==> |BNodes(triples)| > 7)
      && (r == Refused(Calls) ==> ndegreeCalls > 10000)
    }

    /** The least path over all these permutations, the first of them where several are least. */
    method LeastPath(perms: seq<seq<string>>, issuer: Issuer, canonical: Issuer, depth: nat) returns (r: Result<(string, Issuer)>)
      requires Valid() && Usable(issuer, "b") && Usable(canonical, "c14n")
      requires perms != [] && (forall p :: p in perms ==> p != []) && forall p, x :: p in perms && x in p ==> x in BNodes(triples)
      requires depth + 1 <= |issuer.order|
      modifies this`ndegreeCalls
      ensures r.Ok? ==>
        && fresh(r.value.1) && Usable(r.value.1, "b")
        && Best(Outcome(r.value.0, r.value.1.order)) == BestOf(Fixed(canonical), issuer.order, perms, |perms|)
      ensures Within(r)
      ensures old(ndegreeCalls) <= ndegreeCalls <= old(ndegreeCalls) + PermsCalls(Fixed(canonical), issuer.order, perms, |perms|)
      decreases Unissued(triples, issuer.order), 3
    {
      ghost var c := Fixed(canonical);
      var chosenPath := "";
      var chosen: Option<Issuer> := None;
      hide BNodes, IndexOf, NoDuplicates, Issuer.Valid, RunPermutation, RunCalls, PermsCalls;
      PermsCallsNext(c, issuer.order, perms, 0);
      for k := 0 to |perms|
        invariant chosen.Some? ==> fresh(chosen.value) && Usable(chosen.value, "b") && chosenPath != ""
        invariant BestOf(c, issuer.order, perms, k) == if chosen.Some? then Best(Outcome(chosenPath, chosen.value.order)) else Nothing
        invariant chosen.None? ==> chosenPath == ""
        invariant old(ndegreeCalls) <= ndegreeCalls <= old(ndegreeCalls) + PermsCalls(c, issuer.order, perms, k)
      {
        assert perms[k] in perms;
        PermsCallsNext(c, issuer.order, perms, k);
        PathNotEmpty(c, issuer.order, perms[k]);
        var one := RunOne(perms[k], issuer, canonical, depth, chosenPath);
        if one.Refused? {
          return Refused(one.budget);
        }
        if one.value.Some? {
          var (path, copy) := one.value.value;
          if chosenPath == "" || Less(path, chosenPath) {
            chosenPath := path;
            chosen := Some(copy);
          }
        } else {
          LessTrichotomy(chosenPath, RunPermutation(c, issuer.order, perms[k]).text);
        }
      }
      r := Ok((chosenPath, chosen.value));
    }

    /** One group: refused if too large, else the least path over its permutations. */
    method ResolveOne(group: seq<string>, issuer: Issuer, canonical: Issuer, depth: nat) returns (r: Result<(string, Issuer)>)
      requires Valid() && Usable(issuer, "b") && Usable(canonical, "c14n")
      requires group != [] && NoDuplicates(group) && forall x :: x in group ==> x in BNodes(triples)
      requires depth + 1 <= |issuer.order|
      modifies this`ndegreeCalls
      ensures r.Ok? ==>
        && fresh(r.value.1) && Usable(r.value.1, "b")
        && Outcome(r.value.0, r.value.1.order) == ResolveGroup(Fixed(canonical), issuer.order, group)
      ensures Within(r)
      ensures |group| > 7 ==> r == Refused(GroupSize)
      ensures old(ndegreeCalls) <= ndegreeCalls <= old(ndegreeCalls) + GroupCalls(Fixed(canonical), issuer.order, group)
      decreases Unissued(triples, issuer.order), 4
    {
      if |group| > MAX_PERMUTATION_GROUP {
        assert Elements(group) <= BNodes(triples);
        NoDuplicatesBound(group, BNodes(triples));
        return Refused(GroupSize);
      }
      hide BNodes, IndexOf, NoDuplicates, Issuer.Valid, Permutations, BestOf, PermsCalls;
      var perms := Permute(group);
      PermutationsInNodes(triples, group);
      PermutationsExact(group, group);
      forall p | p in perms ensures p != [] { PermutationMembers(group, p); }
      r := LeastPath(perms, issuer, canonical, depth);
    }

    /** The groups in hash order: the data to hash, and the issuer of the last least path. */
    method ResolveEach(hn: Groups, hashes: seq<string>, issuer: Issuer, canonical: Issuer, depth: nat) returns (r: Result<(string, Issuer)>)
      requires Valid() && Usable(issuer, "b") && Usable(canonical, "c14n") && GoodGroups(triples, hn)
      requires forall h :: h in hashes ==> h in hn
      requires depth + 1 <= |issuer.order|
      modifies this`ndegreeCalls
      ensures r.Ok? ==>
        && (r.value.1 == issuer || fresh(r.value.1)) && Usable(r.value.1, "b")
        && Outcome(r.value.0, r.value.1.order) == ResolveGroups(Fixed(canonical), issuer.order, hn, hashes, |hashes|)
      ensures Within(r)
      ensures old(ndegreeCalls) <= ndegreeCalls
        <= old(ndegreeCalls) + GroupsCalls(Fixed(canonical), issuer.order, hn, hashes, |hashes|)
      decreases Unissued(triples, issuer.order), 5
    {
      hide IndexOf, Issuer.Valid, NoDuplicates, BNodes, ResolveGroup, GroupsCalls, GroupCalls;
      ghost var c := Fixed(canonical);
      var data := "";
      var current := issuer;
      GroupsCallsStart(c, issuer.order, hn, hashes);
      for k := 0 to |hashes|
        invariant (current == issuer || fresh(current)) && Usable(current, "b")
        invariant |issuer.order| <= |current.order|
        invariant Outcome(data, current.order) == ResolveGroups(c, issuer.order, hn, hashes, k)
        invariant old(ndegreeCalls) <= ndegreeCalls <= old(ndegreeCalls) + GroupsCalls(c, issuer.order, hn, hashes, k)
      {
        GroupsCallsNext(c, issuer.order, hn, hashes, k);
        var one := ResolveOne(hn[hashes[k]], current, canonical, depth);
        if one.Refused? {
          return Refused(one.budget);
        }
        data := data + hashes[k] + one.value.0;
        current := one.value.1;
      }
      r := Ok((data, current));
    }

    /** Hash N-Degree Quads, with its budgets. */
    method HashNDegree(id: string, issuer: Issuer, canonical: Issuer, depth: nat) returns (r: Result<(string, Issuer)>)
      requires Valid() && Usable(issuer, "b") && Usable(canonical, "c14n")
      requires id in BNodes(triples)
      requires depth + 1 <= |issuer.order|
      modifies this`ndegreeCalls
      ensures r.Ok? ==>
        && (r.value.1 == issuer || fresh(r.value.1)) && Usable(r.value.1, "b")
        && Outcome(r.value.0, r.value.1.order) == NDegree(Fixed(canonical), id, issuer.order)
      ensures Within(r)
      ensures depth > 32 || old(ndegreeCalls) >= 10000 ==> r.Refused?
      ensures old(ndegreeCalls) < ndegreeCalls <= old(ndegreeCalls) + SearchCalls(Fixed(canonical), id, issuer.order)
      decreases Unissued(triples, issuer.order), 6
    {
      hide IndexOf, Issuer.Valid, NoDuplicates, BNodes, GroupsOf, ResolveGroup, GroupsCalls, GroupCalls;
      ndegreeCalls := ndegreeCalls + 1;
      NoDuplicatesBound(issuer.order, BNodes(triples));
      if depth > MAX_RECURSION_DEPTH {
        return Refused(Depth);
      }
      if ndegreeCalls > MAX_NDEGREE_CALLS {
        return Refused(Calls);
      }
      var hn := GroupRelated(id, issuer, canonical);
      var hashes := SortedMembers(hn.Keys);
      assert forall h :: h in hashes ==> h in Elements(hashes);
      var all := ResolveEach(hn, hashes, issuer, canonical, depth);
      if all.Refused? {
        return Refused(all.budget);
      }
      r := Ok((sha(all.value.0), all.value.1));
    }

    /** First-degree hashes of all blank nodes, in whatever order the hash map yields them. */
    method GroupByHash() returns (byHash: map<string, seq<string>>)
      requires Valid()
      ensures byHash.Keys == Hashes(sha, triples)
      ensures forall h :: h in byHash ==> NoDuplicates(byHash[h]) && Elements(byHash[h]) == HashClass(sha, triples, h)
    {
      byHash := map[];
      var rest := bnodeQuads.Keys;
      ghost var done: set<string> := {};
      hide FirstDegree, HashClass, Hashes, Sorting, BNodes;
      SortingNothing();
      while rest != {}
        invariant rest + done == BNodes(triples) && rest !! done
        invariant Sorting(byHash, done)
        decreases rest
      {
        var b :| b in rest;
        var h := HashFirstDegree(b);
        SortingStep(byHash, done, b);
        byHash := byHash[h := (if h in byHash then byHash[h] else []) + [b]];
        rest, done := rest - {b}, done + {b};
      }
      assert done == BNodes(triples);
      SortingDone(byHash);
    }

    /** byHash lists the members of `done` by hash. */
    ghost predicate Sorting(byHash: map<string, seq<string>>, done: set<string>) {
      && (forall b :: b in done ==> FirstDegree(sha, triples, b) in byHash && b in byHash[FirstDegree(sha, triples, b)])
      && (forall h :: h in byHash ==> byHash[h] != [] && NoDuplicates(byHash[h]))
      && (forall h, b :: h in byHash && b in byHash[h] ==> b in done && FirstDegree(sha, triples, b) == h)
    }

    lemma SortingNothing()
      ensures Sorting(map[], {})
    {
    }

    lemma SortingStep(byHash: map<string, seq<string>>, done: set<string>, b: string)
      requires Sorting(byHash, done) && b !in done
      ensures var h := FirstDegree(sha, triples, b);
              Sorting(byHash[h := (if h in byHash then byHash[h] else []) + [b]], done + {b})
    {
      hide FirstDegree;
    }

    lemma SortingDone(byHash: map<string, seq<string>>)
      requires Sorting(byHash, BNodes(triples))
      ensures byHash.Keys == Hashes(sha, triples)
      ensures forall h :: h in byHash ==> NoDuplicates(byHash[h]) && Elements(byHash[h]) == HashClass(sha, triples, h)
    {
      hide FirstDegree, BNodes;
      forall h | h in byHash ensures h in Hashes(sha, triples) {
        var b := byHash[h][0];
        assert b in byHash[h] && b in BNodes(triples) && FirstDegree(sha, triples, b) == h;
      }
    }

    /** An N-degree search from a fresh temporary issuer that has issued just b. */
    method SearchMember(b: string, canonical: Issuer) returns (r: Result<Outcome>)
      requires Valid() && Usable(canonical, "c14n") && b in BNodes(triples)
      modifies this`ndegreeCalls
      ensures GoodOrder(triples, [b])
      ensures r.Ok? ==> r.value == NDegree(Fixed(canonical), b, [b])
      ensures Within(r)
      ensures old(ndegreeCalls) < ndegreeCalls <= old(ndegreeCalls) + SearchCalls(Fixed(canonical), b, [b])
    {
      hide SearchCalls, NDegree, IndexOf, Issuer.Valid, NoDuplicates, BNodes;
      var temp := new Issuer("b");
      var _ := temp.Issue(b);
      TemporaryStart(b);
      assert temp.order == [b];
      var one := HashNDegree(b, temp, canonical, 0);
      r := if one.Refused? then Refused(one.budget) else Ok(Outcome(one.value.0, one.value.1.order));
    }

    /** The searches of one tied class, skipping members that already have an identifier. */
    method SearchMembers(group: seq<string>, canonical: Issuer) returns (r: Result<seq<Outcome>>)
      requires Valid() && Usable(canonical, "c14n") && Elements(group) <= BNodes(triples)
      modifies this`ndegreeCalls
      ensures r.Ok? ==> r.value == Results(Fixed(canonical), group, |group|)
      ensures Within(r)
      ensures old(ndegreeCalls) <= ndegreeCalls <= old(ndegreeCalls) + ClassCalls(Fixed(canonical), group, |group|)
    {
      hide SearchCalls, NDegree, IndexOf, Issuer.Valid, NoDuplicates, BNodes;
      ghost var c := Fixed(canonical);
      var results: seq<Outcome> := [];
      for k := 0 to |group|
        invariant results == Results(c, group, k)
        invariant old(ndegreeCalls) <= ndegreeCalls <= old(ndegreeCalls) + ClassCalls(c, group, k)
      {
        ClassCallsGrow(c, group, k + 1, |group|);
        assert group[k] in Elements(group);
        if !canonical.HasIssued(group[k]) {
          var one := SearchMember(group[k], canonical);
          if one.Refused? {
            return Refused(one.budget);
          }
          results := results + [one.value];
        }
      }
      r := Ok(results);
    }

    /** Ties within one hash class: an N-degree search per member still without an identifier, then
        identifiers in the order of the resulting hashes. */
    method ResolveTied(group: seq<string>, canonical: Issuer) returns (refused: Option<Budget>)
      requires Valid() && Usable(canonical, "c14n") && Elements(group) <= BNodes(triples)
      modifies this`ndegreeCalls, canonical
      ensures refused.None? ==> Usable(canonical, "c14n") && canonical.order == ResolveClass(sha, triples, old(canonical.order), group)
      ensures refused.Some? ==> Within<()>(Refused(refused.value))
      ensures old(ndegreeCalls) <= ndegreeCalls
        <= old(ndegreeCalls) + ClassCalls(Context(sha, triples, old(canonical.order)), group, |group|)
    {
      hide ClassCalls, NDegree, IndexOf, Issuer.Valid, NoDuplicates, BNodes, Results;
      ghost var canon := canonical.order;
      var results := SearchMembers(group, canonical);
      if results.Refused? {
        return Some(results.budget);
      }
      SortKeepsOutcomes(triples, results.value);
      var sorted := SortOutcomes(results.value);
      hide SortOutcomes, OrderIn;
      ghost var calls := ndegreeCalls;
      for k := 0 to |sorted|
        invariant ndegreeCalls == calls
        invariant Usable(canonical, "c14n")
        invariant canonical.order == IssueOutcomes(triples, canon, sorted, k)
      {
        IssueEach(sorted[k].order, canonical);
      }
      refused := None;
    }

    lemma TemporaryStart(b: string)
      requires b in BNodes(triples)
      ensures GoodOrder(triples, [b]) && Issuing.Issue([], b) == [b]
    {
      assert Elements([b]) == {b};
    }

    method IssueEach(ids: seq<string>, canonical: Issuer)
      requires Usable(canonical, "c14n") && GoodOrder(triples, ids)
      modifies canonical
      ensures Usable(canonical, "c14n") && canonical.order == IssueAll(old(canonical.order), ids)
    {
      hide BNodes, IndexOf, NoDuplicates, Issuer.Valid, IssuedLabel;
      for i := 0 to |ids|
        invariant Usable(canonical, "c14n")
        invariant canonical.order == IssueAll(old(canonical.order), ids[..i])
      {
        assert ids[..i + 1][..i] == ids[..i];
        assert ids[i] in Elements(ids);
        var _ := canonical.Issue(ids[i]);
      }
      assert ids[..|ids|] == ids;
    }
  }

  /** No two blank nodes share a first-degree hash. */
  ghost predicate TieFree(sha: string -> string, ts: seq<Triple>) {
    forall a, b :: a in BNodes(ts) && b in BNodes(ts) && FirstDegree(sha, ts, a) == FirstDegree(sha, ts, b) ==> a == b
  }

  lemma {:induction false} TieFreeClasses(sha: string -> string, ts: seq<Triple>, k: nat)
    requires TieFree(sha, ts) && k <= |Classes(sha, ts)|
    ensures forall i :: 0 <= i < |Classes(sha, ts)| ==> |Classes(sha, ts)[i]| == 1
    ensures TiedClasses(Ascending, Classes(sha, ts), k) == []
  {
    hide FirstDegree;
    var hs, cs := Ascending(Hashes(sha, ts)), Classes(sha, ts);
    forall i | 0 <= i < |cs| ensures |cs[i]| == 1 {
      assert hs[i] in Elements(hs);
      var b :| b in BNodes(ts) && FirstDegree(sha, ts, b) == hs[i];
      assert cs[i] == {b};
    }
    if k > 0 { TieFreeClasses(sha, ts, k - 1); }
  }

  /** A unique hash issues its blank node; a shared one puts its class, in label order, aside. */
  method IssueOrShare(state: CanonState, group: seq<string>, ghost peers: set<string>, shared: seq<seq<string>>, canonical: Issuer)
    returns (shared': seq<seq<string>>)
    requires state.Usable(canonical, "c14n")
    requires NoDuplicates(group) && Elements(group) == peers && peers <= BNodes(state.triples)
    modifies canonical
    ensures state.Usable(canonical, "c14n")
    ensures canonical.order == if |peers| == 1 then Issue(old(canonical.order), TheOnly(peers)) else old(canonical.order)
    ensures shared' == if |peers| == 1 then shared else shared + [Ascending(peers)]
  {
    hide IndexOf, Issuer.Valid, BNodes;
    shared' := shared;
    CardinalityOfNoDuplicates(group);
    if |group| == 1 {
      assert group[0] in Elements(group);
      var _ := canonical.Issue(group[0]);
    } else {
      SortedGroup(group);
      shared' := shared + [Sort(group)];
    }
  }

  /** Steps 3 and 4: walk the hashes in order, issue the unique ones and collect the tied classes. */
  method IssueByHash(state: CanonState, byHash: map<string, seq<string>>, canonical: Issuer) returns (shared: seq<seq<string>>)
    requires state.Valid() && state.Usable(canonical, "c14n") && canonical.order == []
    requires byHash.Keys == Hashes(state.sha, state.triples)
    requires forall h :: h in byHash ==>
      NoDuplicates(byHash[h]) && Elements(byHash[h]) == HashClass(state.sha, state.triples, h)
    modifies canonical
    ensures var cs := Classes(state.sha, state.triples);
      && state.Usable(canonical, "c14n")
      && canonical.order == IssueUniques(cs, |cs|)
      && shared == TiedClasses(Ascending, cs, |cs|)
  {
    var hashes := SortedMembers(byHash.Keys);
    ghost var cs := Classes(state.sha, state.triples);
    ClassesCover(state.sha, state.triples);
    hide IndexOf, Issuer.Valid, HashClass, BNodes, Hashes, NoDuplicates, OrderIn;
    shared := [];
    for i := 0 to |hashes|
      invariant state.Usable(canonical, "c14n")
      invariant canonical.order == IssueUniques(cs, i)
      invariant shared == TiedClasses(Ascending, cs, i)
    {
      assert hashes[i] in Elements(hashes);
      shared := IssueOrShare(state, byHash[hashes[i]], cs[i], shared, canonical);
    }
  }

  /** Step 5: each tied class in hash order. */
  method ResolveShared(state: CanonState, shared: seq<seq<string>>, canonical: Issuer) returns (refused: Option<Budget>)
    requires state.Valid() && state.Usable(canonical, "c14n")
    requires forall k :: 0 <= k < |shared| ==> Elements(shared[k]) <= BNodes(state.triples)
    modifies state`ndegreeCalls, canonical
    ensures refused.None? ==>
      && state.Usable(canonical, "c14n")
      && canonical.order == FoldClasses(Resolver(state.sha, state.triples), old(canonical.order), shared, |shared|)
    ensures refused.Some? ==> shared != [] && state.Within<()>(Refused(refused.value))
    ensures state.ndegreeCalls <= old(state.ndegreeCalls) + TiesCalls(state.sha, state.triples, old(canonical.order), shared, |shared|)
  {
    hide IndexOf, Issuer.Valid, BNodes, ResolveClass, ClassCalls;
    for k := 0 to |shared|
      invariant state.ndegreeCalls <= old(state.ndegreeCalls) + TiesCalls(state.sha, state.triples, old(canonical.order), shared, k)
      invariant state.Usable(canonical, "c14n")
      invariant canonical.order == FoldClasses(Resolver(state.sha, state.triples), old(canonical.order), shared, k)
    {
      TiesCallsGrow(state.sha, state.triples, old(canonical.order), shared, k + 1, |shared|);
      refused := state.ResolveTied(shared[k], canonical);
      if refused.Some? {
        return;
      }
    }
    refused := None;
  }

  method PrintLines(triples: seq<Triple>, labels: map<string, string>) returns (lines: seq<string>)
    ensures lines == Lines(triples, labels)
  {
    hide NtTriple, Naming;
    lines := [];
    for i := 0 to |triples|
      invariant lines == Lines(triples[..i], labels)
    {
      LinesMore(triples, i, labels);
      hide Lines;
      lines := lines + [NtTriple(triples[i], Naming(labels))];
    }
    assert triples[..|triples|] == triples;
  }

  lemma LinesMore(triples: seq<Triple>, i: nat, labels: map<string, string>)
    requires i < |triples|
    ensures Lines(triples[..i + 1], labels) == Lines(triples[..i], labels) + [NtTriple(triples[i], Naming(labels))]
  {
    hide NtTriple, Naming;
  }

  /** `canonicalize_labeled`: sorted canonical lines, digest and label map, or the budget that made
      it refuse. The result does not depend on the order in which hash maps yield their keys, and a
      graph without first-degree ties is never refused. */
  method CanonicalizeLabeled(sha: string -> string, triples: seq<Triple>)
    returns (r: Result<(seq<string>, string, map<string, string>)>)
    ensures r.Ok? ==> r.value == (CanonicalLines(sha, triples), Digest(sha, triples), CanonicalLabels(sha, triples))
    ensures r == Refused(Depth) ==> |BNodes(triples)| > 33
    ensures r == Refused(GroupSize) ==> |BNodes(triples)| > 7
    ensures r == Refused(Calls) ==> TotalCalls(sha, triples) > 10000
    ensures TieFree(sha, triples) ==> r.Ok?
  {
    hide CanonicalOrder, BNodes, TieFree, NtTriple, Sort, Sorted, IndexOf;
    var state := new CanonState(sha, triples);
    var refused, canonical := IssueCanonical(state);
    if refused.Some? {
      return Refused(refused.value);
    }
    IssuedIsCanonical(sha, triples, canonical);
    var lines := PrintLines(triples, canonical.issued);
    lines := Sort(lines);
    r := Ok((lines, sha(Concat(lines)), canonical.issued));
  }

  /** Steps 3 to 5: every blank node gets its canonical identifier, or a budget trips. */
  method IssueCanonical(state: CanonState) returns (refused: Option<Budget>, canonical: Issuer)
    requires state.Valid()
    modifies state`ndegreeCalls
    ensures refused.None? ==> canonical.Valid() && canonical.prefix == "c14n" && canonical.order == CanonicalOrder(state.sha, state.triples)
    ensures refused.Some? ==> !TieFree(state.sha, state.triples)
    ensures refused == Some(Depth) ==> |BNodes(state.triples)| > 33
    ensures refused == Some(GroupSize) ==> |BNodes(state.triples)| > 7
    ensures refused == Some(Calls) ==> old(state.ndegreeCalls) + TotalCalls(state.sha, state.triples) > 10000
  {
    canonical := new Issuer("c14n");
    var byHash := state.GroupByHash();
    var shared := IssueByHash(state, byHash, canonical);
    TiesPlanned(state.sha, state.triples);
    hide BNodes, Resolver, Classes, TieFree, TiesCalls, TotalCalls, TiedClasses, IssueUniques, FoldClasses, CanonicalOrder, CanonState.Valid, OrderIn;
    refused := ResolveShared(state, shared, canonical);
  }

  /** The canonical order is the fold over the tied classes, of which a tie-free graph has none. */
  lemma TiesPlanned(sha: string -> string, ts: seq<Triple>)
    ensures var cs := Classes(sha, ts);
      var first, shared := IssueUniques(cs, |cs|), TiedClasses(Ascending, cs, |cs|);
      && CanonicalOrder(sha, ts) == FoldClasses(Resolver(sha, ts), first, shared, |shared|)
      && TotalCalls(sha, ts) == TiesCalls(sha, ts, first, shared, |shared|)
      && (forall k :: 0 <= k < |shared| ==> Elements(shared[k]) <= BNodes(ts))
      && (TieFree(sha, ts) ==> shared == [])
  {
    hide BNodes, Resolver, Classes, TieFree, TiesCalls, FoldClasses;
    var cs := Classes(sha, ts);
    ClassesCover(sha, ts);
    TiedClassesListed(Ascending, BNodes(ts), cs, |cs|);
    if TieFree(sha, ts) { TieFreeClasses(sha, ts, |cs|); }
  }

  lemma VisitNothing(canon: seq<string>, order: seq<string>)
    ensures Visit(canon, order, []) == Trail("", order, [])
  {
  }

  lemma IssuedIsCanonical(sha: string -> string, triples: seq<Triple>, canonical: Issuer)
    requires canonical.Valid() && canonical.prefix == "c14n" && canonical.order == CanonicalOrder(sha, triples)
    ensures canonical.issued == CanonicalLabels(sha, triples)
  {
    hide CanonicalOrder, BNodes;
    CanonicalOrderComplete(sha, triples);
  }

  lemma SortedGroup(group: seq<string>)
    requires NoDuplicates(group)
    ensures Sort(group) == Ascending(Elements(group))
  {
    var s := Sort(group);
    SortSorts(group);
    assert forall x :: x in s <==> x in multiset(s);
    assert forall x :: x in group <==> x in multiset(group);
    forall i, j | 0 <= i < j < |s| ensures s[i] != s[j] {
      Multiplicity(group, s[i]);
      if s[i] == s[j] { TwoOccurrences(s, i, j); }
    }
    assert Elements(s) == Elements(group);
    EnumerationUnique(s, Ascending(Elements(group)), Elements(group));
  }
}
