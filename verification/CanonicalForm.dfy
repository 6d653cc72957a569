/**
 RDFC-1.0 as a function of the triple list: first-degree hashes, related hashes, the N-degree search
 over all permutations without pruning or budgets, and the order in which canonical identifiers are
 issued. SHA-256 is an arbitrary function `sha`.

 The imperative code in Canonicalizer is proved to compute exactly these functions.
 */
module CanonicalForm {
  import opened Sequences
  import opened Text
  import opened Terms
  import opened Isomorphism
  import opened Issuing

  /** What stays fixed while one tie is being resolved: the hash function, the triples, and the
      canonical issuer's order. */
  datatype Context = Context(sha: string -> string, ts: seq<Triple>, canon: seq<string>)

  // ----- identifier issuers -----

  function IssuedLabel(prefix: string, order: seq<string>, id: string): string
    requires id in order
  {
    prefix + Decimal(IndexOf(order, id))
  }

  function CanonicalLabel(order: seq<string>, id: string): string
    requires id in order
  {
    IssuedLabel("c14n", order, id)
  }

  function TemporaryLabel(order: seq<string>, id: string): string
    requires id in order
  {
    IssuedLabel("b", order, id)
  }

  // ----- first-degree hashes -----

  /** The lines triple t contributes to the first-degree text of n: one per position that holds n. */
  function LinesMentioning(n: string, t: Triple): seq<string> {
    (if t.s == BNode(n) then [NtTriple(t, SelfNaming(n))] else [])
    + (if t.o == BNode(n) then [NtTriple(t, SelfNaming(n))] else [])
  }

  function FirstDegreeLines(ts: seq<Triple>, n: string): seq<string> {
    FlatMap(t => LinesMentioning(n, t), ts)
  }

  function FirstDegree(sha: string -> string, ts: seq<Triple>, n: string): string {
    sha(Concat(Sort(FirstDegreeLines(ts, n))))
  }

  // ----- related hashes and the groups they make -----

  function QuadsOfAt(i: nat, t: Triple, b: string): seq<nat> {
    (if t.s == BNode(b) then [i] else []) + (if t.o == BNode(b) then [i] else [])
  }

  predicate Bounded(quads: seq<nat>, n: nat) {
    forall i :: 0 <= i < |quads| ==> quads[i] < n
  }

  /** The indices of the triples that mention b, twice when both ends are b. */
  function QuadsOf(ts: seq<Triple>, b: string): (r: seq<nat>)
    ensures Bounded(r, |ts|)
  {
    if ts == [] then []
    else QuadsOf(ts[..|ts| - 1], b) + QuadsOfAt(|ts| - 1, ts[|ts| - 1], b)
  }

  /** How a related blank node enters the hash: by its canonical identifier, else by the temporary
      one, else by its first-degree hash. */
  function Identify(c: Context, order: seq<string>, related: string): string {
    if related in c.canon then "_:" + CanonicalLabel(c.canon, related)
    else if related in order then "_:" + TemporaryLabel(order, related)
    else FirstDegree(c.sha, c.ts, related)
  }

  function EdgeText(p: Term, position: char): string {
    [position] + if position != 'g' then "<" + (if p.Iri? then p.iri else "") + ">" else ""
  }

  function RelatedText(c: Context, order: seq<string>, related: string, quad: nat, position: char): string
    requires quad < |c.ts|
  {
    EdgeText(c.ts[quad].p, position) + Identify(c, order, related)
  }

  type Groups = map<string, seq<string>>

  function AddRelated(g: Groups, h: string, b: string): Groups {
    if h !in g then g[h := [b]] else if b in g[h] then g else g[h := g[h] + [b]]
  }

  function AddTerm(c: Context, order: seq<string>, id: string, quad: nat, t: Term, position: char, g: Groups): Groups
    requires quad < |c.ts|
  {
    if t.BNode? && t.id != id
    then AddRelated(g, c.sha(RelatedText(c, order, t.id, quad, position)), t.id)
    else g
  }

  function AddQuad(c: Context, order: seq<string>, id: string, quad: nat, g: Groups): Groups
    requires quad < |c.ts|
  {
    var t := c.ts[quad];
    AddTerm(c, order, id, quad, t.o, 'o', AddTerm(c, order, id, quad, t.s, 's', g))
  }

  predicate GoodGroups(ts: seq<Triple>, g: Groups) {
    forall h :: h in g ==> g[h] != [] && NoDuplicates(g[h]) && forall b :: b in g[h] ==> b in BNodes(ts)
  }

  lemma AddRelatedGood(ts: seq<Triple>, g: Groups, h: string, b: string)
    requires GoodGroups(ts, g) && b in BNodes(ts)
    ensures GoodGroups(ts, AddRelated(g, h, b))
  {
    var r := AddRelated(g, h, b);
    assert r[h] != [] && NoDuplicates(r[h]) && forall x :: x in r[h] ==> x in BNodes(ts);
    assert forall k :: k in r && k != h ==> k in g && r[k] == g[k];
  }

  lemma AddQuadGood(c: Context, order: seq<string>, id: string, quad: nat, g: Groups)
    requires quad < |c.ts| && GoodGroups(c.ts, g)
    ensures GoodGroups(c.ts, AddQuad(c, order, id, quad, g))
  {
    var t := c.ts[quad];
    BNodesOfMember(c.ts, t);
    if t.s.BNode? && t.s.id != id {
      assert t.s.id in TripleBNodes(t);
      AddRelatedGood(c.ts, g, c.sha(RelatedText(c, order, t.s.id, quad, 's')), t.s.id);
    }
    if t.o.BNode? && t.o.id != id {
      assert t.o.id in TripleBNodes(t);
      AddRelatedGood(c.ts, AddTerm(c, order, id, quad, t.s, 's', g),
                     c.sha(RelatedText(c, order, t.o.id, quad, 'o')), t.o.id);
    }
  }

  function GroupsOf(c: Context, order: seq<string>, id: string, quads: seq<nat>): (g: Groups)
    requires Bounded(quads, |c.ts|)
    ensures GoodGroups(c.ts, g)
  {
    if quads == [] then map[]
    else
      var n := |quads| - 1;
      var g := GroupsOf(c, order, id, quads[..n]);
      AddQuadGood(c, order, id, quads[n], g);
      AddQuad(c, order, id, quads[n], g)
  }

  lemma GroupsOfNone(c: Context, order: seq<string>, id: string)
    ensures GroupsOf(c, order, id, []) == map[]
  {
  }

  lemma GroupsOfStep(c: Context, order: seq<string>, id: string, quads: seq<nat>, k: nat)
    requires k < |quads| && Bounded(quads, |c.ts|)
    ensures GroupsOf(c, order, id, quads[..k + 1]) == AddQuad(c, order, id, quads[k], GroupsOf(c, order, id, quads[..k]))
  {
    hide AddQuad;
    assert quads[..k + 1][..k] == quads[..k];
  }

  // ----- permutations -----

  function Without(items: seq<string>, i: nat): (r: seq<string>)
    requires i < |items|
    ensures |r| == |items| - 1
  {
    items[..i] + items[i + 1..]
  }

  function Prefixed(x: string, ps: seq<seq<string>>): seq<seq<string>> {
    Map(p => [x] + p, ps)
  }

  /** All arrangements of items, by choice of first element. */
  function Permutations(items: seq<string>): seq<seq<string>>
    decreases |items|, |items| + 1
  {
    if |items| <= 1 then [items] else PermutationsFirst(items, |items|)
  }

  /** The arrangements whose first element is one of the first n items. */
  function PermutationsFirst(items: seq<string>, n: nat): seq<seq<string>>
    requires n <= |items|
    decreases |items|, n
  {
    if n == 0 then []
    else PermutationsFirst(items, n - 1) + Prefixed(items[n - 1], Permutations(Without(items, n - 1)))
  }

  /** p starts with the i-th item and arranges the others after it. */
  ghost predicate StartsWith(items: seq<string>, i: nat, p: seq<string>) {
    i < |items| && |p| > 0 && p[0] == items[i] && multiset(p[1..]) == multiset(Without(items, i))
  }

  lemma StartedIsArrangement(items: seq<string>, p: seq<string>)
    requires |items| > 0
    ensures multiset(p) == multiset(items) <==> exists i: nat :: StartsWith(items, i, p)
  {
    if multiset(p) == multiset(items) {
      assert |p| == |multiset(p)| == |items|;
      assert p[0] in multiset(items);
      var i := IndexOf(items, p[0]);
      RemoveOne(p, items, i);
      assert StartsWith(items, i, p);
    }
    if i: nat :| StartsWith(items, i, p) {
      PutBack(items, i);
      assert p == [p[0]] + p[1..];
    }
  }

  /** Permutations lists exactly the arrangements of its argument. */
  lemma {:induction false} PermutationsExact(items: seq<string>, p: seq<string>)
    ensures p in Permutations(items) <==> multiset(p) == multiset(items)
    decreases |items|, |items| + 1
  {
    if |items| == 0 {
      assert |p| == |multiset(p)|;
    } else {
      StartedIsArrangement(items, p);
      if |items| == 1 {
        SingletonArrangement(items, p);
      } else {
        PermutationsFirstExact(items, |items|, p);
      }
    }
  }

  lemma SingletonArrangement(items: seq<string>, p: seq<string>)
    requires |items| == 1
    ensures multiset(p) == multiset(items) <==> p == items
  {
    if multiset(p) == multiset(items) {
      assert |p| == |multiset(p)| == 1;
      assert p[0] in multiset(items);
    }
  }

  lemma {:induction false} PermutationsFirstExact(items: seq<string>, n: nat, p: seq<string>)
    requires n <= |items|
    ensures p in PermutationsFirst(items, n) <==> exists i: nat :: i < n && StartsWith(items, i, p)
    decreases |items|, n
  {
    if n > 0 {
      PermutationsFirstExact(items, n - 1, p);
      var rest := Permutations(Without(items, n - 1));
      if |p| > 0 { PermutationsExact(Without(items, n - 1), p[1..]); }
      InPrefixed(items[n - 1], rest, p);
      assert p in Prefixed(items[n - 1], rest) <==> StartsWith(items, n - 1, p);
    }
  }

  lemma InPrefixed(x: string, rest: seq<seq<string>>, p: seq<string>)
    ensures p in Prefixed(x, rest) <==> |p| > 0 && p[0] == x && p[1..] in rest
  {
    var ps := Prefixed(x, rest);
    if p in ps {
      var k :| 0 <= k < |ps| && ps[k] == p;
      assert p == [x] + rest[k];
      assert p[1..] == rest[k];
    }
    if |p| > 0 && p[0] == x && p[1..] in rest {
      var k :| 0 <= k < |rest| && rest[k] == p[1..];
      assert p == [x] + rest[k] == ps[k];
    }
  }

  /** p comes before q: where they first differ, p has the item that stands further in front. */
  ghost predicate Precedes(items: seq<string>, p: seq<string>, q: seq<string>) {
    exists k: nat :: PrecedesAt(items, p, q, k)
  }

  predicate PrecedesAt(items: seq<string>, p: seq<string>, q: seq<string>, k: nat) {
    k < |p| && k < |q| && p[..k] == q[..k] && p[k] in items && q[k] in items && IndexOf(items, p[k]) < IndexOf(items, q[k])
  }

  lemma WithoutKeepsOrder(items: seq<string>, n: nat, x: string, y: string)
    requires NoDuplicates(items) && n < |items| && x in Without(items, n) && y in Without(items, n)
    requires IndexOf(Without(items, n), x) < IndexOf(Without(items, n), y)
    ensures x in items && y in items && IndexOf(items, x) < IndexOf(items, y)
  {
    var rest := Without(items, n);
    var i, j := IndexOf(rest, x), IndexOf(rest, y);
    assert rest[i] == items[if i < n then i else i + 1] && rest[j] == items[if j < n then j else j + 1];
    IndexOfUnique(items, if i < n then i else i + 1);
    IndexOfUnique(items, if j < n then j else j + 1);
  }

  lemma PrecedesUnder(items: seq<string>, n: nat, p: seq<string>, q: seq<string>)
    requires NoDuplicates(items) && n < |items| && Precedes(Without(items, n), p, q)
    ensures Precedes(items, [items[n]] + p, [items[n]] + q)
  {
    var k: nat :| PrecedesAt(Without(items, n), p, q, k);
    WithoutKeepsOrder(items, n, p[k], q[k]);
    hide Without, IndexOf, NoDuplicates;
    PushedBack(items, items[n], p, q, k);
  }

  lemma PushedBack(items: seq<string>, x: string, p: seq<string>, q: seq<string>, k: nat)
    requires k < |p| && k < |q| && p[..k] == q[..k] && p[k] in items && q[k] in items && IndexOf(items, p[k]) < IndexOf(items, q[k])
    ensures Precedes(items, [x] + p, [x] + q)
  {
    hide IndexOf;
    var a, b := [x] + p, [x] + q;
    assert a[..k + 1] == [x] + p[..k] && b[..k + 1] == [x] + q[..k];
    assert a[k + 1] == p[k] && b[k + 1] == q[k];
    assert PrecedesAt(items, a, b, k + 1);
  }

  /** The arrangements are listed in the order of their items: the first item changes slowest. */
  lemma {:induction false} PermutationsAscend(items: seq<string>, i: nat, j: nat)
    requires NoDuplicates(items) && i < j < |Permutations(items)|
    ensures Precedes(items, Permutations(items)[i], Permutations(items)[j])
    decreases |items|, |items| + 1
  {
    if |items| > 1 { FirstsAscend(items, |items|, i, j); }
  }

  lemma {:induction false} FirstsAscend(items: seq<string>, n: nat, i: nat, j: nat)
    requires NoDuplicates(items) && n <= |items| && i < j < |PermutationsFirst(items, n)|
    ensures Precedes(items, PermutationsFirst(items, n)[i], PermutationsFirst(items, n)[j])
    decreases |items|, n
  {
    var before, rest := PermutationsFirst(items, n - 1), Permutations(Without(items, n - 1));
    var all := PermutationsFirst(items, n);
    hide Precedes;
    if j < |before| {
      FirstsAscend(items, n - 1, i, j);
    } else if i < |before| {
      HeadsAscend(items, n, all[i], all[j], before, rest, j - |before|);
    } else {
      assert NoDuplicates(Without(items, n - 1));
      PermutationsAscend(Without(items, n - 1), i - |before|, j - |before|);
      PrecedesUnder(items, n - 1, rest[i - |before|], rest[j - |before|]);
    }
  }

  lemma HeadsAscend(items: seq<string>, n: nat, p: seq<string>, q: seq<string>, before: seq<seq<string>>, rest: seq<seq<string>>, l: nat)
    requires NoDuplicates(items) && 0 < n <= |items| && before == PermutationsFirst(items, n - 1) && p in before
    requires l < |rest| && q == [items[n - 1]] + rest[l]
    ensures Precedes(items, p, q)
  {
    PermutationsFirstExact(items, n - 1, p);
    var m: nat :| m < n - 1 && StartsWith(items, m, p);
    IndexOfUnique(items, m);
    IndexOfUnique(items, n - 1);
    assert p[..0] == q[..0];
    assert p[0] == items[m] && q[0] == items[n - 1];
    assert PrecedesAt(items, p, q, 0);
  }

  lemma PermutationMembers(items: seq<string>, p: seq<string>)
    requires p in Permutations(items)
    ensures |p| == |items| && forall x :: x in p <==> x in items
  {
    PermutationsExact(items, p);
    assert |p| == |multiset(p)| == |items|;
    assert forall x :: x in p <==> x in multiset(p);
    assert forall x :: x in items <==> x in multiset(items);
  }

  // ----- the N-degree search -----

  /** An issuer that has issued only blank nodes of the graph. */
  ghost predicate GoodOrder(ts: seq<Triple>, order: seq<string>) {
    OrderIn(BNodes(ts), order)
  }

  /** How many identifiers an issuer can still issue. */
  ghost function Unissued(ts: seq<Triple>, order: seq<string>): (r: nat)
    requires GoodOrder(ts, order)
    ensures r == |BNodes(ts)| - |order|
  {
    NoDuplicatesBound(order, BNodes(ts));
    |BNodes(ts)| - |order|
  }

  /** A path under construction: its text, the copied issuer's order, and the identifiers first
      issued on this path, which will be searched recursively. */
  datatype Trail = Trail(path: string, order: seq<string>, recursion: seq<string>)

  function VisitStep(canon: seq<string>, tr: Trail, related: string): Trail {
    if related in canon then tr.(path := tr.path + "_:" + CanonicalLabel(canon, related))
    else
      var order := Issue(tr.order, related);
      Trail(tr.path + "_:" + TemporaryLabel(order, related), order,
            if related in tr.order then tr.recursion else tr.recursion + [related])
  }

  function Visit(canon: seq<string>, order: seq<string>, perm: seq<string>): (tr: Trail)
    ensures order <= tr.order
    ensures forall x :: x in tr.order ==> x in order || x in perm
    ensures forall x :: x in tr.recursion ==> x in tr.order && x !in order
    ensures NoDuplicates(order) ==> NoDuplicates(tr.order)
    ensures |tr.order| == |order| + |tr.recursion|
  {
    if perm == [] then Trail("", order, [])
    else VisitStep(canon, Visit(canon, order, perm[..|perm| - 1]), perm[|perm| - 1])
  }

  /** The outcome of one path, of one group, or of one whole search: a text and an issuer order. */
  datatype Outcome = Outcome(text: string, order: seq<string>)

  datatype Choice = Nothing | Best(outcome: Outcome)

  function Choose(best: Choice, o: Outcome): Choice {
    if best.Nothing? || Less(o.text, best.outcome.text) then Best(o) else best
  }

  /** The path text after the first k recursive searches. */
  ghost function Gossip(c: Context, tr: Trail, k: nat): (o: Outcome)
    requires GoodOrder(c.ts, tr.order) && k <= |tr.recursion|
    requires forall x :: x in tr.recursion ==> x in tr.order
    ensures GoodOrder(c.ts, o.order) && tr.order <= o.order
    ensures tr.path <= o.text
    decreases Unissued(c.ts, tr.order), 7, k
  {
    if k == 0 then Outcome(tr.path, tr.order)
    else
      var before := Gossip(c, tr, k - 1);
      var related := tr.recursion[k - 1];
      assert related in tr.recursion && related in tr.order;
      assert related in before.order[..|tr.order|];
      var found := NDegree(c, related, before.order);
      Outcome(before.text + "_:" + TemporaryLabel(before.order, related) + "<" + found.text + ">", found.order)
  }

  /** The full path of one permutation. */
  ghost function RunPermutation(c: Context, order: seq<string>, perm: seq<string>): (o: Outcome)
    requires GoodOrder(c.ts, order) && forall x :: x in perm ==> x in BNodes(c.ts)
    ensures GoodOrder(c.ts, o.order) && order <= o.order
    decreases Unissued(c.ts, order), 2
  {
    var tr := Visit(c.canon, order, perm);
    assert Elements(tr.order) <= BNodes(c.ts);
    if tr.recursion == [] then Outcome(tr.path, tr.order)
    else
      assert Unissued(c.ts, tr.order) < Unissued(c.ts, order);
      Gossip(c, tr, |tr.recursion|)
  }

  /** The least path among the first k permutations; the earliest one when paths are equal. */
  ghost function BestOf(c: Context, order: seq<string>, perms: seq<seq<string>>, k: nat): (best: Choice)
    requires GoodOrder(c.ts, order) && k <= |perms|
    requires forall p, x :: p in perms && x in p ==> x in BNodes(c.ts)
    ensures best.Best? <==> k > 0
    ensures best.Best? ==> GoodOrder(c.ts, best.outcome.order) && order <= best.outcome.order
    decreases Unissued(c.ts, order), 3, k
  {
    if k == 0 then Nothing
    else Choose(BestOf(c, order, perms, k - 1), RunPermutation(c, order, perms[k - 1]))
  }

  ghost function ResolveGroup(c: Context, order: seq<string>, group: seq<string>): (o: Outcome)
    requires GoodOrder(c.ts, order) && forall x :: x in group ==> x in BNodes(c.ts)
    ensures GoodOrder(c.ts, o.order) && order <= o.order
    decreases Unissued(c.ts, order), 4
  {
    var perms := Permutations(group);
    PermutationsInNodes(c.ts, group);
    PermutationsExact(group, group);
    BestOf(c, order, perms, |perms|).outcome
  }

  lemma PermutationsInNodes(ts: seq<Triple>, group: seq<string>)
    requires forall x :: x in group ==> x in BNodes(ts)
    ensures forall p, x :: p in Permutations(group) && x in p ==> x in BNodes(ts)
  {
    forall p, x | p in Permutations(group) && x in p ensures x in BNodes(ts) {
      PermutationMembers(group, p);
    }
  }

  /** Data to hash and issuer order after the first k groups in hash order. */
  ghost function ResolveGroups(c: Context, order: seq<string>, g: Groups, hashes: seq<string>, k: nat): (o: Outcome)
    requires GoodOrder(c.ts, order) && GoodGroups(c.ts, g) && k <= |hashes|
    requires forall h :: h in hashes ==> h in g
    ensures GoodOrder(c.ts, o.order) && order <= o.order
    decreases Unissued(c.ts, order), 5, k
  {
    if k == 0 then Outcome("", order)
    else
      var before := ResolveGroups(c, order, g, hashes, k - 1);
      assert hashes[k - 1] in g;
      var chosen := ResolveGroup(c, before.order, g[hashes[k - 1]]);
      Outcome(before.text + hashes[k - 1] + chosen.text, chosen.order)
  }

  /** Hash N-Degree Quads (RDFC-1.0, section 4.8): the hash and the issuer it returns. */
  ghost function NDegree(c: Context, id: string, order: seq<string>): (o: Outcome)
    requires GoodOrder(c.ts, order)
    ensures GoodOrder(c.ts, o.order) && order <= o.order
    decreases Unissued(c.ts, order), 6, 0
  {
    var g := GroupsOf(c, order, id, QuadsOf(c.ts, id));
    var hashes := Ascending(g.Keys);
    assert forall h :: h in hashes ==> h in Elements(hashes);
    var o := ResolveGroups(c, order, g, hashes, |hashes|);
    Outcome(c.sha(o.text), o.order)
  }

  // ----- how many searches that takes -----

  /** The searches of the first k recursive steps of one path. */
  ghost function PathCalls(c: Context, tr: Trail, k: nat): nat
    requires GoodOrder(c.ts, tr.order) && k <= |tr.recursion|
    requires forall x :: x in tr.recursion ==> x in tr.order
    decreases Unissued(c.ts, tr.order), 7, k
  {
    if k == 0 then 0
    else
      var before := Gossip(c, tr, k - 1);
      PathCalls(c, tr, k - 1) + SearchCalls(c, tr.recursion[k - 1], before.order)
  }

  ghost function RunCalls(c: Context, order: seq<string>, perm: seq<string>): nat
    requires GoodOrder(c.ts, order) && forall x :: x in perm ==> x in BNodes(c.ts)
    decreases Unissued(c.ts, order), 2
  {
    var tr := Visit(c.canon, order, perm);
    assert Elements(tr.order) <= BNodes(c.ts);
    if tr.recursion == [] then 0
    else
      assert Unissued(c.ts, tr.order) < Unissued(c.ts, order);
      PathCalls(c, tr, |tr.recursion|)
  }

  /** Those of the first k permutations, all followed to their end. */
  ghost function PermsCalls(c: Context, order: seq<string>, perms: seq<seq<string>>, k: nat): nat
    requires GoodOrder(c.ts, order) && k <= |perms|
    requires forall p, x :: p in perms && x in p ==> x in BNodes(c.ts)
    decreases Unissued(c.ts, order), 3, k
  {
    if k == 0 then 0 else PermsCalls(c, order, perms, k - 1) + RunCalls(c, order, perms[k - 1])
  }

  ghost function GroupCalls(c: Context, order: seq<string>, group: seq<string>): nat
    requires GoodOrder(c.ts, order) && forall x :: x in group ==> x in BNodes(c.ts)
    decreases Unissued(c.ts, order), 4
  {
    PermutationsInNodes(c.ts, group);
    PermsCalls(c, order, Permutations(group), |Permutations(group)|)
  }

  ghost function GroupsCalls(c: Context, order: seq<string>, g: Groups, hashes: seq<string>, k: nat): nat
    requires GoodOrder(c.ts, order) && GoodGroups(c.ts, g) && k <= |hashes|
    requires forall h :: h in hashes ==> h in g
    decreases Unissued(c.ts, order), 5, k
  {
    if k == 0 then 0
    else
      var before := ResolveGroups(c, order, g, hashes, k - 1);
      assert hashes[k - 1] in g;
      GroupsCalls(c, order, g, hashes, k - 1) + GroupCalls(c, before.order, g[hashes[k - 1]])
  }

  /** The searches one search comes to, itself included, when no path is abandoned. */
  ghost function SearchCalls(c: Context, id: string, order: seq<string>): nat
    requires GoodOrder(c.ts, order)
    decreases Unissued(c.ts, order), 6, 0
  {
    var g := GroupsOf(c, order, id, QuadsOf(c.ts, id));
    var hashes := Ascending(g.Keys);
    assert forall h :: h in hashes ==> h in Elements(hashes);
    1 + GroupsCalls(c, order, g, hashes, |hashes|)
  }

  lemma PathCallsStart(c: Context, tr: Trail)
    requires GoodOrder(c.ts, tr.order) && forall x :: x in tr.recursion ==> x in tr.order
    ensures PathCalls(c, tr, 0) == 0
  {
  }

  lemma PathCallsStep(c: Context, tr: Trail, k: nat)
    requires GoodOrder(c.ts, tr.order) && k < |tr.recursion|
    requires forall x :: x in tr.recursion ==> x in tr.order
    ensures PathCalls(c, tr, k + 1) == PathCalls(c, tr, k) + SearchCalls(c, tr.recursion[k], Gossip(c, tr, k).order)
  {
    hide SearchCalls, Gossip, OrderIn;
  }

  lemma {:induction false} PathCallsGrow(c: Context, tr: Trail, k: nat, n: nat)
    requires GoodOrder(c.ts, tr.order) && k <= n <= |tr.recursion|
    requires forall x :: x in tr.recursion ==> x in tr.order
    ensures PathCalls(c, tr, k) <= PathCalls(c, tr, n)
    decreases n
  {
    hide PathCalls, SearchCalls, Gossip, OrderIn;
    if k < n {
      PathCallsGrow(c, tr, k, n - 1);
      PathCallsStep(c, tr, n - 1);
    }
  }

  lemma RunCallsIsPath(c: Context, order: seq<string>, perm: seq<string>)
    requires GoodOrder(c.ts, order) && forall x :: x in perm ==> x in BNodes(c.ts)
    ensures var tr := Visit(c.canon, order, perm);
      GoodOrder(c.ts, tr.order) && RunCalls(c, order, perm) == PathCalls(c, tr, |tr.recursion|)
  {
    var tr := Visit(c.canon, order, perm);
    assert Elements(tr.order) <= BNodes(c.ts);
    hide SearchCalls;
  }

  lemma PermsCallsStep(c: Context, order: seq<string>, perms: seq<seq<string>>, k: nat)
    requires GoodOrder(c.ts, order) && k < |perms|
    requires forall p, x :: p in perms && x in p ==> x in BNodes(c.ts)
    ensures PermsCalls(c, order, perms, 0) == 0
    ensures PermsCalls(c, order, perms, k + 1) == PermsCalls(c, order, perms, k) + RunCalls(c, order, perms[k])
  {
    hide RunCalls, OrderIn;
  }

  lemma {:induction false} PermsCallsGrow(c: Context, order: seq<string>, perms: seq<seq<string>>, k: nat, n: nat)
    requires GoodOrder(c.ts, order) && k <= n <= |perms|
    requires forall p, x :: p in perms && x in p ==> x in BNodes(c.ts)
    ensures PermsCalls(c, order, perms, k) <= PermsCalls(c, order, perms, n)
    decreases n
  {
    hide RunCalls, OrderIn;
    if k < n { PermsCallsGrow(c, order, perms, k, n - 1); }
  }

  lemma PermsCallsNext(c: Context, order: seq<string>, perms: seq<seq<string>>, k: nat)
    requires GoodOrder(c.ts, order) && k < |perms|
    requires forall p, x :: p in perms && x in p ==> x in BNodes(c.ts)
    ensures PermsCalls(c, order, perms, 0) == 0
    ensures PermsCalls(c, order, perms, k + 1) == PermsCalls(c, order, perms, k) + RunCalls(c, order, perms[k])
    ensures PermsCalls(c, order, perms, k + 1) <= PermsCalls(c, order, perms, |perms|)
  {
    hide PermsCalls, RunCalls, OrderIn;
    PermsCallsStep(c, order, perms, k);
    PermsCallsGrow(c, order, perms, k + 1, |perms|);
  }

  lemma GroupsCallsNext(c: Context, order: seq<string>, g: Groups, hashes: seq<string>, k: nat)
    requires GoodOrder(c.ts, order) && GoodGroups(c.ts, g) && k < |hashes|
    requires forall h :: h in hashes ==> h in g
    ensures hashes[k] in g
    ensures GroupsCalls(c, order, g, hashes, k) + GroupCalls(c, ResolveGroups(c, order, g, hashes, k).order, g[hashes[k]])
      == GroupsCalls(c, order, g, hashes, k + 1) <= GroupsCalls(c, order, g, hashes, |hashes|)
  {
    hide GroupsCalls, GroupCalls, OrderIn, ResolveGroups;
    GroupsCallsStep(c, order, g, hashes, k);
    GroupsCallsGrow(c, order, g, hashes, k + 1, |hashes|);
  }

  lemma GroupsCallsStep(c: Context, order: seq<string>, g: Groups, hashes: seq<string>, k: nat)
    requires GoodOrder(c.ts, order) && GoodGroups(c.ts, g) && k < |hashes|
    requires forall h :: h in hashes ==> h in g
    ensures hashes[k] in g
    ensures GroupsCalls(c, order, g, hashes, k + 1)
      == GroupsCalls(c, order, g, hashes, k) + GroupCalls(c, ResolveGroups(c, order, g, hashes, k).order, g[hashes[k]])
  {
    hide GroupCalls, OrderIn, ResolveGroups;
    assert hashes[k] in g;
  }

  lemma {:induction false} GroupsCallsGrow(c: Context, order: seq<string>, g: Groups, hashes: seq<string>, k: nat, n: nat)
    requires GoodOrder(c.ts, order) && GoodGroups(c.ts, g) && k <= n <= |hashes|
    requires forall h :: h in hashes ==> h in g
    ensures GroupsCalls(c, order, g, hashes, k) <= GroupsCalls(c, order, g, hashes, n)
    decreases n
  {
    hide GroupsCalls, GroupCalls, OrderIn, ResolveGroups;
    if k < n {
      GroupsCallsGrow(c, order, g, hashes, k, n - 1);
      GroupsCallsStep(c, order, g, hashes, n - 1);
    }
  }

  lemma GroupsCallsStart(c: Context, order: seq<string>, g: Groups, hashes: seq<string>)
    requires GoodOrder(c.ts, order) && GoodGroups(c.ts, g) && forall h :: h in hashes ==> h in g
    ensures GroupsCalls(c, order, g, hashes, 0) == 0
  {
  }

  // ----- paths only grow -----

  lemma VisitUnfolds(canon: seq<string>, order: seq<string>, perm: seq<string>, k: nat)
    requires k < |perm|
    ensures Visit(canon, order, perm[..k + 1]) == VisitStep(canon, Visit(canon, order, perm[..k]), perm[k])
  {
    assert perm[..k + 1][..k] == perm[..k];
  }

  lemma StepGrows(canon: seq<string>, tr: Trail, related: string)
    ensures tr.path <= VisitStep(canon, tr, related).path && VisitStep(canon, tr, related).path != ""
  {
  }

  lemma {:induction false} VisitGrows(canon: seq<string>, order: seq<string>, perm: seq<string>, k: nat)
    requires k <= |perm|
    ensures Visit(canon, order, perm[..k]).path <= Visit(canon, order, perm).path
    ensures k > 0 ==> Visit(canon, order, perm[..k]).path != ""
    decreases |perm|
  {
    hide Visit, VisitStep;
    if perm != [] {
      var n := |perm| - 1;
      VisitUnfolds(canon, order, perm, n);
      StepGrows(canon, Visit(canon, order, perm[..n]), perm[n]);
      assert perm[..n + 1] == perm;
      if k <= n {
        assert perm[..n][..k] == perm[..k];
        VisitGrows(canon, order, perm[..n], k);
      }
    } else {
      assert perm[..k] == perm;
    }
  }

  lemma RunPermutationIsGossip(c: Context, order: seq<string>, perm: seq<string>)
    requires GoodOrder(c.ts, order) && forall x :: x in perm ==> x in BNodes(c.ts)
    ensures var tr := Visit(c.canon, order, perm);
            GoodOrder(c.ts, tr.order) && RunPermutation(c, order, perm) == Gossip(c, tr, |tr.recursion|)
  {
    hide NDegree;
    var tr := Visit(c.canon, order, perm);
    assert Elements(tr.order) <= BNodes(c.ts);
  }

  lemma GossipStart(c: Context, tr: Trail)
    requires GoodOrder(c.ts, tr.order) && forall x :: x in tr.recursion ==> x in tr.order
    ensures Gossip(c, tr, 0) == Outcome(tr.path, tr.order)
  {
  }

  lemma GossipStep(c: Context, tr: Trail, k: nat)
    requires GoodOrder(c.ts, tr.order) && k < |tr.recursion|
    requires forall x :: x in tr.recursion ==> x in tr.order
    ensures var before, related := Gossip(c, tr, k), tr.recursion[k];
            && related in before.order
            && Gossip(c, tr, k + 1) == Outcome(before.text + "_:" + TemporaryLabel(before.order, related)
                 + "<" + NDegree(c, related, before.order).text + ">", NDegree(c, related, before.order).order)
  {
    hide NDegree, OrderIn, IssuedLabel;
    var before, related := Gossip(c, tr, k), tr.recursion[k];
    assert related in tr.recursion && related in tr.order && related in before.order[..|tr.order|];
  }

  lemma GossipStepGrows(c: Context, tr: Trail, k: nat)
    requires GoodOrder(c.ts, tr.order) && 0 < k <= |tr.recursion|
    requires forall x :: x in tr.recursion ==> x in tr.order
    ensures Gossip(c, tr, k - 1).text <= Gossip(c, tr, k).text
  {
    hide Gossip, NDegree, OrderIn, IssuedLabel;
    GossipStep(c, tr, k - 1);
  }

  lemma {:induction false} GossipGrows(c: Context, tr: Trail, k: nat, n: nat)
    requires GoodOrder(c.ts, tr.order) && k <= n <= |tr.recursion|
    requires forall x :: x in tr.recursion ==> x in tr.order
    ensures Gossip(c, tr, k).text <= Gossip(c, tr, n).text
    decreases n
  {
    hide Gossip, OrderIn;
    if k < n {
      GossipGrows(c, tr, k, n - 1);
      GossipStepGrows(c, tr, n);
    }
  }

  /** A path abandoned while visiting would have stayed greater than the best one. */
  lemma AbandonedVisit(c: Context, order: seq<string>, perm: seq<string>, k: nat, best: string)
    requires GoodOrder(c.ts, order) && forall x :: x in perm ==> x in BNodes(c.ts)
    requires k <= |perm| && Less(best, Visit(c.canon, order, perm[..k]).path)
    ensures Less(best, RunPermutation(c, order, perm).text)
    ensures !Less(RunPermutation(c, order, perm).text, best)
  {
    VisitGrows(c.canon, order, perm, k);
    var tr := Visit(c.canon, order, perm);
    assert Elements(tr.order) <= BNodes(c.ts);
    assert tr.path <= RunPermutation(c, order, perm).text;
    GreaterStaysGreater(best, Visit(c.canon, order, perm[..k]).path, RunPermutation(c, order, perm).text);
  }

  /** The same for a path abandoned between two recursive searches. */
  lemma AbandonedGossip(c: Context, tr: Trail, k: nat, best: string)
    requires GoodOrder(c.ts, tr.order) && k <= |tr.recursion|
    requires forall x :: x in tr.recursion ==> x in tr.order
    requires Less(best, Gossip(c, tr, k).text)
    ensures Less(best, Gossip(c, tr, |tr.recursion|).text)
  {
    hide Gossip, OrderIn;
    GossipGrows(c, tr, k, |tr.recursion|);
    GreaterStaysGreater(best, Gossip(c, tr, k).text, Gossip(c, tr, |tr.recursion|).text);
  }

  lemma PathNotEmpty(c: Context, order: seq<string>, perm: seq<string>)
    requires GoodOrder(c.ts, order) && forall x :: x in perm ==> x in BNodes(c.ts)
    requires perm != []
    ensures RunPermutation(c, order, perm).text != ""
  {
    VisitGrows(c.canon, order, perm, |perm|);
    assert perm[..|perm|] == perm;
    var tr := Visit(c.canon, order, perm);
    assert Elements(tr.order) <= BNodes(c.ts);
  }
}
