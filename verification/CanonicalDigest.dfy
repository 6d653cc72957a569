/**
 The order in which canonical identifiers are issued, the canonical document and its digest, and
 what equal digests prove.
 */
module CanonicalDigest {
  import opened Sequences
  import opened Text
  import opened Terms
  import opened Isomorphism
  import opened CanonicalForm
  import opened Issuing

  // ----- steps 3 and 4: hash classes, unique hashes first -----

  ghost function HashClass(sha: string -> string, ts: seq<Triple>, h: string): set<string> {
    set b | b in BNodes(ts) && FirstDegree(sha, ts, b) == h
  }

  ghost function Hashes(sha: string -> string, ts: seq<Triple>): set<string> {
    set b | b in BNodes(ts) :: FirstDegree(sha, ts, b)
  }

  /** The blank nodes grouped by first-degree hash, in hash order. */
  ghost function Classes(sha: string -> string, ts: seq<Triple>): (cs: seq<set<string>>)
    ensures |cs| == |Ascending(Hashes(sha, ts))|
    ensures forall i :: 0 <= i < |cs| ==> cs[i] == HashClass(sha, ts, Ascending(Hashes(sha, ts))[i])
  {
    var hs := Ascending(Hashes(sha, ts));
    seq(|hs|, i requires 0 <= i < |hs| => HashClass(sha, ts, hs[i]))
  }

  lemma ClassesCover(sha: string -> string, ts: seq<Triple>)
    ensures Within(BNodes(ts), Classes(sha, ts)) && Covers(BNodes(ts), Classes(sha, ts))
  {
    var hs, cs := Ascending(Hashes(sha, ts)), Classes(sha, ts);
    forall b | b in BNodes(ts) ensures exists i :: 0 <= i < |cs| && b in cs[i] {
      assert FirstDegree(sha, ts, b) in Elements(hs);
      var i := IndexOf(hs, FirstDegree(sha, ts, b));
      assert b in cs[i];
    }
  }

  // ----- step 5: ties by N-degree hash -----

  /** The N-degree outcomes of the first k members that have no canonical identifier yet; each
      search starts from a temporary issuer that has issued just that member. */
  ghost function Results(c: Context, group: seq<string>, k: nat): (rs: seq<Outcome>)
    requires k <= |group| && Elements(group) <= BNodes(c.ts)
    ensures forall i :: 0 <= i < |rs| ==> GoodOrder(c.ts, rs[i].order)
  {
    if k == 0 then []
    else if group[k - 1] in c.canon then Results(c, group, k - 1)
    else
      assert Elements([group[k - 1]]) == {group[k - 1]};
      Results(c, group, k - 1) + [NDegree(c, group[k - 1], [group[k - 1]])]
  }

  ghost predicate SomeIssues(rs: seq<Outcome>, b: string) {
    exists i :: 0 <= i < |rs| && b in rs[i].order
  }

  lemma {:induction false} ResultsIssue(c: Context, group: seq<string>, k: nat, i: nat)
    requires i < k <= |group| && Elements(group) <= BNodes(c.ts)
    requires group[i] !in c.canon
    ensures SomeIssues(Results(c, group, k), group[i])
  {
    hide NDegree;
    var rs := Results(c, group, k);
    if i < k - 1 {
      ResultsIssue(c, group, k - 1, i);
      var before := Results(c, group, k - 1);
      var j :| 0 <= j < |before| && group[i] in before[j].order;
      assert rs[j] == before[j];
    } else {
      assert Elements([group[i]]) == {group[i]};
      var r := NDegree(c, group[i], [group[i]]);
      assert rs[|rs| - 1] == r && r.order[0] == group[i];
    }
  }

  function InsertOutcome(x: Outcome, xs: seq<Outcome>): (r: seq<Outcome>)
    ensures multiset(r) == multiset(xs) + multiset{x}
  {
    if xs == [] then [x]
    else if Less(xs[0].text, x.text) then
      assert xs == [xs[0]] + xs[1..];
      [xs[0]] + InsertOutcome(x, xs[1..])
    else [x] + xs
  }

  /** Stable sort by hash. */
  function SortOutcomes(xs: seq<Outcome>): (r: seq<Outcome>)
    ensures multiset(r) == multiset(xs)
  {
    if xs == [] then []
    else
      assert xs == [xs[0]] + xs[1..];
      InsertOutcome(xs[0], SortOutcomes(xs[1..]))
  }

  ghost function IssueOutcomes(ts: seq<Triple>, canon: seq<string>, rs: seq<Outcome>, k: nat): (order: seq<string>)
    requires GoodOrder(ts, canon) && k <= |rs|
    requires forall i :: 0 <= i < |rs| ==> GoodOrder(ts, rs[i].order)
    ensures GoodOrder(ts, order) && canon <= order
  {
    if k == 0 then canon
    else
      var before := IssueOutcomes(ts, canon, rs, k - 1);
      assert GoodOrder(ts, rs[k - 1].order);
      IssueAll(before, rs[k - 1].order)
  }

  lemma {:induction false} IssueOutcomesIssues(ts: seq<Triple>, canon: seq<string>, rs: seq<Outcome>, k: nat, i: nat, b: string)
    requires GoodOrder(ts, canon) && i < k <= |rs|
    requires forall i :: 0 <= i < |rs| ==> GoodOrder(ts, rs[i].order)
    requires b in rs[i].order
    ensures b in Elements(IssueOutcomes(ts, canon, rs, k))
  {
    var before := IssueOutcomes(ts, canon, rs, k - 1);
    if i < k - 1 {
      IssueOutcomesIssues(ts, canon, rs, k - 1, i, b);
    } else {
      assert b in Elements(rs[k - 1].order);
    }
  }

  lemma SameMembers<T>(xs: seq<T>, ys: seq<T>)
    requires multiset(xs) == multiset(ys)
    ensures forall x :: x in xs <==> x in ys
  {
    assert forall x :: x in xs <==> x in multiset(xs);
    assert forall x :: x in ys <==> x in multiset(ys);
  }

  lemma SortKeepsOutcomes(ts: seq<Triple>, rs: seq<Outcome>)
    ensures (forall i :: 0 <= i < |rs| ==> GoodOrder(ts, rs[i].order))
        ==> forall i :: 0 <= i < |SortOutcomes(rs)| ==> GoodOrder(ts, SortOutcomes(rs)[i].order)
    ensures forall b :: SomeIssues(rs, b) ==> SomeIssues(SortOutcomes(rs), b)
  {
    hide GoodOrder, SortOutcomes;
    var sorted := SortOutcomes(rs);
    SameMembers(sorted, rs);
    forall i | 0 <= i < |sorted| ensures sorted[i] in rs {
      assert sorted[i] in sorted;
    }
    forall b | SomeIssues(rs, b) ensures SomeIssues(sorted, b) {
      var j :| 0 <= j < |rs| && b in rs[j].order;
      assert rs[j] in sorted;
    }
  }

  ghost function ResolveClass(sha: string -> string, ts: seq<Triple>, canon: seq<string>, group: seq<string>): (order: seq<string>)
    requires GoodOrder(ts, canon) && Elements(group) <= BNodes(ts)
    ensures GoodOrder(ts, order) && canon <= order
  {
    var rs := Results(Context(sha, ts, canon), group, |group|);
    SortKeepsOutcomes(ts, rs);
    IssueOutcomes(ts, canon, SortOutcomes(rs), |SortOutcomes(rs)|)
  }

  lemma ResolveClassIssues(sha: string -> string, ts: seq<Triple>, canon: seq<string>, group: seq<string>, b: string)
    requires GoodOrder(ts, canon) && Elements(group) <= BNodes(ts) && b in group
    ensures b in Elements(ResolveClass(sha, ts, canon, group))
  {
    var order := ResolveClass(sha, ts, canon, group);
    if b in canon {
      PrefixElements(canon, order);
      assert b in Elements(canon);
    } else {
      var c := Context(sha, ts, canon);
      var rs := Results(c, group, |group|);
      ResultsIssue(c, group, |group|, IndexOf(group, b));
      SortKeepsOutcomes(ts, rs);
      var sorted := SortOutcomes(rs);
      assert SomeIssues(sorted, b);
      var i :| 0 <= i < |sorted| && b in sorted[i].order;
      IssueOutcomesIssues(ts, canon, sorted, |sorted|, i, b);
    }
  }

  /** Resolving one tied class, as a function of the order so far. */
  ghost function Resolver(sha: string -> string, ts: seq<Triple>): (seq<string>, seq<string>) -> seq<string> {
    (canon: seq<string>, group: seq<string>) =>
      if GoodOrder(ts, canon) && Elements(group) <= BNodes(ts)
      then ResolveClass(sha, ts, canon, group) else canon
  }

  lemma ResolverResolves(sha: string -> string, ts: seq<Triple>)
    ensures Resolves(BNodes(ts), Resolver(sha, ts))
  {
    forall canon, group | GoodOrder(ts, canon) && Elements(group) <= BNodes(ts)
      ensures var r := Resolver(sha, ts)(canon, group);
              GoodOrder(ts, r) && canon <= r && Elements(group) <= Elements(r)
    {
      forall b | b in Elements(group) ensures b in Elements(ResolveClass(sha, ts, canon, group)) {
        ResolveClassIssues(sha, ts, canon, group, b);
      }
    }
  }

  /** The order in which all blank nodes receive canonical identifiers. */
  ghost function CanonicalOrder(sha: string -> string, ts: seq<Triple>): seq<string> {
    var cs := Classes(sha, ts);
    var groups := TiedClasses(Ascending, cs, |cs|);
    FoldClasses(Resolver(sha, ts), IssueUniques(cs, |cs|), groups, |groups|)
  }

  lemma CanonicalOrderComplete(sha: string -> string, ts: seq<Triple>)
    ensures NoDuplicates(CanonicalOrder(sha, ts)) && Elements(CanonicalOrder(sha, ts)) == BNodes(ts)
  {
    ClassesCover(sha, ts);
    ResolverResolves(sha, ts);
    FoldIsComplete(Ascending, BNodes(ts), Resolver(sha, ts), Classes(sha, ts));
  }

  // ----- how many searches the ties take -----

  /** The searches for the first k members of a class. */
  ghost function ClassCalls(c: Context, group: seq<string>, k: nat): nat
    requires k <= |group| && Elements(group) <= BNodes(c.ts)
  {
    if k == 0 then 0
    else if group[k - 1] in c.canon then ClassCalls(c, group, k - 1)
    else
      assert Elements([group[k - 1]]) == {group[k - 1]};
      ClassCalls(c, group, k - 1) + SearchCalls(c, group[k - 1], [group[k - 1]])
  }

  lemma {:induction false} ClassCallsGrow(c: Context, group: seq<string>, k: nat, n: nat)
    requires k <= n <= |group| && Elements(group) <= BNodes(c.ts)
    ensures ClassCalls(c, group, k) <= ClassCalls(c, group, n)
    decreases n
  {
    hide SearchCalls, BNodes;
    if k < n { ClassCallsGrow(c, group, k, n - 1); }
  }

  /** The searches for the first k tied classes, each from the order the ones before it leave. */
  ghost function TiesCalls(sha: string -> string, ts: seq<Triple>, canon: seq<string>, groups: seq<seq<string>>, k: nat): nat
    requires k <= |groups|
  {
    if k == 0 then 0
    else
      var before := FoldClasses(Resolver(sha, ts), canon, groups, k - 1);
      TiesCalls(sha, ts, canon, groups, k - 1)
      + if GoodOrder(ts, before) && Elements(groups[k - 1]) <= BNodes(ts)
        then ClassCalls(Context(sha, ts, before), groups[k - 1], |groups[k - 1]|) else 0
  }

  lemma {:induction false} TiesCallsGrow(sha: string -> string, ts: seq<Triple>, canon: seq<string>, groups: seq<seq<string>>, k: nat, n: nat)
    requires k <= n <= |groups|
    ensures TiesCalls(sha, ts, canon, groups, k) <= TiesCalls(sha, ts, canon, groups, n)
    decreases n
  {
    hide ClassCalls, BNodes, FoldClasses, Resolver, OrderIn;
    if k < n { TiesCallsGrow(sha, ts, canon, groups, k, n - 1); }
  }

  /** All the searches of a graph, were none abandoned. */
  ghost function TotalCalls(sha: string -> string, ts: seq<Triple>): nat {
    var cs := Classes(sha, ts);
    var groups := TiedClasses(Ascending, cs, |cs|);
    TiesCalls(sha, ts, IssueUniques(cs, |cs|), groups, |groups|)
  }

  // ----- the canonical document -----

  ghost function CanonicalLabels(sha: string -> string, ts: seq<Triple>): map<string, string> {
    var order := CanonicalOrder(sha, ts);
    CanonicalOrderComplete(sha, ts);
    assert forall b :: b in BNodes(ts) ==> b in Elements(order);
    map b | b in BNodes(ts) :: CanonicalLabel(order, b)
  }

  ghost function CanonicalLines(sha: string -> string, ts: seq<Triple>): seq<string> {
    Sort(Lines(ts, CanonicalLabels(sha, ts)))
  }

  ghost function Document(sha: string -> string, ts: seq<Triple>): string {
    Concat(CanonicalLines(sha, ts))
  }

  ghost function Digest(sha: string -> string, ts: seq<Triple>): string {
    sha(Document(sha, ts))
  }

  /** c14n0 .. c14n(n-1). */
  function CanonicalNames(n: nat): set<string> {
    set i: nat | i < n :: "c14n" + Decimal(i)
  }

  lemma CanonicalLabelIsPlain(order: seq<string>, b: string)
    requires b in order
    ensures PlainLabel(CanonicalLabel(order, b))
  {
    assert forall c :: c in "c14n" ==> c != ' ' && c != '\n';
  }

  lemma LabelOfPosition(order: seq<string>, i: nat, j: nat)
    requires "c14n" + Decimal(i) == "c14n" + Decimal(j)
    ensures i == j
  {
    assert ("c14n" + Decimal(i))[4..] == Decimal(i);
    assert ("c14n" + Decimal(j))[4..] == Decimal(j);
    DecimalInjective(i, j);
  }

  /** The label map is a bijection from the input's blank nodes onto c14n0 .. c14n(n-1). In
      particular no blank node is left without a label. */
  lemma CanonicalLabelsBijective(sha: string -> string, ts: seq<Triple>)
    ensures Labelling(CanonicalLabels(sha, ts), ts)
    ensures CanonicalLabels(sha, ts).Values == CanonicalNames(|BNodes(ts)|)
  {
    var order, labels := CanonicalOrder(sha, ts), CanonicalLabels(sha, ts);
    CanonicalOrderComplete(sha, ts);
    OrderLabelsBijective(order, labels);
    CardinalityOfNoDuplicates(order);
  }

  lemma OrderLabelsBijective(order: seq<string>, labels: map<string, string>)
    requires NoDuplicates(order) && labels.Keys == Elements(order)
    requires forall b :: b in labels ==> b in order && labels[b] == CanonicalLabel(order, b)
    ensures Injective(labels) && forall b :: b in labels ==> PlainLabel(labels[b])
    ensures labels.Values == CanonicalNames(|order|)
  {
    forall b | b in labels ensures PlainLabel(labels[b]) {
      CanonicalLabelIsPlain(order, b);
    }
    forall x, y | x in labels && y in labels && labels[x] == labels[y] ensures x == y {
      LabelOfPosition(order, IndexOf(order, x), IndexOf(order, y));
    }
    var names := CanonicalNames(|order|);
    forall l | l in labels.Values ensures l in names {
      var b :| b in labels && labels[b] == l;
      assert l == "c14n" + Decimal(IndexOf(order, b));
    }
    forall l | l in names ensures l in labels.Values {
      var i: nat :| i < |order| && l == "c14n" + Decimal(i);
      assert order[i] in Elements(order);
      IndexOfUnique(order, i);
      assert labels[order[i]] == l;
    }
  }

  lemma CanonicalLinesAreLines(sha: string -> string, ts: seq<Triple>)
    requires WellFormedGraph(ts)
    ensures forall l :: l in CanonicalLines(sha, ts) ==> IsLine(l)
  {
    var labels := CanonicalLabels(sha, ts);
    CanonicalLabelsBijective(sha, ts);
    var ls := Lines(ts, labels);
    forall l | l in CanonicalLines(sha, ts) ensures IsLine(l) {
      assert l in multiset(Sort(ls));
      var i :| 0 <= i < |ls| && ls[i] == l;
      LabelledIsWellFormed(ts, labels, ts[i]);
      TripleIsLine(ts[i], Naming(labels));
    }
  }

  /** Equal canonical documents prove isomorphism, whatever the hash function, ties or not. */
  lemma EqualDocumentsMeanIsomorphic(sha: string -> string, a: seq<Triple>, b: seq<Triple>)
    requires WellFormedGraph(a) && WellFormedGraph(b)
    requires Document(sha, a) == Document(sha, b)
    ensures CanonicalLines(sha, a) == CanonicalLines(sha, b)
    ensures Isomorphic(a, b)
  {
    CanonicalLinesAreLines(sha, a);
    CanonicalLinesAreLines(sha, b);
    LinesOfDocument(CanonicalLines(sha, a), CanonicalLines(sha, b));
    var la, lb := CanonicalLabels(sha, a), CanonicalLabels(sha, b);
    CanonicalLabelsBijective(sha, a);
    CanonicalLabelsBijective(sha, b);
    SortCanonical(Lines(a, la), Lines(b, lb));
    EqualLinesMeanIsomorphic(a, la, b, lb);
  }

  /** SHA-256 does not collide on the canonical documents of the two graphs. */
  ghost predicate NoCollision(sha: string -> string, a: seq<Triple>, b: seq<Triple>) {
    Digest(sha, a) == Digest(sha, b) ==> Document(sha, a) == Document(sha, b)
  }

  /** m carries one order onto the other, position by position. */
  ghost predicate Carries(m: map<string, string>, oa: seq<string>, ob: seq<string>) {
    |oa| == |ob| && forall i :: 0 <= i < |oa| ==> oa[i] in m && m[oa[i]] == ob[i]
  }

  lemma CarriedLabelsAgree(m: map<string, string>, oa: seq<string>, ob: seq<string>, x: string)
    requires Carries(m, oa, ob) && NoDuplicates(ob) && x in oa
    ensures x in m && m[x] in ob && CanonicalLabel(oa, x) == CanonicalLabel(ob, m[x])
  {
    var i := IndexOf(oa, x);
    IndexOfUnique(ob, i);
  }

  lemma LabelOf(sha: string -> string, ts: seq<Triple>, b: string)
    requires b in BNodes(ts)
    ensures b in CanonicalOrder(sha, ts) && b in CanonicalLabels(sha, ts)
    ensures CanonicalLabels(sha, ts)[b] == CanonicalLabel(CanonicalOrder(sha, ts), b)
  {
    CanonicalOrderComplete(sha, ts);
    assert b in Elements(CanonicalOrder(sha, ts));
  }

  /** If an isomorphism carries one canonical order onto the other, the documents are equal. */
  lemma CarriedOrdersPrintAlike(sha: string -> string, a: seq<Triple>, b: seq<Triple>, m: map<string, string>)
    requires WellFormedGraph(a) && WellFormedGraph(b)
    requires IsIsomorphism(m, a, b)
    requires Carries(m, CanonicalOrder(sha, a), CanonicalOrder(sha, b))
    ensures CanonicalLines(sha, a) == CanonicalLines(sha, b)
  {
    hide CanonicalOrder, RenamedAll, NormAll, Lines, Sort;
    var la, lb := CanonicalLabels(sha, a), CanonicalLabels(sha, b);
    CanonicalLabelsBijective(sha, a);
    CanonicalLabelsBijective(sha, b);
    forall x | x in m ensures m[x] in lb && la[x] == lb[m[x]] {
      assert m[x] in m.Values;
      CanonicalOrderComplete(sha, b);
      LabelOf(sha, a, x);
      LabelOf(sha, b, m[x]);
      CarriedLabelsAgree(m, CanonicalOrder(sha, a), CanonicalOrder(sha, b), x);
    }
    AgreeingLabelsPrintAlike(a, la, b, lb, m);
    SortCanonical(Lines(a, la), Lines(b, lb));
  }
}
