/**
 Binary relations on node ids: converse, composition, walks, and the bounded and unbounded transitive
 closures as sets of pairs (SPARQL 1.1 Query, sections 9.3 and 18.4).
 */
module Relations {

  datatype Pair = Pair(src: int, dst: int)

  type Rel = set<Pair>

  function Converse(r: Rel): (c: Rel)
    ensures forall x, y :: Pair(x, y) in c <==> Pair(y, x) in r
  {
    set p | p in r :: Pair(p.dst, p.src)
  }

  function Compose(r: Rel, q: Rel): Rel {
    set a, b | a in r && b in q && a.dst == b.src :: Pair(a.src, b.dst)
  }

  function ZeroLength(nodes: set<int>): (z: Rel)
    ensures forall x, y :: Pair(x, y) in z <==> x in nodes && x == y
  {
    set n | n in nodes :: Pair(n, n)
  }

  /** A walk visits nodes along edges; its length is the number of edges. */
  ghost predicate IsWalk(r: Rel, w: seq<int>) {
    |w| >= 1 && forall i :: 0 < i < |w| ==> Pair(w[i - 1], w[i]) in r
  }

  ghost predicate Joins(r: Rel, x: int, y: int, n: nat) {
    exists w :: IsWalk(r, w) && |w| == n + 1 && w[0] == x && w[n] == y
  }

  /** y is the end of a walk of one to k edges from x. */
  ghost predicate Reaches(r: Rel, x: int, y: int, k: nat) {
    exists n :: 1 <= n <= k && Joins(r, x, y, n)
  }

  ghost predicate Reachable(r: Rel, x: int, y: int) {
    exists k: nat :: Reaches(r, x, y, k)
  }

  ghost function Within(r: Rel, k: nat): Rel {
    set a, b | a in r && b in r && Reaches(r, a.src, b.dst, k) :: Pair(a.src, b.dst)
  }

  /** The transitive closure. */
  ghost function Plus(r: Rel): Rel {
    set a, b | a in r && b in r && Reachable(r, a.src, b.dst) :: Pair(a.src, b.dst)
  }

  lemma WalkEdges(r: Rel, x: int, y: int, k: nat)
    requires Reaches(r, x, y, k)
    ensures exists a, b :: a in r && b in r && a.src == x && b.dst == y
  {
    var n :| 1 <= n <= k && Joins(r, x, y, n);
    var w :| IsWalk(r, w) && |w| == n + 1 && w[0] == x && w[n] == y;
    assert Pair(w[1 - 1], w[1]) in r && Pair(w[n - 1], w[n]) in r;
  }

  lemma WithinMeaning(r: Rel, k: nat, x: int, y: int)
    ensures Pair(x, y) in Within(r, k) <==> Reaches(r, x, y, k)
  {
    hide Reaches;
    if Reaches(r, x, y, k) { WalkEdges(r, x, y, k); }
  }

  lemma PlusMeaning(r: Rel, x: int, y: int)
    ensures Pair(x, y) in Plus(r) <==> Reachable(r, x, y)
  {
    hide Reaches;
    if k: nat :| Reaches(r, x, y, k) { WalkEdges(r, x, y, k); }
  }

  lemma SameRelation(r: Rel, q: Rel)
    requires forall x, y :: Pair(x, y) in r <==> Pair(x, y) in q
    ensures r == q
  {
    forall p ensures p in r <==> p in q { assert p == Pair(p.src, p.dst); }
  }

  // ----- reversing walks -----

  function Backwards(w: seq<int>): (v: seq<int>)
    ensures |v| == |w| && forall i :: 0 <= i < |w| ==> v[i] == w[|w| - 1 - i]
  {
    seq(|w|, i requires 0 <= i < |w| => w[|w| - 1 - i])
  }

  lemma JoinsConverse(r: Rel, x: int, y: int, n: nat)
    requires Joins(r, x, y, n)
    ensures Joins(Converse(r), y, x, n)
  {
    var w :| IsWalk(r, w) && |w| == n + 1 && w[0] == x && w[n] == y;
    var v := Backwards(w);
    forall i | 0 < i < |v| ensures Pair(v[i - 1], v[i]) in Converse(r) {
      var j := n + 1 - i;
      assert Pair(w[j - 1], w[j]) in r;
    }
    assert IsWalk(Converse(r), v) && v[0] == y && v[n] == x;
  }

  lemma ConverseTwice(r: Rel)
    ensures Converse(Converse(r)) == r
  {
  }

  lemma ReachesConverse(r: Rel, x: int, y: int, k: nat)
    ensures Reaches(r, x, y, k) <==> Reaches(Converse(r), y, x, k)
  {
    hide Joins;
    ConverseTwice(r);
    if n :| 1 <= n <= k && Joins(r, x, y, n) { JoinsConverse(r, x, y, n); }
    if n :| 1 <= n <= k && Joins(Converse(r), y, x, n) { JoinsConverse(Converse(r), y, x, n); }
  }

  /** Bounded closure commutes with converse. */
  lemma WithinConverse(r: Rel, k: nat)
    ensures Within(Converse(r), k) == Converse(Within(r, k))
  {
    hide Reaches, Within;
    forall x, y ensures Pair(x, y) in Within(Converse(r), k) <==> Pair(x, y) in Converse(Within(r, k)) {
      WithinMeaning(Converse(r), k, x, y);
      WithinMeaning(r, k, y, x);
      ReachesConverse(r, y, x, k);
    }
    SameRelation(Within(Converse(r), k), Converse(Within(r, k)));
  }

  /** So does the closure: `^(p+)` is `(^p)+`. */
  lemma PlusConverse(r: Rel)
    ensures Plus(Converse(r)) == Converse(Plus(r))
  {
    hide Reaches, Plus;
    forall x, y ensures Pair(x, y) in Plus(Converse(r)) <==> Pair(x, y) in Converse(Plus(r)) {
      PlusMeaning(Converse(r), x, y);
      PlusMeaning(r, y, x);
      forall k: nat ensures Reaches(r, y, x, k) <==> Reaches(Converse(r), x, y, k) {
        ReachesConverse(r, y, x, k);
      }
    }
    SameRelation(Plus(Converse(r)), Converse(Plus(r)));
  }

  lemma ConverseUnion(r: Rel, q: Rel)
    ensures Converse(r + q) == Converse(r) + Converse(q)
  {
  }

  lemma ConverseZero(nodes: set<int>)
    ensures Converse(ZeroLength(nodes)) == ZeroLength(nodes)
  {
  }

  // ----- balls -----

  function Successors(r: Rel, s: set<int>): (t: set<int>) {
    set p | p in r && p.src in s :: p.dst
  }

  lemma Successor(r: Rel, s: set<int>, x: int, y: int)
    requires x in s && Pair(x, y) in r
    ensures y in Successors(r, s)
  {
  }

  lemma Predecessor(r: Rel, s: set<int>, y: int) returns (x: int)
    requires y in Successors(r, s)
    ensures x in s && Pair(x, y) in r
  {
    var p :| p in r && p.src in s && p.dst == y;
    x := p.src;
  }

  lemma SuccessorsUnion(r: Rel, s: set<int>, t: set<int>)
    ensures Successors(r, s + t) == Successors(r, s) + Successors(r, t)
  {
  }

  /** The nodes one to k edges away from x, level by level. */
  function Ball(r: Rel, x: int, k: nat): set<int> {
    if k == 0 then {} else Successors(r, {x} + Ball(r, x, k - 1))
  }

  lemma JoinsExtend(r: Rel, x: int, y: int, z: int, n: nat)
    requires Joins(r, x, y, n) && Pair(y, z) in r
    ensures Joins(r, x, z, n + 1)
  {
    var w :| IsWalk(r, w) && |w| == n + 1 && w[0] == x && w[n] == y;
    var v := w + [z];
    assert IsWalk(r, v) && |v| == n + 2 && v[0] == x && v[n + 1] == z;
  }

  lemma JoinsSplit(r: Rel, x: int, z: int, n: nat) returns (y: int)
    requires Joins(r, x, z, n + 1)
    ensures Joins(r, x, y, n) && Pair(y, z) in r
  {
    var w :| IsWalk(r, w) && |w| == n + 2 && w[0] == x && w[n + 1] == z;
    y := w[n];
    assert Pair(w[n + 1 - 1], w[n + 1]) in r;
    var v := w[..n + 1];
    assert IsWalk(r, v) && |v| == n + 1 && v[0] == x && v[n] == y;
  }

  lemma JoinsNowhere(r: Rel, x: int, y: int)
    ensures Joins(r, x, y, 0) <==> x == y
  {
    assert IsWalk(r, [x]) && [x][0] == x;
  }

  /** A ball holds exactly the ends of walks of one to k edges. */
  lemma {:induction false} BallMeaning(r: Rel, x: int, k: nat, z: int)
    ensures z in Ball(r, x, k) <==> Reaches(r, x, z, k)
  {
    hide Joins;
    JoinsNowhere(r, x, x);
    if k > 0 {
      if z in Ball(r, x, k) {
        var y := Predecessor(r, {x} + Ball(r, x, k - 1), z);
        BallMeaning(r, x, k - 1, y);
        var n :| 0 <= n < k && Joins(r, x, y, n);
        JoinsExtend(r, x, y, z, n);
      }
      if n :| 1 <= n <= k && Joins(r, x, z, n) {
        var y := JoinsSplit(r, x, z, n - 1);
        JoinsNowhere(r, x, y);
        BallMeaning(r, x, k - 1, y);
        Successor(r, {x} + Ball(r, x, k - 1), y, z);
      }
    }
  }

  lemma {:induction false} BallGrows(r: Rel, x: int, j: nat, k: nat)
    requires j <= k
    ensures Ball(r, x, j) <= Ball(r, x, k)
  {
    hide Successors;
    if j > 0 {
      BallGrows(r, x, j - 1, k - 1);
      SuccessorsUnion(r, {x} + Ball(r, x, j - 1), Ball(r, x, k - 1));
      assert {x} + Ball(r, x, j - 1) + Ball(r, x, k - 1) == {x} + Ball(r, x, k - 1);
    }
  }

  /** A ball that does not grow once never grows again. */
  lemma {:induction false} BallSaturates(r: Rel, x: int, j: nat, k: nat)
    requires j <= k && Ball(r, x, j + 1) == Ball(r, x, j)
    ensures Ball(r, x, k) == Ball(r, x, j)
  {
    if j < k { BallSaturates(r, x, j, k - 1); }
  }

  lemma BallUnfolds(r: Rel, x: int, k: nat)
    requires k > 0
    ensures Ball(r, x, k) == Successors(r, {x} + Ball(r, x, k - 1))
  {
  }

  /** Only the nodes last reached need expanding. */
  lemma BallStep(r: Rel, x: int, k: nat)
    requires k > 0
    ensures Ball(r, x, k + 1) == Ball(r, x, k) + Successors(r, Ball(r, x, k) - Ball(r, x, k - 1))
  {
    BallGrows(r, x, k - 1, k);
    BallUnfolds(r, x, k);
    BallUnfolds(r, x, k + 1);
    hide Ball, Successors;
    var inner, rim := {x} + Ball(r, x, k - 1), Ball(r, x, k) - Ball(r, x, k - 1);
    SuccessorsUnion(r, inner, rim);
    InnerAndRim({x}, Ball(r, x, k - 1), Ball(r, x, k));
  }

  lemma InnerAndRim(s: set<int>, a: set<int>, b: set<int>)
    requires a <= b
    ensures s + b == s + a + (b - a)
  {
  }

  /** A saturated ball is everything reachable. */
  lemma SaturatedIsClosure(r: Rel, x: int, k: nat, y: int)
    requires Ball(r, x, k + 1) == Ball(r, x, k)
    ensures y in Ball(r, x, k) <==> Pair(x, y) in Plus(r)
  {
    hide Reaches, Plus;
    PlusMeaning(r, x, y);
    if j: nat :| Reaches(r, x, y, j) {
      BallMeaning(r, x, j, y);
      if j <= k { BallGrows(r, x, j, k); } else { BallSaturates(r, x, k, j); }
    }
    BallMeaning(r, x, k, y);
  }
}
