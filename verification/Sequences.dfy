/**
 Facts about sequences and finite maps that the models share: duplicate-free sequences, positions,
 filters, and maps whose result is itself a sequence.
 */
module Sequences {

  predicate NoDuplicates<T(==)>(xs: seq<T>) {
    forall i, j :: 0 <= i < j < |xs| ==> xs[i] != xs[j]
  }

  ghost function Elements<T>(xs: seq<T>): set<T> {
    set x | x in xs
  }

  /** The position of x in a sequence that holds it (the first one). */
  function IndexOf<T(==)>(xs: seq<T>, x: T): (i: nat)
    requires x in xs
    ensures i < |xs| && xs[i] == x && forall j :: 0 <= j < i ==> xs[j] != x
  {
    if xs[0] == x then 0 else 1 + IndexOf(xs[1..], x)
  }

  lemma IndexOfUnique<T>(xs: seq<T>, i: nat)
    requires NoDuplicates(xs) && i < |xs|
    ensures IndexOf(xs, xs[i]) == i
  {
    var j := IndexOf(xs, xs[i]);
    assert xs[j] == xs[i];
  }

  lemma IndexOfPrefix<T>(xs: seq<T>, ys: seq<T>, x: T)
    requires x in xs && xs <= ys
    ensures IndexOf(ys, x) == IndexOf(xs, x)
  {
    var i, j := IndexOf(xs, x), IndexOf(ys, x);
    assert xs == ys[..|xs|];
    assert ys[i] == x;
    assert j <= i;
    assert xs[j] == ys[j];
  }

  lemma {:induction false} CardinalityOfNoDuplicates<T>(xs: seq<T>)
    requires NoDuplicates(xs)
    ensures |Elements(xs)| == |xs|
  {
    if xs == [] {
      assert Elements(xs) == {};
    } else {
      var n := |xs| - 1;
      CardinalityOfNoDuplicates(xs[..n]);
      assert Elements(xs) == Elements(xs[..n]) + {xs[n]};
      assert xs[n] !in xs[..n];
    }
  }

  /** A duplicate-free sequence drawn from a finite set is no longer than the set. */
  lemma NoDuplicatesBound<T>(xs: seq<T>, s: set<T>)
    requires NoDuplicates(xs) && Elements(xs) <= s
    ensures |xs| <= |s|
  {
    CardinalityOfNoDuplicates(xs);
    SubsetCardinality(Elements(xs), s);
  }

  lemma SubsetCardinality<T>(a: set<T>, b: set<T>)
    requires a <= b
    ensures |a| <= |b|
  {
    assert b == a + (b - a);
  }

  lemma {:induction false} Multiplicity<T>(xs: seq<T>, x: T)
    requires NoDuplicates(xs)
    ensures multiset(xs)[x] == if x in xs then 1 else 0
  {
    if xs != [] {
      assert xs == [xs[0]] + xs[1..];
      Multiplicity(xs[1..], x);
      assert xs[0] !in xs[1..];
    }
  }

  lemma SameBagSameSet<T>(xs: seq<T>, ys: seq<T>)
    requires NoDuplicates(xs) && NoDuplicates(ys)
    ensures multiset(xs) == multiset(ys) <==> Elements(xs) == Elements(ys)
  {
    forall t
      ensures t in xs <==> t in Elements(xs)
      ensures t in ys <==> t in Elements(ys)
      ensures multiset(xs)[t] == if t in xs then 1 else 0
      ensures multiset(ys)[t] == if t in ys then 1 else 0
    {
      Multiplicity(xs, t);
      Multiplicity(ys, t);
    }
    if Elements(xs) == Elements(ys) {
      assert forall t :: multiset(xs)[t] == multiset(ys)[t];
    }
    if multiset(xs) == multiset(ys) {
      forall t ensures t in Elements(xs) <==> t in Elements(ys) {
        assert multiset(xs)[t] == multiset(ys)[t];
      }
    }
  }

  function Map<T, U>(f: T -> U, xs: seq<T>): (r: seq<U>)
    ensures |r| == |xs|
    ensures forall i :: 0 <= i < |xs| ==> r[i] == f(xs[i])
  {
    seq(|xs|, i requires 0 <= i < |xs| => f(xs[i]))
  }

  function FlatMap<T, U>(f: T -> seq<U>, xs: seq<T>): seq<U> {
    if xs == [] then [] else f(xs[0]) + FlatMap(f, xs[1..])
  }

  function Filter<T>(p: T -> bool, xs: seq<T>): (r: seq<T>)
    ensures forall x :: x in r ==> x in xs && p(x)
    ensures forall x :: x in xs && p(x) ==> x in r
  {
    if xs == [] then [] else (if p(xs[0]) then [xs[0]] else []) + Filter(p, xs[1..])
  }

  lemma {:induction false} FilterAppend<T>(p: T -> bool, a: seq<T>, b: seq<T>)
    ensures Filter(p, a + b) == Filter(p, a) + Filter(p, b)
  {
    if a == [] {
      assert a + b == b;
    } else {
      assert (a + b)[0] == a[0] && (a + b)[1..] == a[1..] + b;
      FilterAppend(p, a[1..], b);
    }
  }

  lemma {:induction false} MapAppend<T, U>(f: T -> U, a: seq<T>, b: seq<T>)
    ensures Map(f, a + b) == Map(f, a) + Map(f, b)
  {
  }

  lemma {:induction false} FlatMapAppend<T, U>(f: T -> seq<U>, a: seq<T>, b: seq<T>)
    ensures FlatMap(f, a + b) == FlatMap(f, a) + FlatMap(f, b)
  {
    if a == [] {
      assert a + b == b;
    } else {
      assert (a + b)[0] == a[0] && (a + b)[1..] == a[1..] + b;
      FlatMapAppend(f, a[1..], b);
    }
  }

  lemma RemoveOne<T>(a: seq<T>, b: seq<T>, k: nat)
    requires a != [] && multiset(a) == multiset(b) && k < |b| && b[k] == a[0]
    ensures multiset(a[1..]) == multiset(b[..k] + b[k + 1..])
  {
    var l, r := b[..k], b[k + 1..];
    assert b == l + [b[k]] + r;
    assert a == [a[0]] + a[1..];
    assert multiset(a) == multiset{a[0]} + multiset(a[1..]);
    assert multiset(b) == multiset(l) + multiset{a[0]} + multiset(r);
    assert multiset(l + r) == multiset(l) + multiset(r);
    assert multiset(a[1..]) == multiset(a) - multiset{a[0]};
  }

  lemma FlatMapSplit<T, U>(f: T -> seq<U>, xs: seq<T>, k: nat)
    requires k < |xs|
    ensures multiset(FlatMap(f, xs)) == multiset(f(xs[k])) + multiset(FlatMap(f, xs[..k] + xs[k + 1..]))
  {
    var l, r := xs[..k], xs[k + 1..];
    assert xs == l + [xs[k]] + r;
    FlatMapAppend(f, l + [xs[k]], r);
    FlatMapAppend(f, l, [xs[k]]);
    FlatMapAppend(f, l, r);
    assert FlatMap(f, [xs[k]]) == f(xs[k]) + FlatMap(f, []);
  }

  /** The bag of results depends only on the bag of arguments. */
  lemma {:induction false} FlatMapPermutation<T, U>(f: T -> seq<U>, a: seq<T>, b: seq<T>)
    requires multiset(a) == multiset(b)
    ensures multiset(FlatMap(f, a)) == multiset(FlatMap(f, b))
  {
    if a == [] {
      assert |multiset(b)| == |b|;
    } else {
      assert a[0] in multiset(b);
      var k := IndexOf(b, a[0]);
      RemoveOne(a, b, k);
      FlatMapSplit(f, b, k);
      FlatMapPermutation(f, a[1..], b[..k] + b[k + 1..]);
      assert FlatMap(f, a) == f(a[0]) + FlatMap(f, a[1..]);
    }
  }

  lemma {:induction false} MapIsFlatMap<T(!new), U>(f: T -> U, g: T -> seq<U>, xs: seq<T>)
    requires forall x :: g(x) == [f(x)]
    ensures Map(f, xs) == FlatMap(g, xs)
  {
    if xs != [] {
      MapIsFlatMap(f, g, xs[1..]);
      assert Map(f, xs) == [f(xs[0])] + Map(f, xs[1..]);
    }
  }

  lemma MapPermutation<T(!new), U>(f: T -> U, a: seq<T>, b: seq<T>)
    requires multiset(a) == multiset(b)
    ensures multiset(Map(f, a)) == multiset(Map(f, b))
  {
    var g := (x: T) => [f(x)];
    MapIsFlatMap(f, g, a);
    MapIsFlatMap(f, g, b);
    FlatMapPermutation(g, a, b);
  }

  lemma MapWithout<T, U>(f: T -> U, xs: seq<T>, k: nat)
    requires k < |xs|
    ensures Map(f, xs[..k] + xs[k + 1..]) == Map(f, xs)[..k] + Map(f, xs)[k + 1..]
  {
  }

  /** If equal images under f and g mean equal images under h and k, then equal bags of the first
      images mean equal bags of the second. */
  lemma {:induction false} ImagesCorrespond<T(!new), U(!new), V, W>(
    f: T -> V, g: U -> V, h: T -> W, k: U -> W, a: seq<T>, b: seq<U>)
    requires multiset(Map(f, a)) == multiset(Map(g, b))
    requires forall x, y :: x in a && y in b && f(x) == g(y) ==> h(x) == k(y)
    ensures multiset(Map(h, a)) == multiset(Map(k, b))
  {
    if a == [] {
      assert |multiset(Map(g, b))| == |b|;
      assert |multiset(Map(f, a))| == 0;
    } else {
      assert Map(f, a)[0] == f(a[0]);
      assert f(a[0]) in multiset(Map(g, b));
      var i := IndexOf(Map(g, b), f(a[0]));
      var rest := b[..i] + b[i + 1..];
      RemoveOne(Map(f, a), Map(g, b), i);
      MapWithout(g, b, i);
      assert Map(f, a)[1..] == Map(f, a[1..]);
      ImagesCorrespond(f, g, h, k, a[1..], rest);
      assert h(a[0]) == k(b[i]);
      MapWithout(k, b, i);
      PutBack(Map(k, b), i);
      assert Map(h, a) == [k(b[i])] + Map(h, a[1..]);
    }
  }

  lemma PutBack<T>(xs: seq<T>, k: nat)
    requires k < |xs|
    ensures multiset(xs) == multiset{xs[k]} + multiset(xs[..k] + xs[k + 1..])
  {
    assert xs == xs[..k] + [xs[k]] + xs[k + 1..];
  }

  lemma {:induction false} FlatMapOfMap<T, U>(h: T -> seq<U>, id: seq<U> -> seq<U>, xs: seq<T>)
    requires forall y :: y in Map(h, xs) ==> id(y) == y
    ensures FlatMap(h, xs) == FlatMap(id, Map(h, xs))
  {
    if xs != [] {
      assert Map(h, xs) == [h(xs[0])] + Map(h, xs[1..]);
      assert forall y :: y in Map(h, xs[1..]) ==> y in Map(h, xs);
      FlatMapOfMap(h, id, xs[1..]);
      assert Map(h, xs)[0] == h(xs[0]) && Map(h, xs)[1..] == Map(h, xs[1..]);
    }
  }

  /** ImagesCorrespond for images that are sequences, flattened. */
  lemma FlatImagesCorrespond<T(!new), U(!new), V, W>(
    f: T -> V, g: U -> V, h: T -> seq<W>, k: U -> seq<W>, a: seq<T>, b: seq<U>)
    requires multiset(Map(f, a)) == multiset(Map(g, b))
    requires forall x, y :: x in a && y in b && f(x) == g(y) ==> h(x) == k(y)
    ensures multiset(FlatMap(h, a)) == multiset(FlatMap(k, b))
  {
    ImagesCorrespond(f, g, h, k, a, b);
    var id := (y: seq<W>) => y;
    FlatMapOfMap(h, id, a);
    FlatMapOfMap(k, id, b);
    FlatMapPermutation(id, Map(h, a), Map(k, b));
  }

  lemma {:induction false} FilterSame<T(!new)>(p: T -> bool, q: T -> bool, ts: seq<T>)
    requires forall t :: t in ts ==> p(t) == q(t)
    ensures Filter(p, ts) == Filter(q, ts)
  {
    if ts != [] { FilterSame(p, q, ts[1..]); }
  }

  lemma {:induction false} FilterUnion<T(!new)>(p: T -> bool, q: T -> bool, r: T -> bool, ts: seq<T>)
    requires forall t :: t in ts ==> r(t) == (p(t) || q(t)) && !(p(t) && q(t))
    ensures multiset(Filter(r, ts)) == multiset(Filter(p, ts)) + multiset(Filter(q, ts))
  {
    if ts != [] { FilterUnion(p, q, r, ts[1..]); }
  }

  function Flatten<T>(groups: seq<seq<T>>): seq<T> {
    if groups == [] then [] else Flatten(groups[..|groups| - 1]) + groups[|groups| - 1]
  }

  function KeyIs<T>(key: T -> int, i: int): T -> bool {
    t => key(t) == i
  }

  function KeyBelow<T>(key: T -> int, n: int): T -> bool {
    t => key(t) < n
  }

  /** The elements with key below n, grouped by key. */
  function ByKey<T>(key: T -> int, ts: seq<T>, n: nat): seq<seq<T>> {
    seq(n, i => Filter(KeyIs(key, i), ts))
  }

  lemma {:induction false} KeysSum<T(!new)>(key: T -> int, ts: seq<T>, n: nat)
    requires forall t :: t in ts ==> 0 <= key(t)
    ensures multiset(Flatten(ByKey(key, ts, n))) == multiset(Filter(KeyBelow(key, n), ts))
  {
    if n == 0 {
      FilterNone(KeyBelow(key, n), ts);
    } else {
      KeysSum(key, ts, n - 1);
      assert ByKey(key, ts, n)[..n - 1] == ByKey(key, ts, n - 1);
      FilterUnion(KeyBelow(key, n - 1), KeyIs(key, n - 1), KeyBelow(key, n), ts);
    }
  }

  lemma {:induction false} FilterNone<T(!new)>(p: T -> bool, ts: seq<T>)
    requires forall t :: t in ts ==> !p(t)
    ensures Filter(p, ts) == []
  {
    if ts != [] { FilterNone(p, ts[1..]); }
  }

  lemma {:induction false} FilterAll<T(!new)>(p: T -> bool, ts: seq<T>)
    requires forall t :: t in ts ==> p(t)
    ensures Filter(p, ts) == ts
  {
    if ts != [] { FilterAll(p, ts[1..]); }
  }

  /** Grouping by a key in range loses nothing and repeats nothing. */
  lemma GroupingSums<T(!new)>(key: T -> int, ts: seq<T>, n: nat)
    requires forall t :: t in ts ==> 0 <= key(t) < n
    ensures multiset(Flatten(ByKey(key, ts, n))) == multiset(ts)
  {
    KeysSum(key, ts, n);
    FilterAll(KeyBelow(key, n), ts);
  }

  lemma {:induction false} MapOfFilter<T(!new), U>(p: T -> bool, f: T -> U, h: T -> seq<U>, xs: seq<T>)
    requires forall x :: h(x) == if p(x) then [f(x)] else []
    ensures Map(f, Filter(p, xs)) == FlatMap(h, xs)
  {
    if xs != [] {
      MapOfFilter(p, f, h, xs[1..]);
      MapAppend(f, if p(xs[0]) then [xs[0]] else [], Filter(p, xs[1..]));
    }
  }
}
