/**
 Strings as the engine compares and prints them: Rust's `str` order (lexicographic by code point,
 which is the byte order of UTF-8), sorting, concatenation of lines, and decimal numerals.
 */
module Text {
  import opened Sequences

  /** Strict lexicographic order. */
  predicate Less(a: string, b: string) {
    if b == "" then false
    else if a == "" then true
    else a[0] < b[0] || (a[0] == b[0] && Less(a[1..], b[1..]))
  }

  /** What that means position by position: the first difference decides, and a prefix comes first. */
  lemma {:induction false} LessAtFirstDifference(a: string, b: string)
    ensures Less(a, b) <==>
      (|a| < |b| && b[..|a|] == a)
      || exists k :: 0 <= k < |a| && k < |b| && a[..k] == b[..k] && a[k] < b[k]
  {
    if a == "" || b == "" {
      assert a == "" && b != "" ==> b[..0] == a;
    } else if a[0] != b[0] {
      assert a[..0] == b[..0];
      assert forall k :: 0 < k < |a| && k < |b| ==> a[..k][0] == a[0] && b[..k][0] == b[0];
      assert |a| < |b| ==> b[..|a|][0] == b[0];
    } else {
      LessAtFirstDifference(a[1..], b[1..]);
      SharedHead(a, b);
    }
  }

  lemma SharedHead(a: string, b: string)
    requires a != "" && b != "" && a[0] == b[0]
    ensures |a| < |b| ==> (b[..|a|] == a <==> b[1..][..|a| - 1] == a[1..])
    ensures forall k :: 0 < k <= |a| && k <= |b| ==> (a[..k] == b[..k] <==> a[1..][..k - 1] == b[1..][..k - 1])
    ensures (exists k :: 0 <= k < |a| && k < |b| && a[..k] == b[..k] && a[k] < b[k])
      <==> exists k :: 0 <= k < |a[1..]| && k < |b[1..]| && a[1..][..k] == b[1..][..k] && a[1..][k] < b[1..][k]
  {
    assert a == [a[0]] + a[1..] && b == [b[0]] + b[1..];
    forall k | 0 < k <= |a| && k <= |b| ensures a[..k] == b[..k] <==> a[1..][..k - 1] == b[1..][..k - 1] {
      assert a[..k] == [a[0]] + a[1..][..k - 1] && b[..k] == [b[0]] + b[1..][..k - 1];
      assert a[..k][1..] == a[1..][..k - 1] && b[..k][1..] == b[1..][..k - 1];
    }
    if k :| 0 <= k < |a| && k < |b| && a[..k] == b[..k] && a[k] < b[k] {
      assert k > 0 && a[1..][k - 1] == a[k] && b[1..][k - 1] == b[k];
    }
    if k :| 0 <= k < |a[1..]| && k < |b[1..]| && a[1..][..k] == b[1..][..k] && a[1..][k] < b[1..][k] {
      assert a[k + 1] == a[1..][k] && b[k + 1] == b[1..][k];
    }
  }

  predicate AtMost(a: string, b: string) {
    a == b || Less(a, b)
  }

  lemma {:induction false} LessTrichotomy(a: string, b: string)
    ensures Less(a, b) || a == b || Less(b, a)
    ensures Less(a, b) ==> a != b && !Less(b, a)
  {
    if a != "" && b != "" {
      LessTrichotomy(a[1..], b[1..]);
      if a[0] == b[0] && a[1..] == b[1..] {
        assert a == [a[0]] + a[1..];
        assert b == [b[0]] + b[1..];
      }
    }
  }

  lemma {:induction false} LessTransitive(a: string, b: string, c: string)
    requires Less(a, b) && Less(b, c)
    ensures Less(a, c)
  {
    if a != "" && a[0] == b[0] && b[0] == c[0] {
      LessTransitive(a[1..], b[1..], c[1..]);
    }
  }

  lemma {:induction false} ExtensionIsNotLess(a: string, b: string)
    requires a <= b
    ensures AtMost(a, b)
  {
    if a != "" {
      assert b[0] == a[0] && a[1..] <= b[1..];
      ExtensionIsNotLess(a[1..], b[1..]);
      if a[1..] == b[1..] {
        assert a == [a[0]] + a[1..];
        assert b == [b[0]] + b[1..];
      }
    }
  }

  /** A candidate already greater than the best one stays greater however it is extended. */
  lemma GreaterStaysGreater(best: string, path: string, extended: string)
    requires Less(best, path) && path <= extended
    ensures Less(best, extended) && !Less(extended, best)
  {
    ExtensionIsNotLess(path, extended);
    if path != extended { LessTransitive(best, path, extended); }
    LessTrichotomy(best, extended);
  }

  predicate Sorted(xs: seq<string>) {
    forall i, j :: 0 <= i < j < |xs| ==> AtMost(xs[i], xs[j])
  }

  function Insert(x: string, xs: seq<string>): (r: seq<string>)
    ensures multiset(r) == multiset(xs) + multiset{x}
  {
    if xs == [] then [x]
    else if Less(xs[0], x) then
      assert xs == [xs[0]] + xs[1..];
      [xs[0]] + Insert(x, xs[1..])
    else [x] + xs
  }

  function Sort(xs: seq<string>): (r: seq<string>)
    ensures multiset(r) == multiset(xs)
    ensures |r| == |xs|
  {
    if xs == [] then []
    else
      assert xs == [xs[0]] + xs[1..];
      var r := Insert(xs[0], Sort(xs[1..]));
      assert |multiset(r)| == |multiset(xs)|;
      r
  }

  lemma {:induction false} InsertSorted(x: string, xs: seq<string>)
    requires Sorted(xs)
    ensures Sorted(Insert(x, xs))
  {
    if xs != [] {
      var r := Insert(x, xs);
      if Less(xs[0], x) {
        assert Sorted(xs[1..]);
        InsertSorted(x, xs[1..]);
        forall j | 0 < j < |r| ensures AtMost(r[0], r[j]) {
          assert r[j] in multiset(Insert(x, xs[1..]));
          assert r[j] == x || r[j] in multiset(xs[1..]);
        }
        assert r[1..] == Insert(x, xs[1..]);
        forall i, j | 0 <= i < j < |r| ensures AtMost(r[i], r[j]) {
          if i > 0 { assert r[i] == r[1..][i - 1] && r[j] == r[1..][j - 1]; }
        }
      } else {
        LessTrichotomy(x, xs[0]);
        forall i, j | 0 <= i < j < |r| ensures AtMost(r[i], r[j]) {
          if i == 0 && j > 1 {
            assert AtMost(xs[0], xs[j - 1]);
            if x != xs[0] && xs[0] != xs[j - 1] { LessTransitive(x, xs[0], xs[j - 1]); }
          }
        }
      }
    }
  }

  lemma {:induction false} SortSorts(xs: seq<string>)
    ensures Sorted(Sort(xs))
  {
    if xs != [] {
      SortSorts(xs[1..]);
      InsertSorted(xs[0], Sort(xs[1..]));
    }
  }

  lemma FirstIsLeast(a: seq<string>, x: string)
    requires Sorted(a) && x in a
    ensures AtMost(a[0], x)
  {
    hide Less;
    var i :| 0 <= i < |a| && a[i] == x;
  }

  lemma AtMostAntisymmetric(x: string, y: string)
    requires AtMost(x, y) && AtMost(y, x)
    ensures x == y
  {
    LessTrichotomy(x, y);
  }

  lemma TailSorted(a: seq<string>)
    requires Sorted(a) && a != []
    ensures Sorted(a[1..])
  {
    hide AtMost;
    forall i, j | 0 <= i < j < |a[1..]| ensures AtMost(a[1..][i], a[1..][j]) {
      assert AtMost(a[i + 1], a[j + 1]);
    }
  }

  /** Equal bags have the same size and members. */
  lemma BagFacts<T>(a: seq<T>, b: seq<T>)
    requires multiset(a) == multiset(b)
    ensures |a| == |b|
    ensures a != [] ==> a[0] in b && b[0] in a
  {
    assert |a| == |multiset(a)| == |multiset(b)| == |b|;
    assert a != [] ==> a[0] in multiset(b) && b[0] in multiset(a);
  }

  lemma TailsOfBags<T>(a: seq<T>, b: seq<T>)
    requires a != [] && b != [] && a[0] == b[0] && multiset(a) == multiset(b)
    ensures multiset(a[1..]) == multiset(b[1..])
    ensures a[1..] == b[1..] ==> a == b
  {
    RemoveOne(a, b, 0);
    assert b[..0] + b[0 + 1..] == b[1..];
    assert a == [a[0]] + a[1..] && b == [b[0]] + b[1..];
  }

  lemma {:induction false} SortedUnique(a: seq<string>, b: seq<string>)
    requires Sorted(a) && Sorted(b) && multiset(a) == multiset(b)
    ensures a == b
  {
    hide AtMost, Sorted;
    BagFacts(a, b);
    if a != [] {
      FirstIsLeast(a, b[0]);
      FirstIsLeast(b, a[0]);
      AtMostAntisymmetric(a[0], b[0]);
      TailsOfBags(a, b);
      TailSorted(a);
      TailSorted(b);
      SortedUnique(a[1..], b[1..]);
    }
  }

  /** Sorting forgets exactly the order: equal bags and only equal bags sort alike. */
  lemma SortCanonical(a: seq<string>, b: seq<string>)
    ensures Sort(a) == Sort(b) <==> multiset(a) == multiset(b)
  {
    SortSorts(a);
    SortSorts(b);
    if multiset(a) == multiset(b) { SortedUnique(Sort(a), Sort(b)); }
  }

  /** The ascending enumeration of a finite set: the order in which a BTreeMap yields its keys. */
  ghost predicate Enumerates(xs: seq<string>, s: set<string>) {
    Sorted(xs) && NoDuplicates(xs) && Elements(xs) == s
  }

  lemma EnumerationUnique(a: seq<string>, b: seq<string>, s: set<string>)
    requires Enumerates(a, s) && Enumerates(b, s)
    ensures a == b
  {
    forall x ensures multiset(a)[x] == multiset(b)[x] {
      Multiplicity(a, x);
      Multiplicity(b, x);
      assert x in a <==> x in Elements(a);
      assert x in b <==> x in Elements(b);
    }
    SortedUnique(a, b);
  }

  lemma {:induction false} EnumerationExists(s: set<string>)
    ensures exists xs :: Enumerates(xs, s)
    decreases s
  {
    if s == {} {
      assert Enumerates([], s);
    } else {
      var x :| x in s;
      EnumerationExists(s - {x});
      var ys :| Enumerates(ys, s - {x});
      var xs := Insert(x, ys);
      InsertSorted(x, ys);
      assert Elements(ys) == s - {x};
      assert x !in Elements(ys);
      forall y ensures y in xs <==> y in s {
        assert y in xs <==> y in multiset(xs);
        assert y in ys <==> y in Elements(ys);
      }
      forall i, j | 0 <= i < j < |xs| ensures xs[i] != xs[j] {
        if xs[i] == xs[j] {
          Multiplicity(ys, xs[i]);
          TwoOccurrences(xs, i, j);
        }
      }
      assert Enumerates(xs, s);
    }
  }

  lemma TwoOccurrences<T>(xs: seq<T>, i: nat, j: nat)
    requires i < j < |xs| && xs[i] == xs[j]
    ensures multiset(xs)[xs[i]] >= 2
  {
    assert xs == xs[..i] + [xs[i]] + xs[i + 1..j] + [xs[j]] + xs[j + 1..];
  }

  ghost function Ascending(s: set<string>): (xs: seq<string>)
    ensures Enumerates(xs, s)
  {
    EnumerationExists(s);
    var xs :| Enumerates(xs, s);
    xs
  }

  /** Collects a finite set in ascending order, as inserting its members into a BTreeMap does. */
  method SortedMembers(s: set<string>) returns (xs: seq<string>)
    ensures xs == Ascending(s)
  {
    var rest := s;
    xs := [];
    while rest != {}
      invariant rest <= s
      invariant Enumerates(xs, s - rest)
      decreases rest
    {
      var x :| x in rest;
      ghost var before := xs;
      assert x !in Elements(before);
      xs := Insert(x, xs);
      InsertSorted(x, before);
      rest := rest - {x};
      forall y ensures y in xs <==> y in Elements(before) + {x} {
        assert y in xs <==> y in multiset(xs);
      }
      forall i, j | 0 <= i < j < |xs| ensures xs[i] != xs[j] {
        if xs[i] == xs[j] {
          Multiplicity(before, xs[i]);
          TwoOccurrences(xs, i, j);
        }
      }
      assert Elements(xs) == s - rest;
    }
    assert s - rest == s;
    EnumerationUnique(xs, Ascending(s), s);
  }

  function Concat(xs: seq<string>): string {
    if xs == [] then "" else xs[0] + Concat(xs[1..])
  }

  lemma {:induction false} ConcatAppend(a: seq<string>, b: seq<string>)
    ensures Concat(a + b) == Concat(a) + Concat(b)
  {
    if a == [] {
      assert a + b == b;
    } else {
      assert (a + b)[1..] == a[1..] + b;
      ConcatAppend(a[1..], b);
    }
  }

  /** A prefix free of the mark c is determined by the text up to the mark. */
  lemma {:induction false} SplitAtMark<T>(c: T, a: seq<T>, b: seq<T>, x: seq<T>, y: seq<T>)
    requires c !in a && c !in b
    requires a + [c] + x == b + [c] + y
    ensures a == b && x == y
  {
    var l, r := a + [c] + x, b + [c] + y;
    assert l[|a|] == c && r[|b|] == c;
    assert |a| == |b|;
    assert l[..|a|] == a && r[..|b|] == b;
    assert l[|a| + 1..] == x && r[|b| + 1..] == y;
  }

  /** A line: text without a newline, then one newline. */
  predicate IsLine(l: string) {
    |l| > 0 && l[|l| - 1] == '\n' && '\n' !in l[..|l| - 1]
  }

  /** A document determines its lines. */
  lemma {:induction false} LinesOfDocument(a: seq<string>, b: seq<string>)
    requires forall l :: l in a ==> IsLine(l)
    requires forall l :: l in b ==> IsLine(l)
    requires Concat(a) == Concat(b)
    ensures a == b
  {
    assert a != [] ==> IsLine(a[0]);
    assert b != [] ==> IsLine(b[0]);
    if a != [] && b != [] {
      var p, q := a[0][..|a[0]| - 1], b[0][..|b[0]| - 1];
      assert a[0] == p + ['\n'] && b[0] == q + ['\n'];
      SplitAtMark('\n', p, q, Concat(a[1..]), Concat(b[1..]));
      LinesOfDocument(a[1..], b[1..]);
      assert a == [a[0]] + a[1..] && b == [b[0]] + b[1..];
    }
  }

  // ----- the hash function -----

  ghost predicate OneToOne(sha: string -> string) {
    forall s, t :: sha(s) == sha(t) ==> s == t
  }

  predicate HexDigit(c: char) {
    '0' <= c <= '9' || 'a' <= c <= 'f'
  }

  /** A hash without collisions whose values are written in hexadecimal. */
  ghost predicate IdealHash(sha: string -> string) {
    && OneToOne(sha)
    && forall s :: sha(s) != "" && forall i :: 0 <= i < |sha(s)| ==> HexDigit(sha(s)[i])
  }

  function Digit(n: nat): (c: char)
    requires n < 10
    ensures '0' <= c <= '9'
  {
    '0' + n as char
  }

  /** The decimal numeral of n. */
  function Decimal(n: nat): (s: string)
    ensures |s| > 0
    ensures forall c :: c in s ==> '0' <= c <= '9'
  {
    if n < 10 then [Digit(n)] else Decimal(n / 10) + [Digit(n % 10)]
  }

  /** The number a numeral denotes, digit by digit. */
  function Denoted(s: string): int {
    if s == "" then 0 else 10 * Denoted(s[..|s| - 1]) + (s[|s| - 1] as int - '0' as int)
  }

  lemma {:induction false} DecimalDenotes(n: nat)
    ensures Denoted(Decimal(n)) == n && (Decimal(n)[0] == '0' ==> n == 0)
  {
    var s := Decimal(n);
    if n < 10 {
      assert s[..0] == "";
    } else {
      DecimalDenotes(n / 10);
      assert s[..|s| - 1] == Decimal(n / 10);
    }
  }

  lemma {:induction false} DecimalInjective(m: nat, n: nat)
    requires Decimal(m) == Decimal(n)
    ensures m == n
  {
    var s := Decimal(m);
    assert s[|s| - 1] == Digit(m % 10);
    assert s[|s| - 1] == Digit(n % 10);
    assert |s| == 1 <==> m < 10;
    assert |s| == 1 <==> n < 10;
    if m >= 10 {
      assert s[..|s| - 1] == Decimal(m / 10);
      assert s[..|s| - 1] == Decimal(n / 10);
      DecimalInjective(m / 10, n / 10);
    }
  }
}
