/**
 What the first-degree digest distinguishes: under a hash without collisions, two graphs have one digest
 exactly when they have the same ground triples and the same neighbourhoods, counted.
 */
module Fd1Meaning {
  import opened Sequences
  import opened Text
  import opened Terms
  import opened NTriplesReader
  import opened Isomorphism
  import opened Fd1

  // ----- what the digest is about -----

  /** The ground triples, as a bag. */
  function GroundBag(ts: seq<Triple>): multiset<Triple> {
    multiset(NormAll(Filter(IsGround, ts)))
  }

  /** The triples at b, seen from b. */
  function Neighbourhood(ts: seq<Triple>, b: string): multiset<Triple> {
    multiset(Map(SeenFrom(b), Filter(IncidentTo(b), ts)))
  }

  function NeighbourhoodIn(ts: seq<Triple>): string -> multiset<Triple> {
    b => Neighbourhood(ts, b)
  }

  /** The neighbourhoods of all blank nodes, as a bag. */
  ghost function Neighbourhoods(ts: seq<Triple>): multiset<multiset<Triple>> {
    multiset(Map(NeighbourhoodIn(ts), Ascending(BNodes(ts))))
  }

  // ----- one line -----

  lemma {:induction false} ReplaceAppend(a: string, b: string, c: char, text: string)
    ensures Replace(a + b, c, text) == Replace(a, c, text) + Replace(b, c, text)
  {
    if a == "" {
      assert a + b == b;
    } else {
      assert (a + b)[0] == a[0] && (a + b)[1..] == a[1..] + b;
      ReplaceAppend(a[1..], b, c, text);
    }
  }

  lemma ReplaceOne(x: char, c: char, text: string)
    ensures Replace([x], c, text) == if x == c then text else [x]
  {
    assert [x][1..] == "";
  }

  /** Three passes of replacement come to one escape per character. */
  function FleetChar(x: char): string {
    if x == '\\' then "\\\\" else if x == '"' then "\\\"" else if x == '\n' then "\\n" else [x]
  }

  lemma EscapeOne(x: char)
    ensures FleetEscape([x], true) == FleetChar(x)
  {
    hide Replace;
    ReplaceOne(x, '\\', "\\\\");
    if x == '\\' {
      NothingReplaced("\\\\", '"', "\\\"");
      NothingReplaced("\\\\", '\n', "\\n");
    } else {
      ReplaceOne(x, '"', "\\\"");
      if x == '"' { NothingReplaced("\\\"", '\n', "\\n"); } else { ReplaceOne(x, '\n', "\\n"); }
    }
  }

  lemma {:induction false} NothingReplaced(s: string, c: char, text: string)
    requires c !in s
    ensures Replace(s, c, text) == s
  {
    if s != "" {
      assert s[1..] + "" == s[1..] && s == [s[0]] + s[1..];
      NothingReplaced(s[1..], c, text);
    }
  }

  lemma EscapeStep(val: string)
    requires val != ""
    ensures FleetEscape(val, true) == FleetChar(val[0]) + FleetEscape(val[1..], true)
  {
    var x, rest := [val[0]], val[1..];
    assert val == x + rest;
    hide Replace;
    ReplaceAppend(x, rest, '\\', "\\\\");
    var x1, r1 := Replace(x, '\\', "\\\\"), Replace(rest, '\\', "\\\\");
    ReplaceAppend(x1, r1, '"', "\\\"");
    ReplaceAppend(Replace(x1, '"', "\\\""), Replace(r1, '"', "\\\""), '\n', "\\n");
    EscapeOne(val[0]);
  }

  lemma {:induction false} FleetUndone(val: string)
    ensures Undone(val, FleetEscape(val, true))
    ensures '\n' !in FleetEscape(val, true)
  {
    if val == "" {
      assert Replace("", '\\', "\\\\") == "";
    } else {
      FleetUndone(val[1..]);
      EscapeStep(val);
      var e, rest := FleetChar(val[0]), FleetEscape(val[1..], true);
      hide FleetEscape;
      var text := FleetEscape(val, true);
      assert text[|e|..] == rest && text[0] == e[0];
      assert |e| == 2 ==> text[1] == e[1];
    }
  }

  lemma FleetPrints(t: Term, objectPosition: bool, naming: string -> string)
    requires t.Lit? ==> objectPosition
    ensures Prints(FleetTerm(t, objectPosition, naming), t, naming)
  {
    if t.Lit? {
      FleetUndone(t.val);
      hide FleetEscape;
      assert FleetTerm(t, true, naming) == "\"" + FleetEscape(t.val, true) + "\"" + Suffix(t);
    }
  }

  function LineFor(naming: string -> string): Triple -> string {
    (t: Triple) => FleetLine(t, naming)
  }

  /** A labelling that keeps labels free of blanks and newlines. */
  ghost predicate KeepsPlain(naming: string -> string) {
    forall b :: PlainLabel(b) ==> PlainLabel(naming(b))
  }

  /** A line reads back as its triple, relabelled. */
  lemma FleetReads(t: Triple, naming: string -> string)
    requires WellFormed(t) && KeepsPlain(naming)
    ensures ReadTriple(FleetLine(t, naming)) == Got(NormTriple(RelabelTriple(naming, t)), "")
  {
    hide FleetTerm, Prints, ReadTriple;
    FleetPrints(t.s, false, naming);
    FleetPrints(t.p, false, naming);
    FleetPrints(t.o, true, naming);
    var a, p, o := FleetTerm(t.s, false, naming), FleetTerm(t.p, false, naming), FleetTerm(t.o, true, naming);
    TripleReads(a, p, o, t, naming, "");
    assert a + " " + p + " " + o + " ." + "" == FleetLine(t, naming);
  }

  lemma FleetTermOfNorm(t: Term, f: string -> string, u: Term, g: string -> string, objectPosition: bool)
    requires Norm(Relabel(f, t)) == Norm(Relabel(g, u))
    ensures FleetTerm(t, objectPosition, f) == FleetTerm(u, objectPosition, g)
  {
  }

  /** Two triples give one line exactly when they are one RDF triple, relabelled. */
  lemma LinesTellTriples(t: Triple, f: string -> string, u: Triple, g: string -> string)
    requires WellFormed(t) && WellFormed(u) && KeepsPlain(f) && KeepsPlain(g)
    ensures FleetLine(t, f) == FleetLine(u, g) <==> NormTriple(RelabelTriple(f, t)) == NormTriple(RelabelTriple(g, u))
  {
    hide FleetTerm, ReadTriple, Norm, Relabel;
    FleetReads(t, f);
    FleetReads(u, g);
    if NormTriple(RelabelTriple(f, t)) == NormTriple(RelabelTriple(g, u)) {
      FleetTermOfNorm(t.s, f, u.s, g, false);
      FleetTermOfNorm(t.p, f, u.p, g, false);
      FleetTermOfNorm(t.o, f, u.o, g, true);
    }
  }

  // ----- ground lines and signatures -----

  lemma StoredKeepsPlain()
    ensures KeepsPlain(StoredNaming())
  {
  }

  lemma SelfKeepsPlain(b: string)
    ensures KeepsPlain(SelfNaming(b))
  {
  }

  lemma StoredIsNorm(t: Triple)
    ensures RelabelTriple(StoredNaming(), t) == t
  {
  }

  lemma SelfIsSeen(t: Triple, b: string)
    ensures NormTriple(RelabelTriple(SelfNaming(b), t)) == Triple(SeenEnd(b, t.s), Norm(Relabel(SelfNaming(b), t.p)), SeenEnd(b, t.o))
    ensures !t.p.BNode? ==> NormTriple(RelabelTriple(SelfNaming(b), t)) == SeenFrom(b)(t)
  {
  }

  lemma GroundBags(a: seq<Triple>, b: seq<Triple>)
    requires WellFormedGraph(a) && WellFormedGraph(b)
    ensures multiset(GroundLines(a)) == multiset(GroundLines(b)) <==> GroundBag(a) == GroundBag(b)
  {
    var x, y := Filter(IsGround, a), Filter(IsGround, b);
    var line := (t: Triple) => FleetLine(t, StoredNaming());
    hide FleetLine, NormTriple, WellFormed, IsGround, RelabelTriple;
    StoredKeepsPlain();
    forall t, u | t in x && u in y ensures line(t) == line(u) <==> NormTriple(t) == NormTriple(u) {
      LinesTellTriples(t, StoredNaming(), u, StoredNaming());
      StoredIsNorm(t);
      StoredIsNorm(u);
    }
    if multiset(GroundLines(a)) == multiset(GroundLines(b)) { ImagesCorrespond(line, line, NormTriple, NormTriple, x, y); }
    if GroundBag(a) == GroundBag(b) { ImagesCorrespond(NormTriple, NormTriple, line, line, x, y); }
  }

  lemma IncidentBags(a: seq<Triple>, p: string, b: seq<Triple>, q: string)
    requires WellFormedGraph(a) && WellFormedGraph(b)
    ensures multiset(IncidentLines(a, p)) == multiset(IncidentLines(b, q)) <==> Neighbourhood(a, p) == Neighbourhood(b, q)
  {
    var x, y := Filter(IncidentTo(p), a), Filter(IncidentTo(q), b);
    var f := (t: Triple) => FleetLine(t, SelfNaming(p));
    var g := (t: Triple) => FleetLine(t, SelfNaming(q));
    hide FleetLine, NormTriple, WellFormedTerm, Incident, RelabelTriple, SeenEnd;
    SelfKeepsPlain(p);
    SelfKeepsPlain(q);
    forall t, u | t in x && u in y ensures f(t) == g(u) <==> SeenFrom(p)(t) == SeenFrom(q)(u) {
      assert WellFormed(t) && WellFormed(u);
      LinesTellTriples(t, SelfNaming(p), u, SelfNaming(q));
      SelfIsSeen(t, p);
      SelfIsSeen(u, q);
    }
    if multiset(IncidentLines(a, p)) == multiset(IncidentLines(b, q)) { ImagesCorrespond(f, g, SeenFrom(p), SeenFrom(q), x, y); }
    if Neighbourhood(a, p) == Neighbourhood(b, q) { ImagesCorrespond(SeenFrom(p), SeenFrom(q), f, g, x, y); }
  }

  // ----- joined lines -----

  predicate OneLiners(xs: seq<string>) {
    forall x :: x in xs ==> '\n' !in x
  }

  lemma JoinUnfolds(xs: seq<string>)
    requires |xs| > 1
    ensures Join(xs) == xs[0] + ['\n'] + Join(xs[1..])
  {
  }

  lemma {:induction false} NewlineShows(xs: seq<string>)
    requires xs != [] && OneLiners(xs)
    ensures '\n' in Join(xs) <==> |xs| > 1
  {
    if |xs| > 1 { JoinUnfolds(xs); } else { assert xs[0] in xs; }
  }

  /** Joined one-line texts determine the texts. */
  lemma {:induction false} JoinDecodes(xs: seq<string>, ys: seq<string>)
    requires xs != [] && ys != [] && OneLiners(xs) && OneLiners(ys) && Join(xs) == Join(ys)
    ensures xs == ys
  {
    NewlineShows(xs);
    NewlineShows(ys);
    if |xs| > 1 {
      JoinUnfolds(xs);
      JoinUnfolds(ys);
      assert xs[0] in xs && ys[0] in ys;
      hide Join;
      SplitAtMark('\n', xs[0], ys[0], Join(xs[1..]), Join(ys[1..]));
      JoinDecodes(xs[1..], ys[1..]);
      assert xs == [xs[0]] + xs[1..] && ys == [ys[0]] + ys[1..];
    } else {
      assert xs == [xs[0]] && ys == [ys[0]];
    }
  }

  /** Nothing joined reads like one empty text. */
  function AsLines(xs: seq<string>): (r: seq<string>)
    ensures r != [] && Join(r) == Join(xs)
  {
    if xs == [] then [""] else xs
  }

  lemma {:induction false} JoinAppend(xs: seq<string>, ys: seq<string>)
    requires xs != [] && ys != []
    ensures Join(xs + ys) == Join(xs) + "\n" + Join(ys)
  {
    if |xs| == 1 {
      assert (xs + ys)[0] == xs[0] && (xs + ys)[1..] == ys;
    } else {
      assert (xs + ys)[0] == xs[0] && (xs + ys)[1..] == xs[1..] + ys;
      JoinAppend(xs[1..], ys);
    }
  }

  lemma DigestText(g: seq<string>, s: seq<string>)
    ensures Join(g) + "\n--\n" + Join(s) == Join(AsLines(g) + (["--"] + AsLines(s)))
  {
    JoinAppend(["--"], AsLines(s));
    JoinAppend(AsLines(g), ["--"] + AsLines(s));
    hide Join;
    assert Join(["--"]) == "--" by { JoinSingle("--"); }
    assert "\n--\n" == "\n" + ("--" + "\n");
  }

  lemma JoinSingle(x: string)
    ensures Join([x]) == x
  {
  }

  /** Lines fit to stand beside the separator. */
  ghost predicate ProperLines(xs: seq<string>) {
    OneLiners(xs) && forall x :: x in xs ==> x != "--" && x != ""
  }

  lemma AsLinesProper(xs: seq<string>)
    requires ProperLines(xs)
    ensures OneLiners(AsLines(xs)) && "--" !in AsLines(xs)
  {
  }

  lemma AsLinesDetermine(xs: seq<string>, ys: seq<string>)
    requires ProperLines(xs) && ProperLines(ys) && AsLines(xs) == AsLines(ys)
    ensures xs == ys
  {
    assert "" in [""];
  }

  /** The digest's text, line by line. */
  function TextLines(g: seq<string>, s: seq<string>): (r: seq<string>)
    ensures r != []
  {
    AsLines(g) + ["--"] + AsLines(s)
  }

  lemma TextLinesJoined(g: seq<string>, s: seq<string>)
    requires ProperLines(g) && ProperLines(s)
    ensures OneLiners(TextLines(g, s)) && Join(TextLines(g, s)) == Join(g) + "\n--\n" + Join(s)
  {
    AsLinesProper(g);
    AsLinesProper(s);
    DigestText(g, s);
    hide Join, AsLines;
    assert AsLines(g) + (["--"] + AsLines(s)) == TextLines(g, s);
  }

  lemma TextLinesDetermine(g: seq<string>, s: seq<string>, h: seq<string>, r: seq<string>)
    requires ProperLines(g) && ProperLines(s) && ProperLines(h) && ProperLines(r) && TextLines(g, s) == TextLines(h, r)
    ensures g == h && s == r
  {
    AsLinesProper(g);
    AsLinesProper(h);
    hide AsLines, OneLiners, ProperLines;
    SplitAtMark("--", AsLines(g), AsLines(h), AsLines(s), AsLines(r));
    AsLinesDetermine(g, h);
    AsLinesDetermine(s, r);
  }

  /** Neither part holds the separator, so the text determines both. */
  lemma PartsDecode(g: seq<string>, s: seq<string>, h: seq<string>, r: seq<string>)
    requires ProperLines(g) && ProperLines(s) && ProperLines(h) && ProperLines(r)
    requires Join(g) + "\n--\n" + Join(s) == Join(h) + "\n--\n" + Join(r)
    ensures g == h && s == r
  {
    hide Join, TextLines, OneLiners, ProperLines;
    TextLinesJoined(g, s);
    TextLinesJoined(h, r);
    JoinDecodes(TextLines(g, s), TextLines(h, r));
    TextLinesDetermine(g, s, h, r);
  }

  // ----- the lines are lines -----

  lemma FleetLineShape(t: Triple, naming: string -> string)
    requires WellFormed(t) && KeepsPlain(naming)
    ensures '\n' !in FleetLine(t, naming) && FleetLine(t, naming) != ""
    ensures FleetLine(t, naming)[0] == '<' || FleetLine(t, naming)[0] == '_'
  {
    FleetTermShape(t.s, false, naming);
    FleetTermShape(t.p, false, naming);
    FleetTermShape(t.o, true, naming);
    hide FleetTerm;
  }

  lemma FleetTermShape(t: Term, objectPosition: bool, naming: string -> string)
    requires WellFormedTerm(t) && KeepsPlain(naming) && (t.Lit? ==> objectPosition)
    ensures '\n' !in FleetTerm(t, objectPosition, naming) && FleetTerm(t, objectPosition, naming) != ""
    ensures !t.Lit? ==> FleetTerm(t, objectPosition, naming)[0] == '<' || FleetTerm(t, objectPosition, naming)[0] == '_'
  {
    if t.Lit? {
      FleetUndone(t.val);
      hide FleetEscape;
      XsdHasNoNewline();
    }
  }

  lemma XsdHasNoNewline()
    ensures '\n' !in XSD_STRING
  {
  }

  lemma LinesProper(ts: seq<Triple>, naming: string -> string, xs: seq<string>)
    requires WellFormedGraph(ts) && KeepsPlain(naming)
    requires forall x :: x in xs ==> exists t :: t in ts && x == FleetLine(t, naming)
    ensures ProperLines(Sort(xs))
  {
    hide FleetLine, WellFormed, Sort;
    forall x | x in Sort(xs) ensures '\n' !in x && x != "--" && x != "" {
      assert x in multiset(Sort(xs));
      assert x in xs;
      var t :| t in ts && x == FleetLine(t, naming);
      FleetLineShape(t, naming);
    }
  }

  lemma GroundLinesProper(ts: seq<Triple>)
    requires WellFormedGraph(ts)
    ensures ProperLines(Sort(GroundLines(ts)))
  {
    StoredKeepsPlain();
    var xs := GroundLines(ts);
    hide FleetLine, WellFormed, Sort, IsGround;
    forall x | x in xs ensures exists t :: t in ts && x == FleetLine(t, StoredNaming()) {
      var i :| 0 <= i < |xs| && xs[i] == x;
      assert Filter(IsGround, ts)[i] in ts;
    }
    LinesProper(ts, StoredNaming(), xs);
  }

  lemma IncidentLinesProper(ts: seq<Triple>, b: string)
    requires WellFormedGraph(ts)
    ensures ProperLines(Sort(IncidentLines(ts, b)))
  {
    SelfKeepsPlain(b);
    var xs := IncidentLines(ts, b);
    hide FleetLine, WellFormed, Sort, Incident;
    forall x | x in xs ensures exists t :: t in ts && x == FleetLine(t, SelfNaming(b)) {
      var i :| 0 <= i < |xs| && xs[i] == x;
      assert Filter(IncidentTo(b), ts)[i] in ts;
    }
    LinesProper(ts, SelfNaming(b), xs);
  }

  // ----- the theorem -----

  /** A blank node of the graph has a line. */
  lemma SomeIncidentLine(ts: seq<Triple>, b: string)
    requires b in BNodes(ts)
    ensures IncidentLines(ts, b) != [] && Sort(IncidentLines(ts, b)) != []
  {
    hide FleetLine, Sort;
    var t :| t in ts && b in TripleBNodes(t);
    assert t in Filter(IncidentTo(b), ts);
  }

  lemma SignaturesTell(sha: string -> string, a: seq<Triple>, p: string, b: seq<Triple>, q: string)
    requires IdealHash(sha) && WellFormedGraph(a) && WellFormedGraph(b) && p in BNodes(a) && q in BNodes(b)
    ensures Signature(sha, a, p) == Signature(sha, b, q) <==> Neighbourhood(a, p) == Neighbourhood(b, q)
  {
    hide IncidentLines, Join, Sort, WellFormedGraph, BNodes, Neighbourhood;
    var x, y := IncidentLines(a, p), IncidentLines(b, q);
    SomeIncidentLine(a, p);
    SomeIncidentLine(b, q);
    IncidentLinesProper(a, p);
    IncidentLinesProper(b, q);
    IncidentBags(a, p, b, q);
    SortCanonical(x, y);
    if Signature(sha, a, p) == Signature(sha, b, q) { JoinDecodes(Sort(x), Sort(y)); }
  }

  lemma NeighbourhoodBags(sha: string -> string, a: seq<Triple>, b: seq<Triple>)
    requires IdealHash(sha) && WellFormedGraph(a) && WellFormedGraph(b)
    ensures multiset(Signatures(sha, a)) == multiset(Signatures(sha, b)) <==> Neighbourhoods(a) == Neighbourhoods(b)
  {
    LabelsAscend(a);
    LabelsAscend(b);
    var la, lb := Labels(a), Labels(b);
    var f := (x: string) => Signature(sha, a, x);
    var g := (x: string) => Signature(sha, b, x);
    assert Elements(la) == BNodes(a) && Elements(lb) == BNodes(b);
    hide Signature, Labels, BNodes, Neighbourhood, IdealHash, WellFormedGraph, Sorted;
    forall x, y | x in la && y in lb ensures f(x) == g(y) <==> NeighbourhoodIn(a)(x) == NeighbourhoodIn(b)(y) {
      assert x in Elements(la) && y in Elements(lb);
      SignaturesTell(sha, a, x, b, y);
    }
    if multiset(Signatures(sha, a)) == multiset(Signatures(sha, b)) { ImagesCorrespond(f, g, NeighbourhoodIn(a), NeighbourhoodIn(b), la, lb); }
    if Neighbourhoods(a) == Neighbourhoods(b) { ImagesCorrespond(NeighbourhoodIn(a), NeighbourhoodIn(b), f, g, la, lb); }
  }

  lemma SignaturesProper(sha: string -> string, ts: seq<Triple>)
    requires IdealHash(sha)
    ensures ProperLines(Sort(Signatures(sha, ts)))
  {
    hide Signature, Labels, Sort;
    var sigs := Signatures(sha, ts);
    forall x | x in Sort(sigs) ensures '\n' !in x && x != "--" && x != "" {
      assert x in multiset(Sort(sigs));
      assert x in sigs;
      var i :| 0 <= i < |sigs| && sigs[i] == x;
      SignatureIsHash(sha, ts, Labels(ts)[i]);
    }
  }

  lemma SignatureIsHash(sha: string -> string, ts: seq<Triple>, b: string)
    requires IdealHash(sha)
    ensures var x := Signature(sha, ts, b); '\n' !in x && x != "--" && x != ""
  {
    hide IncidentLines, Sort, Join;
    var x := Signature(sha, ts, b);
    assert forall i :: 0 <= i < |x| ==> HexDigit(x[i]);
    assert !HexDigit("--"[0]);
  }

  /** Under a hash without collisions, equal digests mean equal ground triples and equal neighbourhoods,
      and the other way round: exactly what "first degree" sees, counted. */
  lemma Fd1Exactly(sha: string -> string, a: seq<Triple>, b: seq<Triple>)
    requires IdealHash(sha) && WellFormedGraph(a) && WellFormedGraph(b)
    ensures Fd1Digest(sha, a) == Fd1Digest(sha, b) <==> GroundBag(a) == GroundBag(b) && Neighbourhoods(a) == Neighbourhoods(b)
  {
    hide GroundLines, Signatures, Join, Sort, GroundBag, Neighbourhoods, WellFormedGraph;
    GroundBags(a, b);
    NeighbourhoodBags(sha, a, b);
    SortCanonical(GroundLines(a), GroundLines(b));
    SortCanonical(Signatures(sha, a), Signatures(sha, b));
    GroundLinesProper(a);
    GroundLinesProper(b);
    SignaturesProper(sha, a);
    SignaturesProper(sha, b);
    if Fd1Digest(sha, a) == Fd1Digest(sha, b) {
      PartsDecode(Sort(GroundLines(a)), Sort(Signatures(sha, a)), Sort(GroundLines(b)), Sort(Signatures(sha, b)));
    }
  }
}
