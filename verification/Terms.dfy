/**
 RDF terms and triples as the digest code sees them, their canonical N-Triples form, and the proof
 that the printed form of a triple determines the triple.
 */
module Terms {
  import opened Sequences
  import opened Text

  datatype Option<T> = None | Some(value: T)

  datatype Term =
    | Iri(iri: string)
    | BNode(id: string)
    | Lit(val: string, dt: Option<string>, lang: Option<string>)

  datatype Triple = Triple(s: Term, p: Term, o: Term)

  const XSD_STRING := "http://www.w3.org/2001/XMLSchema#string"

  function EscapeChar(c: char): string {
    if c == '\\' then "\\\\"
    else if c == '"' then "\\\""
    else if c == '\n' then "\\n"
    else if c == '\r' then "\\r"
    else if c == '\t' then "\\t"
    else [c]
  }

  function Escape(s: string): string {
    if s == "" then "" else EscapeChar(s[0]) + Escape(s[1..])
  }

  /** The escaping loop: one character at a time onto the output. */
  method NtEscape(s: string) returns (out: string)
    ensures out == Escape(s)
  {
    out := "";
    for i := 0 to |s|
      invariant out + Escape(s[i..]) == Escape(s)
    {
      assert s[i..][0] == s[i] && s[i..][1..] == s[i + 1..];
      out := out + EscapeChar(s[i]);
    }
    assert s[|s|..] == "";
  }

  /** One term in N-Triples; blank nodes print through `naming`. */
  function NtTerm(t: Term, naming: string -> string): string {
    match t
    case Iri(i) => "<" + i + ">"
    case BNode(b) => "_:" + naming(b)
    case Lit(val, dt, lang) =>
      if lang.Some? then "\"" + Escape(val) + "\"@" + lang.value
      else if dt.Some? && dt.value != XSD_STRING then "\"" + Escape(val) + "\"^^<" + dt.value + ">"
      else "\"" + Escape(val) + "\""
  }

  /** Blank nodes under their stored labels. */
  function StoredNaming(): string -> string {
    (b: string) => b
  }

  /** One blank node is "a", every other "z". */
  function SelfNaming(n: string): string -> string {
    b => if b == n then "a" else "z"
  }

  function NtTriple(t: Triple, naming: string -> string): string {
    NtTerm(t.s, naming) + " " + NtTerm(t.p, naming) + " " + NtTerm(t.o, naming) + " .\n"
  }

  // ----- what a term means -----

  /** RDF 1.1 reads a plain literal and an xsd:string literal as one term, and a language-tagged
      literal has no datatype of its own. */
  function Norm(t: Term): Term {
    match t
    case Lit(val, dt, lang) =>
      Lit(val, if lang.Some? || dt == Some(XSD_STRING) then None else dt, lang)
    case _ => t
  }

  function NormTriple(t: Triple): Triple {
    Triple(Norm(t.s), Norm(t.p), Norm(t.o))
  }

  function Relabel(naming: string -> string, t: Term): Term {
    match t
    case BNode(b) => BNode(naming(b))
    case _ => t
  }

  function RelabelTriple(naming: string -> string, t: Triple): Triple {
    Triple(Relabel(naming, t.s), Relabel(naming, t.p), Relabel(naming, t.o))
  }

  predicate PlainLabel(b: string) {
    ' ' !in b && '\n' !in b
  }

  /** Lexical well-formedness: the delimiters of the printed form do not occur inside a term. */
  predicate WellFormedTerm(t: Term) {
    match t
    case Iri(i) => '>' !in i && '\n' !in i
    case BNode(b) => PlainLabel(b)
    case Lit(_, dt, lang) =>
      (dt.Some? ==> '>' !in dt.value && '\n' !in dt.value) && (lang.Some? ==> PlainLabel(lang.value))
  }

  /** A stored triple: IRI or blank subject, IRI predicate. */
  predicate WellFormed(t: Triple) {
    && WellFormedTerm(t.s) && WellFormedTerm(t.p) && WellFormedTerm(t.o)
    && !t.s.Lit? && t.p.Iri?
  }

  predicate WellFormedGraph(ts: seq<Triple>) {
    forall t :: t in ts ==> WellFormed(t)
  }

  function TermBNodes(t: Term): set<string> {
    if t.BNode? then {t.id} else {}
  }

  predicate IsGround(t: Triple) {
    !t.s.BNode? && !t.o.BNode?
  }

  predicate Incident(t: Triple, b: string) {
    t.s == BNode(b) || t.o == BNode(b)
  }

  /** How an end of a triple looks from blank node b: b itself is "a", every other blank node "z". */
  function SeenEnd(b: string, t: Term): Term {
    if t == BNode(b) then BNode("a") else if t.BNode? then BNode("z") else Norm(t)
  }

  function SeenFrom(b: string): Triple -> Triple {
    (t: Triple) => Triple(SeenEnd(b, t.s), Norm(t.p), SeenEnd(b, t.o))
  }

  /** Blank nodes occur in subject and object position. */
  function TripleBNodes(t: Triple): set<string> {
    TermBNodes(t.s) + TermBNodes(t.o)
  }

  function BNodes(ts: seq<Triple>): set<string> {
    set t, b | t in ts && b in TripleBNodes(t) :: b
  }

  // ----- the printer is injective -----

  lemma EscapeUnfolds(a: string, x: string)
    requires a != ""
    ensures Escape(a) + "\"" + x == EscapeChar(a[0]) + (Escape(a[1..]) + "\"" + x)
  {
    hide EscapeChar;
  }

  lemma EscapeCharHead(c: char)
    ensures EscapeChar(c) != "" && EscapeChar(c)[0] != '"'
  {
  }

  lemma ClosingQuote(x: string)
    ensures Escape("") + "\"" + x == "\"" + x
  {
  }

  lemma EscapeHead(a: string, x: string)
    ensures Escape(a) + "\"" + x != ""
    ensures (Escape(a) + "\"" + x)[0] == '"' <==> a == ""
  {
    if a != "" {
      EscapeUnfolds(a, x);
      EscapeCharHead(a[0]);
    }
  }

  lemma {:induction false} EscapedLiteralEnds(a: string, b: string, x: string, y: string)
    requires Escape(a) + "\"" + x == Escape(b) + "\"" + y
    ensures a == b && x == y
  {
    hide Escape, EscapeChar;
    ClosingQuote(x);
    ClosingQuote(y);
    EscapeHead(a, x);
    EscapeHead(b, y);
    if a == "" {
      assert ("\"" + x)[1..] == x && ("\"" + y)[1..] == y;
    } else {
      EscapeUnfolds(a, x);
      EscapeUnfolds(b, y);
      EscapeCharDecodes(a[0], b[0], Escape(a[1..]) + "\"" + x, Escape(b[1..]) + "\"" + y);
      EscapedLiteralEnds(a[1..], b[1..], x, y);
      assert a == [a[0]] + a[1..] && b == [b[0]] + b[1..];
    }
  }

  lemma EscapeCharDecodes(c: char, d: char, x: string, y: string)
    requires EscapeChar(c) + x == EscapeChar(d) + y
    ensures c == d && x == y
  {
    var l, r := EscapeChar(c) + x, EscapeChar(d) + y;
    assert l[0] == EscapeChar(c)[0] && r[0] == EscapeChar(d)[0];
    assert |EscapeChar(c)| == |EscapeChar(d)|;
    if |EscapeChar(c)| == 2 {
      assert l[1] == EscapeChar(c)[1] && r[1] == EscapeChar(d)[1];
    }
    assert c == d;
    assert l[|EscapeChar(c)|..] == x && r[|EscapeChar(d)|..] == y;
  }

  lemma {:induction false} EscapeHasNoNewline(s: string)
    ensures '\n' !in Escape(s)
  {
    if s != "" { EscapeHasNoNewline(s[1..]); }
  }

  /** What follows the closing quote of a literal. */
  function Suffix(t: Term): string
    requires t.Lit?
  {
    if t.lang.Some? then "@" + t.lang.value
    else if t.dt.Some? && t.dt.value != XSD_STRING then "^^<" + t.dt.value + ">"
    else ""
  }

  lemma LiteralPrint(t: Term, naming: string -> string, x: string)
    requires t.Lit?
    ensures NtTerm(t, naming) + " " + x == "\"" + (Escape(t.val) + "\"" + (Suffix(t) + " " + x))
  {
    assert NtTerm(t, naming) == "\"" + Escape(t.val) + "\"" + Suffix(t);
    Regroup("\"", Escape(t.val), "\"", Suffix(t), " ", x);
  }

  lemma Regroup(a: string, b: string, c: string, d: string, e: string, f: string)
    ensures a + b + c + d + e + f == a + (b + c + (d + e + f))
  {
  }

  lemma DelimitedDecodes(open: string, mark: char, a: string, b: string, x: string, y: string)
    requires mark !in a && mark !in b
    requires open + a + [mark] + x == open + b + [mark] + y
    ensures a == b && x == y
  {
    var l, r := open + a + [mark] + x, open + b + [mark] + y;
    assert l[|open|..] == a + [mark] + x;
    assert r[|open|..] == b + [mark] + y;
    SplitAtMark(mark, a, b, x, y);
  }

  lemma DatatypeDecodes(a: string, b: string, x: string, y: string)
    requires '>' !in a && '>' !in b
    requires "^^<" + a + ">" + " " + x == "^^<" + b + ">" + " " + y
    ensures a == b && x == y
  {
    assert "^^<" + a + ">" + " " + x == "^^<" + a + ">" + (" " + x);
    assert "^^<" + b + ">" + " " + y == "^^<" + b + ">" + (" " + y);
    DelimitedDecodes("^^<", '>', a, b, " " + x, " " + y);
    assert (" " + x)[1..] == x && (" " + y)[1..] == y;
  }

  lemma SuffixDecodes(t: Term, u: Term, x: string, y: string)
    requires t.Lit? && u.Lit? && t.val == u.val
    requires WellFormedTerm(t) && WellFormedTerm(u)
    requires Suffix(t) + " " + x == Suffix(u) + " " + y
    ensures Norm(t) == Norm(u) && x == y
  {
    var l, r := Suffix(t) + " " + x, Suffix(u) + " " + y;
    assert l[0] == if Suffix(t) == "" then ' ' else Suffix(t)[0];
    assert r[0] == if Suffix(u) == "" then ' ' else Suffix(u)[0];
    if l[0] == ' ' {
      assert l[1..] == x && r[1..] == y;
    } else if l[0] == '@' {
      DelimitedDecodes("@", ' ', t.lang.value, u.lang.value, x, y);
    } else {
      DatatypeDecodes(t.dt.value, u.dt.value, x, y);
    }
  }

  lemma IriDecodes(i: string, j: string, x: string, y: string)
    requires '>' !in i && '>' !in j
    requires "<" + i + ">" + " " + x == "<" + j + ">" + " " + y
    ensures i == j && x == y
  {
    assert "<" + i + ">" + " " + x == "<" + i + ">" + (" " + x);
    assert "<" + j + ">" + " " + y == "<" + j + ">" + (" " + y);
    DelimitedDecodes("<", '>', i, j, " " + x, " " + y);
    assert (" " + x)[1..] == x && (" " + y)[1..] == y;
  }

  lemma LiteralDecodes(t: Term, f: string -> string, u: Term, g: string -> string, x: string, y: string)
    requires t.Lit? && u.Lit? && WellFormedTerm(t) && WellFormedTerm(u)
    requires NtTerm(t, f) + " " + x == NtTerm(u, g) + " " + y
    ensures Norm(t) == Norm(u) && x == y
  {
    LiteralPrint(t, f, x);
    LiteralPrint(u, g, y);
    var sx, sy := Suffix(t) + " " + x, Suffix(u) + " " + y;
    var l, r := Escape(t.val) + "\"" + sx, Escape(u.val) + "\"" + sy;
    assert "\"" + l == "\"" + r;
    assert ("\"" + l)[1..] == l && ("\"" + r)[1..] == r;
    EscapedLiteralEnds(t.val, u.val, sx, sy);
    SuffixDecodes(t, u, x, y);
  }

  function Head(t: Term): char {
    match t
    case Iri(_) => '<'
    case BNode(_) => '_'
    case Lit(_, _, _) => '"'
  }

  /** A printed term followed by a space determines the (relabelled) term and what follows. */
  lemma TermDecodes(t: Term, f: string -> string, u: Term, g: string -> string, x: string, y: string)
    requires WellFormedTerm(Relabel(f, t)) && WellFormedTerm(Relabel(g, u))
    requires NtTerm(t, f) + " " + x == NtTerm(u, g) + " " + y
    ensures Norm(Relabel(f, t)) == Norm(Relabel(g, u)) && x == y
  {
    assert (NtTerm(t, f) + " " + x)[0] == Head(t);
    assert (NtTerm(u, g) + " " + y)[0] == Head(u);
    match t
    case Iri(i) => IriDecodes(i, u.iri, x, y);
    case BNode(b) => DelimitedDecodes("_:", ' ', f(b), g(u.id), x, y);
    case Lit(_, _, _) => LiteralDecodes(t, f, u, g, x, y);
  }

  /** Two triples print alike under two labellings exactly when the labellings make them the same
      RDF triple. */
  lemma TripleDecodes(t: Triple, f: string -> string, u: Triple, g: string -> string)
    requires WellFormed(t) && WellFormed(u)
    requires WellFormed(RelabelTriple(f, t)) && WellFormed(RelabelTriple(g, u))
    ensures NtTriple(t, f) == NtTriple(u, g)
        <==> NormTriple(RelabelTriple(f, t)) == NormTriple(RelabelTriple(g, u))
  {
    if NtTriple(t, f) == NtTriple(u, g) {
      var end := ".\n";
      var lo, ro := NtTerm(t.o, f) + " " + end, NtTerm(u.o, g) + " " + end;
      var lp, rp := NtTerm(t.p, f) + " " + lo, NtTerm(u.p, g) + " " + ro;
      assert NtTriple(t, f) == NtTerm(t.s, f) + " " + lp;
      assert NtTriple(u, g) == NtTerm(u.s, g) + " " + rp;
      TermDecodes(t.s, f, u.s, g, lp, rp);
      TermDecodes(t.p, f, u.p, g, lo, ro);
      TermDecodes(t.o, f, u.o, g, end, end);
    }
    if NormTriple(RelabelTriple(f, t)) == NormTriple(RelabelTriple(g, u)) {
      PrintOfNorm(t.s, f, u.s, g);
      PrintOfNorm(t.p, f, u.p, g);
      PrintOfNorm(t.o, f, u.o, g);
    }
  }

  lemma PrintOfNorm(t: Term, f: string -> string, u: Term, g: string -> string)
    requires Norm(Relabel(f, t)) == Norm(Relabel(g, u))
    ensures NtTerm(t, f) == NtTerm(u, g)
  {
  }

  lemma TermHasNoNewline(t: Term, f: string -> string)
    requires WellFormedTerm(Relabel(f, t))
    ensures '\n' !in NtTerm(t, f)
  {
    if t.Lit? { EscapeHasNoNewline(t.val); }
  }

  /** Every printed triple is exactly one line. */
  lemma TripleIsLine(t: Triple, f: string -> string)
    requires WellFormed(RelabelTriple(f, t))
    ensures IsLine(NtTriple(t, f))
  {
    TermHasNoNewline(t.s, f);
    TermHasNoNewline(t.p, f);
    TermHasNoNewline(t.o, f);
    var body := NtTerm(t.s, f) + " " + NtTerm(t.p, f) + " " + NtTerm(t.o, f) + " .";
    assert NtTriple(t, f) == body + "\n";
    assert NtTriple(t, f)[..|body|] == body;
  }
}
