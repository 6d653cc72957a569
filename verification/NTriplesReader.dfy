/**
 Reading a line of N-Triples back, by the grammar of RDF 1.1 N-Triples: terms in the order subject,
 predicate, object, the escapes of its string literals, tags and datatypes behind the closing quote.

 Whatever the engine prints, for a canonical document, an export or the first-degree digest, reads back
 as the triple it stands for.
 */
module NTriplesReader {
  import opened Sequences
  import opened Text
  import opened Terms

  /** What was read, and the rest of the line. */
  datatype Read<T> = Fail | Got(value: T, rest: string)

  function Until(mark: char, s: string): Read<string> {
    if s == "" then Fail
    else if s[0] == mark then Got("", s[1..])
    else match Until(mark, s[1..]) case Fail => Fail case Got(body, rest) => Got([s[0]] + body, rest)
  }

  /** The escapes of the grammar (ECHAR). */
  function Unescaped(c: char): Option<char> {
    match c
    case 't' => Some('\t')
    case 'b' => Some(8 as char)
    case 'n' => Some('\n')
    case 'r' => Some('\r')
    case 'f' => Some(12 as char)
    case '"' => Some('"')
    case '\'' => Some('\'')
    case '\\' => Some('\\')
    case _ => None
  }

  /** A string up to its closing quote. */
  function ReadString(s: string): Read<string> {
    if s == "" then Fail
    else if s[0] == '"' then Got("", s[1..])
    else if s[0] == '\\' then
      if |s| < 2 || Unescaped(s[1]).None? then Fail
      else match ReadString(s[2..]) case Fail => Fail case Got(body, rest) => Got([Unescaped(s[1]).value] + body, rest)
    else match ReadString(s[1..]) case Fail => Fail case Got(body, rest) => Got([s[0]] + body, rest)
  }

  /** A label or a tag ends at the next blank, which stays. */
  function Word(s: string): Read<string> {
    match Until(' ', s) case Fail => Fail case Got(body, rest) => Got(body, " " + rest)
  }

  predicate StartsWith(s: string, prefix: string) {
    |s| >= |prefix| && s[..|prefix|] == prefix
  }

  /** What may stand behind a closing quote: a tag, a datatype, or nothing. */
  function Decorated(val: string, s: string): Read<Term> {
    if StartsWith(s, "@") then
      match Word(s[1..]) case Fail => Fail case Got(tag, rest) => Got(Lit(val, None, Some(tag)), rest)
    else if StartsWith(s, "^^<") then
      match Until('>', s[3..]) case Fail => Fail case Got(dt, rest) => Got(Lit(val, Some(dt), None), rest)
    else Got(Lit(val, None, None), s)
  }

  function ReadLiteral(s: string): Read<Term> {
    match ReadString(s) case Fail => Fail case Got(val, rest) => Decorated(val, rest)
  }

  function ReadTerm(s: string): Read<Term> {
    if StartsWith(s, "<") then
      match Until('>', s[1..]) case Fail => Fail case Got(iri, rest) => Got(Iri(iri), rest)
    else if StartsWith(s, "_:") then
      match Word(s[2..]) case Fail => Fail case Got(b, rest) => Got(BNode(b), rest)
    else if StartsWith(s, "\"") then ReadLiteral(s[1..])
    else Fail
  }

  /** A term and the blank after it. */
  function ReadSpaced(s: string): Read<Term> {
    match ReadTerm(s)
    case Fail => Fail
    case Got(t, rest) => if StartsWith(rest, " ") then Got(t, rest[1..]) else Fail
  }

  function ReadTriple(s: string): Read<Triple> {
    match ReadSpaced(s)
    case Fail => Fail
    case Got(a, r1) =>
      match ReadSpaced(r1)
      case Fail => Fail
      case Got(p, r2) =>
        match ReadSpaced(r2)
        case Fail => Fail
        case Got(o, r3) => if StartsWith(r3, ".") then Got(Triple(a, p, o), r3[1..]) else Fail
  }

  // ----- what is printed reads back -----

  lemma {:induction false} UntilIs(mark: char, body: string, rest: string)
    requires mark !in body
    ensures Until(mark, body + [mark] + rest) == Got(body, rest)
  {
    var s := body + [mark] + rest;
    if body == "" {
      assert s[0] == mark && s[1..] == rest;
    } else {
      assert s[0] == body[0] && s[1..] == body[1..] + [mark] + rest;
      assert mark !in body[1..];
      UntilIs(mark, body[1..], rest);
      assert body == [body[0]] + body[1..];
    }
  }

  lemma WordIs(body: string, rest: string)
    requires ' ' !in body
    ensures Word(body + " " + rest) == Got(body, " " + rest)
  {
    UntilIs(' ', body, rest);
  }

  /** Text under an escape that the grammar undoes character by character. */
  ghost predicate Undone(val: string, text: string) {
    if val == "" then text == ""
    else
      (text != "" && text[0] == val[0] && val[0] != '"' && val[0] != '\\' && Undone(val[1..], text[1..]))
      || (|text| >= 2 && text[0] == '\\' && Unescaped(text[1]) == Some(val[0]) && Undone(val[1..], text[2..]))
  }

  lemma {:induction false} StringReads(val: string, text: string, rest: string)
    requires Undone(val, text)
    ensures ReadString(text + "\"" + rest) == Got(val, rest)
    decreases |val|
  {
    var s := text + "\"" + rest;
    if val == "" {
      assert s[0] == '"' && s[1..] == rest;
    } else {
      assert val == [val[0]] + val[1..];
      if text[0] == val[0] && val[0] != '"' && val[0] != '\\' && Undone(val[1..], text[1..]) {
        assert s[0] == text[0] && s[1..] == text[1..] + "\"" + rest;
        StringReads(val[1..], text[1..], rest);
      } else {
        assert s[0] == text[0] && s[1] == text[1] && s[2..] == text[2..] + "\"" + rest;
        StringReads(val[1..], text[2..], rest);
      }
    }
  }

  lemma TagReads(val: string, tag: string, rest: string)
    requires ' ' !in tag
    ensures Decorated(val, "@" + tag + " " + rest) == Got(Lit(val, None, Some(tag)), " " + rest)
  {
    hide Word;
    var s := "@" + tag + " " + rest;
    assert s[..1] == "@" && s[1..] == tag + " " + rest;
    WordIs(tag, rest);
  }

  lemma DatatypeReads(val: string, dt: string, rest: string)
    requires '>' !in dt
    ensures Decorated(val, "^^<" + dt + ">" + rest) == Got(Lit(val, Some(dt), None), rest)
  {
    hide Until;
    var s := "^^<" + dt + ">" + rest;
    assert s[..3] == "^^<" && s[3..] == dt + [">"[0]] + rest && s[0] == '^';
    UntilIs('>', dt, rest);
  }

  lemma SuffixReads(t: Term, rest: string)
    requires t.Lit? && WellFormedTerm(t)
    ensures Decorated(t.val, Suffix(t) + " " + rest) == Got(Norm(t), " " + rest)
  {
    var s := Suffix(t) + " " + rest;
    if t.lang.Some? {
      hide Decorated;
      TagReads(t.val, t.lang.value, rest);
    } else if t.dt.Some? && t.dt.value != XSD_STRING {
      hide Decorated;
      assert s == "^^<" + t.dt.value + ">" + (" " + rest);
      DatatypeReads(t.val, t.dt.value, " " + rest);
    } else {
      assert s == " " + rest && s[0] == ' ';
    }
  }

  lemma LiteralReads(t: Term, text: string, rest: string)
    requires t.Lit? && WellFormedTerm(t) && Undone(t.val, text)
    ensures ReadLiteral(text + "\"" + (Suffix(t) + " " + rest)) == Got(Norm(t), " " + rest)
  {
    hide ReadString, Decorated, Undone, Suffix;
    StringReads(t.val, text, Suffix(t) + " " + rest);
    SuffixReads(t, rest);
  }

  /** A printer of terms that writes IRIs and blank nodes as the grammar has them, and literals with some
      escape that the grammar undoes. */
  ghost predicate Prints(text: string, t: Term, naming: string -> string) {
    match t
    case Iri(i) => text == "<" + i + ">"
    case BNode(b) => text == "_:" + naming(b)
    case Lit(val, _, _) => exists body :: Undone(val, body) && text == "\"" + body + "\"" + Suffix(t)
  }

  lemma TermReads(text: string, t: Term, naming: string -> string, rest: string)
    requires Prints(text, t, naming) && WellFormedTerm(Relabel(naming, t))
    ensures ReadSpaced(text + " " + rest) == Got(Norm(Relabel(naming, t)), rest)
  {
    var s := text + " " + rest;
    hide Until, ReadLiteral, Word, Undone;
    assert (" " + rest)[..1] == " " && (" " + rest)[1..] == rest;
    match t
    case Iri(i) =>
      assert s[..1] == "<" && s[1..] == i + [">"[0]] + (" " + rest);
      UntilIs('>', i, " " + rest);
    case BNode(b) =>
      assert s[..2] == "_:" && s[2..] == naming(b) + " " + rest;
      assert s[0] == '_';
      WordIs(naming(b), rest);
    case Lit(val, _, _) =>
      var body :| Undone(val, body) && text == "\"" + body + "\"" + Suffix(t);
      assert s[..1] == "\"" && s[1..] == body + "\"" + (Suffix(t) + " " + rest);
      assert s[0] == '"';
      LiteralReads(t, body, rest);
  }

  lemma TripleReads(a: string, p: string, o: string, t: Triple, naming: string -> string, rest: string)
    requires Prints(a, t.s, naming) && Prints(p, t.p, naming) && Prints(o, t.o, naming)
    requires WellFormedTerm(Relabel(naming, t.s)) && WellFormedTerm(Relabel(naming, t.p)) && WellFormedTerm(Relabel(naming, t.o))
    ensures ReadTriple(a + " " + p + " " + o + " ." + rest) == Got(NormTriple(RelabelTriple(naming, t)), rest)
  {
    hide Prints, ReadSpaced;
    var r3 := "." + rest;
    var r2 := o + " " + r3;
    var r1 := p + " " + r2;
    assert a + " " + p + " " + o + " ." + rest == a + " " + r1;
    assert r3[..1] == "." && r3[1..] == rest;
    TermReads(a, t.s, naming, r1);
    TermReads(p, t.p, naming, r2);
    TermReads(o, t.o, naming, r3);
  }

  // ----- the canonical printer and the export -----

  /** The five escapes, and no others. */
  lemma EscapeTable(c: char)
    ensures EscapeChar('\\') == "\\\\" && EscapeChar('"') == "\\\"" && EscapeChar('\n') == "\\n"
    ensures EscapeChar('\r') == "\\r" && EscapeChar('\t') == "\\t"
    ensures c !in "\\\"\n\r\t" ==> EscapeChar(c) == [c]
  {
    var five := "\\\"\n\r\t";
    assert five[0] == '\\' && five[1] == '"' && five[2] == '\n' && five[3] == '\r' && five[4] == '\t';
  }

  lemma {:induction false} EscapeUndone(val: string)
    ensures Undone(val, Escape(val))
  {
    if val != "" {
      EscapeUndone(val[1..]);
      var e := EscapeChar(val[0]);
      assert Escape(val) == e + Escape(val[1..]);
      assert Escape(val)[|e|..] == Escape(val[1..]) && Escape(val)[0] == e[0];
      assert |e| == 2 ==> Escape(val)[1] == e[1];
    }
  }

  lemma NtPrints(t: Term, naming: string -> string)
    ensures Prints(NtTerm(t, naming), t, naming)
  {
    if t.Lit? {
      EscapeUndone(t.val);
      assert NtTerm(t, naming) == "\"" + Escape(t.val) + "\"" + Suffix(t);
    }
  }

  /** A canonical line reads back as its triple, relabelled. */
  lemma NtTripleReads(t: Triple, naming: string -> string)
    requires WellFormed(RelabelTriple(naming, t))
    ensures ReadTriple(NtTriple(t, naming)) == Got(NormTriple(RelabelTriple(naming, t)), "\n")
  {
    hide NtTerm, Prints;
    NtPrints(t.s, naming);
    NtPrints(t.p, naming);
    NtPrints(t.o, naming);
    assert NtTriple(t, naming) == NtTerm(t.s, naming) + " " + NtTerm(t.p, naming) + " " + NtTerm(t.o, naming) + " ." + "\n";
    TripleReads(NtTerm(t.s, naming), NtTerm(t.p, naming), NtTerm(t.o, naming), t, naming, "\n");
  }
}
