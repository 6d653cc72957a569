/**
 The N-Triples export and the line recogniser that decides which parser a file goes to.

 Every exported line whose blank-node labels carry no dot is recognised, whatever its literals hold; a
 recognised line is a sequence of bare terms ended by one dot. Where the recogniser is laxer than its
 description, concrete lines show it.
 */
module Sniffer {
  import opened Sequences
  import opened Text
  import opened Terms
  import NTriplesReader

  // ----- the recogniser -----

  predicate IsBlank(c: char) {
    c == ' ' || c == '\t' || c == '\r' || c == '\n'
  }

  /** Where a blank-node label stops: ASCII whitespace (form feed included), or the start of something
      else. */
  predicate StopsLabel(c: char) {
    IsBlank(c) || c == 12 as char || c == '.' || c == '<' || c == '"' || c == '\'' || c == '#'
  }

  predicate InTag(c: char) {
    'a' <= c <= 'z' || 'A' <= c <= 'Z' || '0' <= c <= '9' || c == '-'
  }

  /** What follows the first unescaped `end`; a backslash takes the next character with it. */
  function After(end: char, s: string): Option<string> {
    if s == "" then None
    else if s[0] == '\\' then (if |s| < 2 then None else After(end, s[2..]))
    else if s[0] == end then Some(s[1..])
    else After(end, s[1..])
  }

  function AfterLabel(s: string): (r: string)
    ensures |r| <= |s|
  {
    if s == "" || StopsLabel(s[0]) then s else AfterLabel(s[1..])
  }

  function AfterTag(s: string): (r: string)
    ensures |r| <= |s|
  {
    if s == "" || !InTag(s[0]) then s else AfterTag(s[1..])
  }

  function AfterSpaces(s: string): (r: string)
    ensures |r| <= |s|
  {
    if s == "" || !(s[0] == ' ' || s[0] == '\t') then s else AfterSpaces(s[1..])
  }

  lemma {:induction false} AfterShrinks(end: char, s: string)
    ensures After(end, s).Some? ==> |After(end, s).value| < |s|
    decreases |s|
  {
    if s != "" {
      if s[0] == '\\' {
        if |s| >= 2 { AfterShrinks(end, s[2..]); }
      } else if s[0] != end {
        AfterShrinks(end, s[1..]);
      }
    }
  }

  /** Does the rest of a line complete a statement, given whether the dot was seen and whether a literal
      has just closed? */
  predicate Bare(s: string, terminated: bool, afterLiteral: bool)
    decreases |s|
  {
    if s == "" || s[0] == '#' then terminated && !afterLiteral
    else if IsBlank(s[0]) then Bare(s[1..], terminated, afterLiteral)
    else if terminated then false
    else if s[0] == '<' then BareAfter('>', s[1..], false)
    else if s[0] == '_' && |s| > 1 && s[1] == ':' then Bare(AfterLabel(s[2..]), false, false)
    else if s[0] == '"' || s[0] == '\'' then
      if |s| > 2 && s[1] == s[0] && s[2] == s[0] then false else BareAfter(s[0], s[1..], true)
    else if s[0] == '@' && afterLiteral then
      |AfterTag(s[1..])| < |s[1..]| && Bare(AfterTag(s[1..]), false, false)
    else if s[0] == '^' && afterLiteral && |s| > 1 && s[1] == '^' then
      var r := AfterSpaces(s[2..]);
      r != "" && r[0] == '<' && Bare(r, false, false)
    else s[0] == '.' && Bare(s[1..], true, false)
  }

  predicate BareAfter(end: char, s: string, literal: bool)
    decreases |s|
  {
    AfterShrinks(end, s);
    match After(end, s)
    case None => false
    case Some(r) => Bare(r, false, literal)
  }

  lemma Suffix(s: string, i: nat, j: nat)
    requires i + j <= |s|
    ensures s[i..][j..] == s[i + j..]
  {
  }

  /** Scan to the first unescaped `end`. */
  method ScanTo(line: string, from: nat, end: char) returns (i: nat, found: bool)
    requires from <= |line|
    ensures found ==> from < i <= |line| && After(end, line[from..]) == Some(line[i..])
    ensures !found ==> After(end, line[from..]) == None
  {
    i := from;
    while true
      invariant from <= i
      invariant i <= |line| ==> After(end, line[from..]) == After(end, line[i..])
      invariant i > |line| ==> After(end, line[from..]) == None
      decreases |line| + 2 - i
    {
      if i >= |line| {
        if i == |line| { assert line[i..] == ""; }
        return i, false;
      }
      assert line[i..][0] == line[i] && line[i..][1..] == line[i + 1..];
      if line[i] == '\\' {
        if i + 2 <= |line| { Suffix(line, i, 2); }
        i := i + 2;
      } else if line[i] == end {
        return i + 1, true;
      } else {
        i := i + 1;
      }
    }
  }

  method ScanLabel(line: string, from: nat) returns (i: nat)
    requires from <= |line|
    ensures from <= i <= |line| && AfterLabel(line[from..]) == line[i..]
  {
    i := from;
    while i < |line| && !StopsLabel(line[i])
      invariant from <= i <= |line| && AfterLabel(line[from..]) == AfterLabel(line[i..])
    {
      assert line[i..][0] == line[i] && line[i..][1..] == line[i + 1..];
      i := i + 1;
    }
    assert i < |line| ==> line[i..][0] == line[i];
  }

  method ScanTag(line: string, from: nat) returns (i: nat)
    requires from <= |line|
    ensures from <= i <= |line| && AfterTag(line[from..]) == line[i..]
  {
    i := from;
    while i < |line| && InTag(line[i])
      invariant from <= i <= |line| && AfterTag(line[from..]) == AfterTag(line[i..])
    {
      assert line[i..][0] == line[i] && line[i..][1..] == line[i + 1..];
      i := i + 1;
    }
    assert i < |line| ==> line[i..][0] == line[i];
  }

  method ScanSpaces(line: string, from: nat) returns (i: nat)
    requires from <= |line|
    ensures from <= i <= |line| && AfterSpaces(line[from..]) == line[i..]
  {
    i := from;
    while i < |line| && (line[i] == ' ' || line[i] == '\t')
      invariant from <= i <= |line| && AfterSpaces(line[from..]) == AfterSpaces(line[i..])
    {
      assert line[i..][0] == line[i] && line[i..][1..] == line[i + 1..];
      i := i + 1;
    }
    assert i < |line| ==> line[i..][0] == line[i];
  }

  /** `line_is_bare_ntriples`: one pass with two flags. It always ends, on any line. */
  method LineIsBareNTriples(line: string) returns (b: bool)
    ensures b <==> Bare(line, false, false)
  {
    var terminated, afterLiteral, i := false, false, 0;
    assert line[0..] == line;
    while i < |line|
      invariant i <= |line|
      invariant Bare(line, false, false) == Bare(line[i..], terminated, afterLiteral)
      decreases |line| - i
    {
      hide After, AfterLabel, AfterTag, AfterSpaces;
      var c := line[i];
      ghost var rest := line[i..];
      assert rest[0] == c && rest[1..] == line[i + 1..] && |rest| == |line| - i;
      assert |rest| > 1 ==> rest[1] == line[i + 1];
      assert |rest| > 2 ==> rest[2] == line[i + 2];
      if IsBlank(c) {
        i := i + 1;
        continue;
      }
      if c == '#' {
        return terminated && !afterLiteral;
      }
      if terminated {
        return false;
      }
      if c == '<' {
        var found;
        i, found := ScanTo(line, i + 1, '>');
        if !found { return false; }
        afterLiteral := false;
      } else if c == '_' && i + 1 < |line| && line[i + 1] == ':' {
        Suffix(line, i, 2);
        i := ScanLabel(line, i + 2);
        afterLiteral := false;
      } else if c == '"' || c == '\'' {
        if i + 2 < |line| && line[i + 1] == c && line[i + 2] == c {
          return false;
        }
        var found;
        i, found := ScanTo(line, i + 1, c);
        if !found { return false; }
        afterLiteral := true;
      } else if c == '@' && afterLiteral {
        var start := i + 1;
        i := ScanTag(line, start);
        if i == start {
          return false;
        }
        afterLiteral := false;
      } else if c == '^' && afterLiteral && i + 1 < |line| && line[i + 1] == '^' {
        Suffix(line, i, 2);
        i := ScanSpaces(line, i + 2);
        if i >= |line| || line[i] != '<' {
          assert i < |line| ==> line[i..][0] == line[i];
          return false;
        }
        afterLiteral := false;
      } else if c == '.' {
        terminated, afterLiteral := true, false;
        i := i + 1;
      } else {
        return false;
      }
    }
    assert line[i..] == "";
    b := terminated && !afterLiteral;
  }

  // ----- the export -----

  /** One exported line; blank nodes keep their stored labels. */
  function ExportLine(t: Triple): string {
    NtTerm(t.s, StoredNaming()) + " " + NtTerm(t.p, StoredNaming()) + " " + NtTerm(t.o, StoredNaming()) + " ."
  }

  method ExportLines(ts: seq<Triple>) returns (lines: seq<string>)
    ensures lines == Sort(Map(ExportLine, ts)) && Sorted(lines)
  {
    lines := [];
    for i := 0 to |ts|
      invariant lines == Map(ExportLine, ts[..i])
    {
      hide ExportLine;
      lines := lines + [ExportLine(ts[i])];
    }
    assert ts[..|ts|] == ts;
    SortSorts(lines);
    lines := Sort(lines);
  }

  /** An exported line reads back, by the grammar of N-Triples, as its triple under the stored labels. */
  lemma ExportReads(t: Triple)
    requires WellFormed(t)
    ensures NTriplesReader.ReadTriple(ExportLine(t)) == NTriplesReader.Got(NormTriple(t), "")
  {
    hide NtTerm, NTriplesReader.Prints, NTriplesReader.ReadTriple;
    var f := StoredNaming();
    NTriplesReader.NtPrints(t.s, f);
    NTriplesReader.NtPrints(t.p, f);
    NTriplesReader.NtPrints(t.o, f);
    assert RelabelTriple(f, t) == t;
    NTriplesReader.TripleReads(NtTerm(t.s, f), NtTerm(t.p, f), NtTerm(t.o, f), t, f, "");
    assert ExportLine(t) == NtTerm(t.s, f) + " " + NtTerm(t.p, f) + " " + NtTerm(t.o, f) + " ." + "";
  }

  predicate SafeIri(i: string) {
    '>' !in i && '\\' !in i
  }

  /** Label characters of N-Triples: nothing that stops a label, except that dots may occur. */
  predicate LabelBody(b: string) {
    forall i :: 0 <= i < |b| ==> b[i] == '.' || !StopsLabel(b[i])
  }

  predicate TagBody(l: string) {
    l != "" && forall i :: 0 <= i < |l| ==> InTag(l[i])
  }

  predicate Exportable(t: Term) {
    match t
    case Iri(i) => SafeIri(i)
    case BNode(b) => LabelBody(b)
    case Lit(_, dt, lang) => (dt.Some? ==> SafeIri(dt.value)) && (lang.Some? ==> TagBody(lang.value))
  }

  predicate ExportableTriple(t: Triple) {
    Exportable(t.s) && Exportable(t.p) && Exportable(t.o) && !t.s.Lit? && t.p.Iri?
  }

  predicate Dotless(t: Term) {
    t.BNode? ==> '.' !in t.id
  }

  lemma {:induction false} AfterIri(i: string, r: string)
    requires SafeIri(i)
    ensures After('>', i + ">" + r) == Some(r)
  {
    var s := i + ">" + r;
    if i == "" {
      assert s[0] == '>' && s[1..] == r;
    } else {
      assert s[0] == i[0] && s[1..] == i[1..] + ">" + r;
      AfterIri(i[1..], r);
    }
  }

  /** Escaping hides every quote and backslash of a literal's text from the scanner. */
  lemma {:induction false} AfterEscaped(v: string, r: string)
    ensures After('"', Escape(v) + "\"" + r) == Some(r)
  {
    var s := Escape(v) + "\"" + r;
    if v == "" {
      assert s[0] == '"' && s[1..] == r;
    } else {
      var e, rest := EscapeChar(v[0]), Escape(v[1..]) + "\"" + r;
      assert s == e + rest;
      AfterEscaped(v[1..], r);
      if |e| == 2 {
        assert s[0] == '\\' && s[2..] == rest;
      } else {
        assert s[0] == v[0] && s[1..] == rest;
      }
    }
  }

  lemma {:induction false} AfterWholeLabel(b: string, r: string)
    requires forall i :: 0 <= i < |b| ==> !StopsLabel(b[i])
    requires r != "" && StopsLabel(r[0])
    ensures AfterLabel(b + r) == r
  {
    if b == "" {
      assert b + r == r;
    } else {
      assert (b + r)[0] == b[0] && (b + r)[1..] == b[1..] + r;
      AfterWholeLabel(b[1..], r);
    }
  }

  lemma {:induction false} AfterWholeTag(l: string, r: string)
    requires forall i :: 0 <= i < |l| ==> InTag(l[i])
    requires r != "" && !InTag(r[0])
    ensures AfterTag(l + r) == r
  {
    if l == "" {
      assert l + r == r;
    } else {
      assert (l + r)[0] == l[0] && (l + r)[1..] == l[1..] + r;
      AfterWholeTag(l[1..], r);
    }
  }

  lemma IriSkipped(i: string, r: string, lit: bool)
    requires SafeIri(i)
    ensures Bare("<" + i + ">" + r, false, lit) == Bare(r, false, false)
  {
    hide After, Bare;
    AfterIri(i, r);
    var s := "<" + i + ">" + r;
    assert s[0] == '<' && s[1..] == i + ">" + r;
    BareIri(s, lit);
  }

  lemma BareIri(s: string, lit: bool)
    requires s != "" && s[0] == '<'
    ensures Bare(s, false, lit) == BareAfter('>', s[1..], false)
  {
  }

  /** A label with no dot is one token. */
  lemma LabelSkipped(b: string, r: string)
    requires forall i :: 0 <= i < |b| ==> !StopsLabel(b[i])
    requires r != "" && StopsLabel(r[0])
    ensures Bare("_:" + b + r, false, false) == Bare(r, false, false)
  {
    var s := "_:" + b + r;
    assert s[0] == '_' && s[1] == ':' && s[2..] == b + r;
    AfterWholeLabel(b, r);
  }

  /** At a dot inside a label the statement seems to end, and whatever follows spoils it. */
  lemma DottedLabelStops(b: string, r: string)
    requires LabelBody(b) && '.' in b
    requires |r| > 1 && r[0] == ' ' && !IsBlank(r[1]) && r[1] != '#'
    ensures !Bare("_:" + b + r, false, false)
  {
    var k := FirstDot(b);
    var s, tail := "_:" + b + r, b[k..] + r;
    assert s[0] == '_' && s[1] == ':' && s[2..] == b[..k] + tail;
    assert tail[0] == '.';
    AfterWholeLabel(b[..k], tail);
    assert !Bare(tail[1..], true, false) by {
      if k + 1 < |b| {
        assert tail[1] == b[k + 1];
      } else {
        assert tail[1..] == r && r[1..][0] == r[1];
      }
    }
  }

  lemma FirstDot(b: string) returns (k: nat)
    requires LabelBody(b) && '.' in b
    ensures k < |b| && b[k] == '.' && forall i :: 0 <= i < k ==> !StopsLabel(b[i])
  {
    k := 0;
    while b[k] != '.'
      invariant k < |b| && '.' in b[k..] && forall i :: 0 <= i < k ==> b[i] != '.'
      decreases |b| - k
    {
      assert b[k..] == [b[k]] + b[k + 1..];
      k := k + 1;
    }
  }

  lemma LiteralSkipped(v: string, r: string)
    requires r != "" && r[0] != '"'
    ensures Bare("\"" + Escape(v) + "\"" + r, false, false) == Bare(r, false, true)
  {
    var rest := Escape(v) + "\"" + r;
    var s := "\"" + Escape(v) + "\"" + r;
    assert s[0] == '"' && s[1..] == rest;
    AfterEscaped(v, r);
    assert !(s[1] == '"' && s[2] == '"') by {
      if v == "" {
        assert rest[1] == r[0];
      } else {
        assert Escape(v)[0] == EscapeChar(v[0])[0] && EscapeChar(v[0])[0] != '"';
      }
    }
    hide After, Escape;
    BareLiteral(s);
  }

  lemma BareLiteral(s: string)
    requires |s| > 2 && s[0] == '"' && !(s[1] == '"' && s[2] == '"')
    ensures Bare(s, false, false) == BareAfter('"', s[1..], true)
  {
  }

  lemma TagSkipped(l: string, r: string)
    requires TagBody(l) && r != "" && !InTag(r[0])
    ensures Bare("@" + l + r, false, true) == Bare(r, false, false)
  {
    var s := "@" + l + r;
    assert s[0] == '@' && s[1..] == l + r;
    AfterWholeTag(l, r);
  }

  lemma DatatypeSkipped(d: string, r: string)
    requires SafeIri(d)
    ensures Bare("^^<" + d + ">" + r, false, true) == Bare(r, false, false)
  {
    var s, q := "^^<" + d + ">" + r, "<" + d + ">" + r;
    assert s[0] == '^' && s[1] == '^' && s[2..] == q && q[0] == '<';
    assert AfterSpaces(q) == q;
    IriSkipped(d, r, false);
  }

  lemma BlankSkipped(r: string, terminated: bool, lit: bool)
    ensures Bare(" " + r, terminated, lit) == Bare(r, terminated, lit)
  {
    assert (" " + r)[0] == ' ' && (" " + r)[1..] == r;
  }

  /** Reading one printed term and the blank after it. */
  predicate Undecorated(t: Term) {
    t.Lit? && t.lang.None? && (t.dt.None? || t.dt.value == XSD_STRING)
  }

  lemma TermSkipped(t: Term, r: string)
    requires Exportable(t) && Dotless(t)
    ensures Bare(NtTerm(t, StoredNaming()) + " " + r, false, false) == Bare(r, false, Undecorated(t))
  {
    hide Bare, Escape;
    BlankSkipped(r, false, Undecorated(t));
    assert (" " + r)[0] == ' ';
    match t
    case Iri(i) =>
      assert NtTerm(t, StoredNaming()) + " " + r == "<" + i + ">" + (" " + r);
      IriSkipped(i, " " + r, false);
    case BNode(b) =>
      assert NtTerm(t, StoredNaming()) + " " + r == "_:" + b + (" " + r);
      LabelSkipped(b, " " + r);
    case Lit(_, _, _) =>
      assert NtTerm(t, StoredNaming()) + " " + r == NtTerm(t, StoredNaming()) + (" " + r);
      LiteralTermSkipped(t, " " + r);
  }

  lemma LiteralTermSkipped(t: Term, r: string)
    requires t.Lit? && Exportable(t) && r != "" && r[0] == ' '
    ensures Bare(NtTerm(t, StoredNaming()) + r, false, false) == Bare(r, false, Undecorated(t))
  {
    hide Bare, Escape, TagBody, SafeIri;
    var quoted := "\"" + Escape(t.val) + "\"";
    if t.lang.Some? {
      var tag := "@" + t.lang.value;
      assert NtTerm(t, StoredNaming()) + r == quoted + (tag + r);
      assert (tag + r)[0] == '@';
      LiteralSkipped(t.val, tag + r);
      TagSkipped(t.lang.value, r);
    } else if t.dt.Some? && t.dt.value != XSD_STRING {
      var datatyped := "^^<" + t.dt.value + ">";
      assert NtTerm(t, StoredNaming()) + r == quoted + (datatyped + r);
      assert (datatyped + r)[0] == '^';
      LiteralSkipped(t.val, datatyped + r);
      DatatypeSkipped(t.dt.value, r);
    } else {
      LiteralSkipped(t.val, r);
    }
  }

  lemma DotEnds(lit: bool)
    ensures Bare(".", false, lit)
  {
    assert "."[1..] == "";
  }

  /** The recogniser accepts an exported line exactly when its blank-node labels hold no dot. Any literal
      text, language tag or datatype goes through. */
  lemma ExportRecognised(t: Triple)
    requires ExportableTriple(t)
    ensures Bare(ExportLine(t), false, false) <==> Dotless(t.s) && Dotless(t.o)
  {
    hide Bare, NtTerm, Exportable, Dotless;
    var o := NtTerm(t.o, StoredNaming()) + " " + ".";
    var p := NtTerm(t.p, StoredNaming()) + " " + o;
    assert ExportLine(t) == NtTerm(t.s, StoredNaming()) + " " + p;
    DotEnds(Undecorated(t.o));
    IriIsDotless(t.p);
    TermSkipped(t.p, o);
    if Dotless(t.s) { TermSkipped(t.s, p); } else { DottedSubject(t.s, t.p, o); }
    if Dotless(t.o) { TermSkipped(t.o, "."); } else { DottedTerm(t.o, "."); }
  }

  lemma IriIsDotless(t: Term)
    requires t.Iri?
    ensures Dotless(t)
  {
  }

  lemma DottedTerm(t: Term, r: string)
    requires Exportable(t) && !Dotless(t) && r != "" && !IsBlank(r[0]) && r[0] != '#'
    ensures !Bare(NtTerm(t, StoredNaming()) + " " + r, false, false)
  {
    hide Bare;
    assert NtTerm(t, StoredNaming()) + " " + r == "_:" + t.id + (" " + r);
    assert (" " + r)[0] == ' ' && (" " + r)[1] == r[0];
    DottedLabelStops(t.id, " " + r);
  }

  lemma DottedSubject(s: Term, p: Term, o: string)
    requires Exportable(s) && !Dotless(s) && p.Iri?
    ensures !Bare(NtTerm(s, StoredNaming()) + " " + (NtTerm(p, StoredNaming()) + " " + o), false, false)
  {
    hide Bare;
    assert (NtTerm(p, StoredNaming()) + " " + o)[0] == '<';
    DottedTerm(s, NtTerm(p, StoredNaming()) + " " + o);
  }

  // ----- two families it accepts against its description; LineTokens says when it keeps to it -----

  /** The description routes `"x" @en`, with a blank before the tag, to the Turtle parser; the blank does
      not clear the flag, so the line is taken for N-Triples. */
  lemma SpacedTagAccepted(v: string, l: string)
    requires TagBody(l)
    ensures Bare("\"" + Escape(v) + "\"" + (" @" + l + " ."), false, false)
  {
    hide Bare, Escape;
    LiteralSkipped(v, " @" + l + " .");
    assert " @" + l + " ." == " " + ("@" + l + " .");
    BlankSkipped("@" + l + " .", false, true);
    TagSkipped(l, " .");
    assert " ." == " " + ".";
    BlankSkipped(".", false, false);
    DotEnds(false);
  }

  /** A label runs on to the next blank, so the comma of a Turtle object list hides inside one: the line
      `_:a <p> _:b, _:c .` is taken for N-Triples. */
  lemma ObjectListAccepted(p: string, a: string, b: string, c: string)
    requires SafeIri(p)
    requires forall x, i :: x in [a, b, c] && 0 <= i < |x| ==> !StopsLabel(x[i])
    ensures Bare("_:" + a + (" <" + p + "> _:" + b + ", _:" + c + " ."), false, false)
  {
    hide Bare;
    var end := " .";
    var third := " " + ("_:" + c + end);
    var second := " " + ("_:" + (b + ",") + third);
    var first := " " + ("<" + p + ">" + second);
    assert " <" + p + "> _:" + b + ", _:" + c + " ." == first;
    assert a in [a, b, c] && b in [a, b, c] && c in [a, b, c];
    LabelSkipped(a, first);
    BlankSkipped("<" + p + ">" + second, false, false);
    IriSkipped(p, second, false);
    BlankSkipped("_:" + (b + ",") + third, false, false);
    LabelSkipped(b + ",", third);
    BlankSkipped("_:" + c + end, false, false);
    LabelSkipped(c, end);
    assert end == " " + ".";
    BlankSkipped(".", false, false);
    DotEnds(false);
  }
}
