/**
 What a line that the N-Triples recogniser accepts looks like, token by token, and exactly which accepted
 lines its description would have turned away.
 */
module LineTokens {
  import opened Sequences
  import opened Text
  import opened Terms
  import opened Sniffer

  datatype Token =
    | Space(c: char)
    | IriRef(body: string)
    | LabelToken(body: string)
    | Quoted(quote: char, body: string)
    | Tag(body: string)
    | Carets(spaces: string)
    | Dot

  function TextOf(t: Token): string {
    match t
    case Space(c) => [c]
    case IriRef(body) => "<" + body + ">"
    case LabelToken(body) => "_:" + body
    case Quoted(q, body) => [q] + body + [q]
    case Tag(body) => "@" + body
    case Carets(spaces) => "^^" + spaces
    case Dot => "."
  }

  /** No unescaped `end` before the end. */
  predicate Encloses(end: char, body: string) {
    After(end, body + [end]) == Some("")
  }

  predicate InLabel(body: string) {
    forall i :: 0 <= i < |body| ==> !StopsLabel(body[i])
  }

  predicate OnlySpaces(spaces: string) {
    forall i :: 0 <= i < |spaces| ==> spaces[i] == ' ' || spaces[i] == '\t'
  }

  predicate ProperToken(t: Token) {
    match t
    case Space(c) => IsBlank(c)
    case IriRef(body) => Encloses('>', body)
    case LabelToken(body) => InLabel(body)
    case Quoted(q, body) => (q == '"' || q == '\'') && Encloses(q, body)
    case Tag(body) => TagBody(body)
    case Carets(spaces) => OnlySpaces(spaces)
    case Dot => true
  }

  /** A language tag or the carets of a datatype. */
  predicate IsMark(t: Token) {
    t.Tag? || t.Carets?
  }

  /** Nothing but blanks after the dot; a mark needs a literal before it. */
  predicate Allowed(t: Token, terminated: bool, lit: bool) {
    ProperToken(t) && (t.Space? || !terminated) && (IsMark(t) ==> lit)
  }

  function NextTerminated(t: Token, terminated: bool): bool {
    terminated || t.Dot?
  }

  function NextLit(t: Token, lit: bool): bool {
    if t.Space? then lit else t.Quoted?
  }

  /** A label runs on as far as it can, an empty literal is not the start of a long one, and carets are
      followed by an IRI. */
  predicate Joins(t: Token, rest: seq<Token>) {
    && (t.LabelToken? && rest != [] ==> !rest[0].LabelToken?)
    && (t.Quoted? && t.body == "" && rest != [] ==> !(rest[0].Quoted? && rest[0].quote == t.quote))
    && (t.Carets? ==> rest != [] && rest[0].IriRef?)
  }

  /** A complete statement of bare terms. */
  predicate Statement(toks: seq<Token>, terminated: bool, lit: bool) {
    if toks == [] then terminated && !lit
    else
      && Allowed(toks[0], terminated, lit) && Joins(toks[0], toks[1..])
      && Statement(toks[1..], NextTerminated(toks[0], terminated), NextLit(toks[0], lit))
  }

  function SpelledBy(toks: seq<Token>): string {
    if toks == [] then "" else TextOf(toks[0]) + SpelledBy(toks[1..])
  }

  /** The line is the tokens' text, up to a trailing comment. */
  predicate Spells(s: string, toks: seq<Token>, tail: string) {
    s == SpelledBy(toks) + tail && (tail == "" || tail[0] == '#')
  }

  // ----- the characters of the tokens, by code point -----

  /** Space, tab, carriage return, line feed. */
  predicate BlankCode(n: int) {
    n == 32 || n == 9 || n == 13 || n == 10
  }

  /** A label stops at a blank, a form feed, and at . < " ' # */
  predicate StopCode(n: int) {
    BlankCode(n) || n == 12 || n == 46 || n == 60 || n == 34 || n == 39 || n == 35
  }

  /** A tag is made of letters, digits and hyphens. */
  predicate TagCode(n: int) {
    97 <= n <= 122 || 65 <= n <= 90 || 48 <= n <= 57 || n == 45
  }

  /** The tokens, character by character: what encloses an IRI or a quoted text occurs in it only behind a
      backslash, an odd number of them. */
  predicate Lexical(t: Token) {
    match t
    case Space(c) => BlankCode(c as int)
    case IriRef(body) => Unbroken('>', body, 0)
    case LabelToken(body) => forall i :: 0 <= i < |body| ==> !StopCode(body[i] as int)
    case Quoted(q, body) => (q == '"' || q == '\'') && Unbroken(q, body, 0)
    case Tag(body) => body != "" && forall i :: 0 <= i < |body| ==> TagCode(body[i] as int)
    case Carets(spaces) => forall i :: 0 <= i < |spaces| ==> spaces[i] as int == 32 || spaces[i] as int == 9
    case Dot => true
  }

  /** From place i on, no `end` stands without a backslash before it, and no backslash is left alone at the
      end. */
  predicate Unbroken(end: char, body: string, i: nat)
    decreases |body| - i
  {
    if i >= |body| then true
    else if body[i] == '\\' then i + 1 < |body| && Unbroken(end, body, i + 2)
    else body[i] != end && Unbroken(end, body, i + 1)
  }

  lemma {:induction false} UnbrokenEncloses(end: char, body: string, i: nat)
    requires i <= |body| && end != '\\'
    ensures Unbroken(end, body, i) <==> After(end, body[i..] + [end]) == Some("")
    decreases |body| - i
  {
    var s := body[i..] + [end];
    if i == |body| {
      assert s == [end] && s[1..] == "";
    } else if body[i] == '\\' {
      if i + 1 < |body| {
        assert s[0] == '\\' && s[2..] == body[i + 2..] + [end];
        UnbrokenEncloses(end, body, i + 2);
      } else {
        assert s == "\\" + [end];
        LoneBackslash(end);
      }
    } else {
      assert s[0] == body[i] && s[1..] == body[i + 1..] + [end];
      if body[i] == end {
        assert After(end, s) == Some(s[1..]) && |s[1..]| > 0;
      } else {
        UnbrokenEncloses(end, body, i + 1);
      }
    }
  }

  /** The tokens the recogniser reads are these. */
  lemma ProperIsLexical(t: Token)
    ensures ProperToken(t) <==> Lexical(t)
  {
    hide After, Unbroken;
    match t
    case IriRef(body) => UnbrokenEncloses('>', body, 0); assert body[0..] == body;
    case Quoted(q, body) =>
      assert body[0..] == body;
      if q != '\\' { UnbrokenEncloses(q, body, 0); }
    case _ =>
  }

  // ----- one token -----

  /** Joins, seen from the text that follows. */
  predicate JoinsText(t: Token, rest: string) {
    && (t.LabelToken? && rest != "" ==> StopsLabel(rest[0]))
    && (t.Quoted? && t.body == "" && rest != "" ==> rest[0] != t.quote)
    && (t.Tag? && rest != "" ==> !InTag(rest[0]))
    && (t.Carets? ==> rest != "" && rest[0] == '<')
  }

  lemma {:induction false} EnclosedIsRead(end: char, body: string, rest: string)
    requires Encloses(end, body) && end != '\\'
    ensures After(end, body + [end] + rest) == Some(rest)
    ensures body != "" ==> body[0] != end
    decreases |body|
  {
    var s, e := body + [end] + rest, body + [end];
    if body == "" {
      assert s[0] == end && s[1..] == rest;
    } else if body[0] == '\\' {
      EscapedIsPair(end, body);
      assert e[2..] == body[2..] + [end];
      assert s[2..] == body[2..] + [end] + rest;
      EnclosedIsRead(end, body[2..], rest);
    } else {
      assert e[0] == body[0] && e[1..] == body[1..] + [end];
      assert s[1..] == body[1..] + [end] + rest;
      if body[0] != end { EnclosedIsRead(end, body[1..], rest); }
    }
  }

  lemma EscapedIsPair(end: char, body: string)
    requires Encloses(end, body) && body != "" && body[0] == '\\'
    ensures |body| >= 2
  {
    LoneBackslash(end);
    assert |body| == 1 ==> body == "\\";
  }

  lemma LoneBackslash(end: char)
    ensures After(end, "\\" + [end]) == None
  {
    assert ("\\" + [end])[2..] == "";
  }

  lemma LabelIsRead(body: string, rest: string)
    requires InLabel(body) && (rest != "" ==> StopsLabel(rest[0]))
    ensures AfterLabel(body + rest) == rest
  {
    if rest == "" {
      assert body + rest == body;
      WholeLabel(body);
    } else {
      AfterWholeLabel(body, rest);
    }
  }

  lemma {:induction false} WholeLabel(body: string)
    requires InLabel(body)
    ensures AfterLabel(body) == ""
  {
    if body != "" { WholeLabel(body[1..]); }
  }

  lemma TagIsRead(body: string, rest: string)
    requires TagBody(body) && (rest != "" ==> !InTag(rest[0]))
    ensures AfterTag(body + rest) == rest
  {
    if rest == "" {
      assert body + rest == body;
      WholeTag(body);
    } else {
      AfterWholeTag(body, rest);
    }
  }

  lemma {:induction false} WholeTag(body: string)
    requires forall i :: 0 <= i < |body| ==> InTag(body[i])
    ensures AfterTag(body) == ""
  {
    if body != "" { WholeTag(body[1..]); }
  }

  lemma {:induction false} SpacesAreRead(spaces: string, rest: string)
    requires OnlySpaces(spaces) && rest != "" && rest[0] == '<'
    ensures AfterSpaces(spaces + rest) == rest
  {
    if spaces == "" {
      assert spaces + rest == rest;
    } else {
      assert (spaces + rest)[1..] == spaces[1..] + rest;
      SpacesAreRead(spaces[1..], rest);
    }
  }

  /** `s` begins with the token and `rest` is what remains behind it. */
  predicate BeginsWith(t: Token, s: string, rest: string) {
    && |s| > |rest|
    && match t
       case Space(c) => s[0] == c && s[1..] == rest
       case IriRef(_) => s[0] == '<' && After('>', s[1..]) == Some(rest)
       case LabelToken(body) =>
         |s| > 1 && s[0] == '_' && s[1] == ':' && s[2..] == body + rest && AfterLabel(s[2..]) == rest
       case Quoted(q, _) => s[0] == q && After(q, s[1..]) == Some(rest) && !(|s| > 2 && s[1] == q && s[2] == q)
       case Tag(_) => s[0] == '@' && AfterTag(s[1..]) == rest && |rest| < |s[1..]|
       case Carets(_) => |s| > 1 && s[0] == '^' && s[1] == '^' && AfterSpaces(s[2..]) == rest
       case Dot => s[0] == '.' && s[1..] == rest
  }

  lemma TextReads(t: Token, rest: string)
    requires ProperToken(t) && JoinsText(t, rest)
    ensures BeginsWith(t, TextOf(t) + rest, rest)
  {
    match t
    case Space(c) => assert (TextOf(t) + rest)[1..] == rest;
    case Dot => assert (TextOf(t) + rest)[1..] == rest;
    case IriRef(body) => IriReads(body, rest);
    case LabelToken(body) => LabelReads(body, rest);
    case Quoted(q, body) => QuotedReads(q, body, rest);
    case Tag(body) => TagReads(body, rest);
    case Carets(spaces) => CaretsRead(spaces, rest);
  }

  lemma IriReads(body: string, rest: string)
    requires Encloses('>', body)
    ensures BeginsWith(IriRef(body), TextOf(IriRef(body)) + rest, rest)
  {
    hide After, Encloses;
    var s := TextOf(IriRef(body)) + rest;
    assert s[0] == '<' && s[1..] == body + ['>'] + rest;
    EnclosedIsRead('>', body, rest);
  }

  lemma LabelReads(body: string, rest: string)
    requires InLabel(body) && (rest != "" ==> StopsLabel(rest[0]))
    ensures BeginsWith(LabelToken(body), TextOf(LabelToken(body)) + rest, rest)
  {
    hide AfterLabel, InLabel;
    var s := TextOf(LabelToken(body)) + rest;
    assert s[0] == '_' && s[1] == ':' && s[2..] == body + rest;
    LabelIsRead(body, rest);
  }

  lemma TagReads(body: string, rest: string)
    requires TagBody(body) && (rest != "" ==> !InTag(rest[0]))
    ensures BeginsWith(Tag(body), TextOf(Tag(body)) + rest, rest)
  {
    hide AfterTag;
    var s := TextOf(Tag(body)) + rest;
    assert s[0] == '@' && s[1..] == body + rest;
    TagIsRead(body, rest);
  }

  lemma CaretsRead(spaces: string, rest: string)
    requires OnlySpaces(spaces) && rest != "" && rest[0] == '<'
    ensures BeginsWith(Carets(spaces), TextOf(Carets(spaces)) + rest, rest)
  {
    hide AfterSpaces, OnlySpaces;
    var s := TextOf(Carets(spaces)) + rest;
    assert s[0] == '^' && s[1] == '^' && s[2..] == spaces + rest;
    SpacesAreRead(spaces, rest);
  }

  lemma QuotedReads(q: char, body: string, rest: string)
    requires ProperToken(Quoted(q, body)) && JoinsText(Quoted(q, body), rest)
    ensures BeginsWith(Quoted(q, body), TextOf(Quoted(q, body)) + rest, rest)
  {
    hide After, Encloses;
    var s := [q] + body + [q] + rest;
    assert s[0] == q && s[1..] == body + [q] + rest;
    EnclosedIsRead(q, body, rest);
    assert body == "" && rest != "" ==> s[2] == rest[0];
    assert body != "" ==> s[1] == body[0];
  }

  /** The recogniser reads exactly the token and goes on behind it. */
  lemma BareReads(t: Token, s: string, rest: string, terminated: bool, lit: bool)
    requires Allowed(t, terminated, lit) && JoinsText(t, rest) && BeginsWith(t, s, rest)
    ensures Bare(s, terminated, lit) == Bare(rest, NextTerminated(t, terminated), NextLit(t, lit))
  {
    hide After, AfterLabel, AfterTag, AfterSpaces, Encloses, InLabel, OnlySpaces;
    match t
    case IriRef(_) => BareIri(s, lit);
    case _ =>
  }

  lemma BareStep(t: Token, rest: string, terminated: bool, lit: bool)
    requires Allowed(t, terminated, lit) && JoinsText(t, rest)
    ensures Bare(TextOf(t) + rest, terminated, lit) == Bare(rest, NextTerminated(t, terminated), NextLit(t, lit))
  {
    hide Bare, TextOf, JoinsText, BeginsWith, ProperToken;
    TextReads(t, rest);
    BareReads(t, TextOf(t) + rest, rest, terminated, lit);
  }

  lemma {:induction false} AfterSplits(end: char, s: string) returns (body: string)
    requires After(end, s).Some? && end != '\\'
    ensures s == body + [end] + After(end, s).value && Encloses(end, body)
    decreases |s|
  {
    if s[0] == '\\' {
      var rest := AfterSplits(end, s[2..]);
      body := s[..2] + rest;
      assert (body + [end])[2..] == rest + [end];
    } else if s[0] == end {
      body := "";
      assert ("" + [end])[1..] == "";
    } else {
      var rest := AfterSplits(end, s[1..]);
      body := [s[0]] + rest;
      assert (body + [end])[1..] == rest + [end];
    }
  }

  lemma {:induction false} LabelSplits(s: string) returns (body: string)
    ensures s == body + AfterLabel(s) && InLabel(body)
    ensures AfterLabel(s) != "" ==> StopsLabel(AfterLabel(s)[0])
  {
    if s == "" || StopsLabel(s[0]) {
      body := "";
    } else {
      var rest := LabelSplits(s[1..]);
      body := [s[0]] + rest;
    }
  }

  lemma {:induction false} TagSplits(s: string) returns (body: string)
    ensures s == body + AfterTag(s) && forall i :: 0 <= i < |body| ==> InTag(body[i])
    ensures AfterTag(s) != "" ==> !InTag(AfterTag(s)[0])
  {
    if s == "" || !InTag(s[0]) {
      body := "";
    } else {
      var rest := TagSplits(s[1..]);
      body := [s[0]] + rest;
    }
  }

  lemma {:induction false} SpacesSplit(s: string) returns (body: string)
    ensures s == body + AfterSpaces(s) && OnlySpaces(body)
  {
    if s == "" || !(s[0] == ' ' || s[0] == '\t') {
      body := "";
    } else {
      var rest := SpacesSplit(s[1..]);
      body := [s[0]] + rest;
    }
  }

  /** The first token of a line the recogniser accepts. */
  lemma NextToken(s: string, terminated: bool, lit: bool) returns (t: Token, rest: string)
    requires s != "" && s[0] != '#' && Bare(s, terminated, lit)
    ensures s == TextOf(t) + rest && |rest| < |s|
    ensures Allowed(t, terminated, lit) && JoinsText(t, rest)
  {
    hide After, AfterLabel, AfterTag, AfterSpaces;
    assert s == [s[0]] + s[1..];
    if IsBlank(s[0]) {
      t, rest := Space(s[0]), s[1..];
    } else if s[0] == '<' {
      var body := AfterSplits('>', s[1..]);
      t, rest := IriRef(body), After('>', s[1..]).value;
    } else if s[0] == '_' {
      var body := LabelSplits(s[2..]);
      t, rest := LabelToken(body), AfterLabel(s[2..]);
      assert s == "_:" + s[2..];
    } else if s[0] == '"' || s[0] == '\'' {
      var body := AfterSplits(s[0], s[1..]);
      t, rest := Quoted(s[0], body), After(s[0], s[1..]).value;
      assert body == "" && rest != "" ==> s[1] == s[0] && s[2] == rest[0];
    } else if s[0] == '@' {
      var body := TagSplits(s[1..]);
      t, rest := Tag(body), AfterTag(s[1..]);
    } else if s[0] == '^' {
      var body := SpacesSplit(s[2..]);
      t, rest := Carets(body), AfterSpaces(s[2..]);
      assert s == "^^" + s[2..];
    } else {
      t, rest := Dot, s[1..];
    }
  }

  // ----- whole lines -----

  /** How a spelled text begins. */
  lemma SpelledHead(s: string, toks: seq<Token>, tail: string)
    requires Spells(s, toks, tail)
    ensures toks == [] ==> s == tail
    ensures toks != [] ==> s != "" && s[0] == TextOf(toks[0])[0]
  {
  }

  lemma FirstChar(t: Token)
    requires ProperToken(t)
    ensures match t
      case Space(c) => TextOf(t)[0] == c && IsBlank(c)
      case IriRef(_) => TextOf(t)[0] == '<'
      case LabelToken(_) => TextOf(t)[0] == '_'
      case Quoted(q, _) => TextOf(t)[0] == q
      case Tag(_) => TextOf(t)[0] == '@'
      case Carets(_) => TextOf(t)[0] == '^'
      case Dot => TextOf(t)[0] == '.'
  {
  }

  /** In a statement, what may follow a token shows in the next character. */
  lemma JoinsIsJoinsText(t: Token, toks: seq<Token>, rest: string, tail: string, terminated: bool, lit: bool)
    requires Allowed(t, terminated, lit) && Spells(rest, toks, tail)
    requires Statement(toks, NextTerminated(t, terminated), NextLit(t, lit))
    ensures Joins(t, toks) <==> JoinsText(t, rest)
  {
    SpelledHead(rest, toks, tail);
    if toks != [] { FirstChar(toks[0]); }
  }

  lemma SpellsMore(t: Token, s: string, rest: string, toks: seq<Token>, tail: string)
    requires s == TextOf(t) + rest && Spells(rest, toks, tail)
    ensures Spells(s, [t] + toks, tail)
  {
    hide TextOf;
    assert ([t] + toks)[1..] == toks;
  }

  lemma SpellsLess(s: string, toks: seq<Token>, tail: string) returns (rest: string)
    requires Spells(s, toks, tail) && toks != []
    ensures s == TextOf(toks[0]) + rest && Spells(rest, toks[1..], tail) && |rest| < |s|
  {
    rest := SpelledBy(toks[1..]) + tail;
    assert |TextOf(toks[0])| > 0;
  }

  lemma {:induction false} AcceptedIsStatement(s: string, terminated: bool, lit: bool) returns (toks: seq<Token>, tail: string)
    requires Bare(s, terminated, lit)
    ensures Spells(s, toks, tail) && Statement(toks, terminated, lit)
    decreases |s|
  {
    if s == "" || s[0] == '#' {
      toks, tail := [], s;
    } else {
      var t, rest := NextToken(s, terminated, lit);
      hide Bare, Allowed, TextOf, JoinsText, Joins;
      BareStep(t, rest, terminated, lit);
      var more;
      more, tail := AcceptedIsStatement(rest, NextTerminated(t, terminated), NextLit(t, lit));
      toks := [t] + more;
      JoinsIsJoinsText(t, more, rest, tail, terminated, lit);
      SpellsMore(t, s, rest, more, tail);
      assert toks[1..] == more;
    }
  }

  lemma {:induction false} StatementIsAccepted(s: string, toks: seq<Token>, tail: string, terminated: bool, lit: bool)
    requires Spells(s, toks, tail) && Statement(toks, terminated, lit)
    ensures Bare(s, terminated, lit)
    decreases |toks|
  {
    if toks != [] {
      var rest := SpellsLess(s, toks, tail);
      hide Bare, Allowed, TextOf, JoinsText, Joins;
      JoinsIsJoinsText(toks[0], toks[1..], rest, tail, terminated, lit);
      BareStep(toks[0], rest, terminated, lit);
      StatementIsAccepted(rest, toks[1..], tail, NextTerminated(toks[0], terminated), NextLit(toks[0], lit));
    } else {
      assert s == tail;
    }
  }

  /** The recogniser accepts exactly the statements of bare terms, with an optional comment behind. */
  lemma AcceptedExactly(line: string)
    ensures Bare(line, false, false) <==> exists toks, tail :: Spells(line, toks, tail) && Statement(toks, false, false)
  {
    hide Bare, Spells, Statement;
    if Bare(line, false, false) {
      var toks, tail := AcceptedIsStatement(line, false, false);
    }
    if toks, tail :| Spells(line, toks, tail) && Statement(toks, false, false) {
      StatementIsAccepted(line, toks, tail, false, false);
    }
  }

  // ----- punctuation outside terms -----

  /** Turtle's punctuation. */
  predicate Structural(c: char) {
    c == ';' || c == ',' || c == ':' || c == '[' || c == ']' || c == '(' || c == ')' || c == '{' || c == '}'
  }

  predicate Punctuated(s: string) {
    exists i :: 0 <= i < |s| && Structural(s[i])
  }

  function LabelAt(s: string): string {
    s[..|s| - |AfterLabel(s)|]
  }

  /** The line without its IRIs, its quoted text, the marker of its labels and its comment; or only the
      labels. */
  function Shown(s: string, labelsOnly: bool): string
    decreases |s|
  {
    if s == "" || s[0] == '#' then ""
    else if s[0] == '<' then ShownAfter('>', s[1..], labelsOnly)
    else if s[0] == '"' || s[0] == '\'' then ShownAfter(s[0], s[1..], labelsOnly)
    else if s[0] == '_' && |s| > 1 && s[1] == ':' then LabelAt(s[2..]) + Shown(AfterLabel(s[2..]), labelsOnly)
    else (if labelsOnly then "" else [s[0]]) + Shown(s[1..], labelsOnly)
  }

  function ShownAfter(end: char, s: string, labelsOnly: bool): string
    decreases |s|
  {
    AfterShrinks(end, s);
    match After(end, s)
    case None => ""
    case Some(r) => Shown(r, labelsOnly)
  }

  /** What of a token shows. */
  function ShownOf(t: Token, labelsOnly: bool): string {
    match t
    case LabelToken(body) => body
    case IriRef(_) => ""
    case Quoted(_, _) => ""
    case _ => if labelsOnly then "" else TextOf(t)
  }

  /** A character that is neither skipped nor opens anything. */
  predicate PlainlyShown(c: char) {
    InTag(c) || c == ' ' || c == '\t' || c == '^' || c == '@'
  }

  lemma ShownOne(s: string, labelsOnly: bool)
    requires s != "" && PlainlyShown(s[0])
    ensures Shown(s, labelsOnly) == (if labelsOnly then "" else [s[0]]) + Shown(s[1..], labelsOnly)
  {
    hide After, AfterLabel;
  }

  lemma {:induction false} ShownThrough(body: string, rest: string, labelsOnly: bool)
    requires forall i :: 0 <= i < |body| ==> PlainlyShown(body[i])
    ensures Shown(body + rest, labelsOnly) == (if labelsOnly then "" else body) + Shown(rest, labelsOnly)
  {
    hide Shown, PlainlyShown;
    if body == "" {
      assert body + rest == rest;
    } else {
      var s := body + rest;
      assert s[0] == body[0] && s[1..] == body[1..] + rest;
      ShownOne(s, labelsOnly);
      ShownThrough(body[1..], rest, labelsOnly);
      assert body == [body[0]] + body[1..];
    }
  }

  lemma ShownStep(t: Token, rest: string, labelsOnly: bool)
    requires ProperToken(t) && JoinsText(t, rest)
    ensures Shown(TextOf(t) + rest, labelsOnly) == ShownOf(t, labelsOnly) + Shown(rest, labelsOnly)
  {
    hide After, AfterLabel, Encloses, TextOf;
    TextReads(t, rest);
    match t
    case Tag(body) => ShownMark(t, rest, labelsOnly);
    case Carets(spaces) => ShownMark(t, rest, labelsOnly);
    case Space(_) => ShownChar(t, rest, labelsOnly);
    case Dot => ShownChar(t, rest, labelsOnly);
    case _ => ShownReads(t, TextOf(t) + rest, rest, labelsOnly);
  }

  lemma ShownReads(t: Token, s: string, rest: string, labelsOnly: bool)
    requires ProperToken(t) && BeginsWith(t, s, rest) && (t.IriRef? || t.LabelToken? || t.Quoted?)
    ensures Shown(s, labelsOnly) == ShownOf(t, labelsOnly) + Shown(rest, labelsOnly)
  {
    hide After, AfterLabel, Encloses;
    assert t.LabelToken? ==> LabelAt(s[2..]) == t.body;
  }

  lemma ShownChar(t: Token, rest: string, labelsOnly: bool)
    requires ProperToken(t) && (t.Space? || t.Dot?)
    ensures Shown(TextOf(t) + rest, labelsOnly) == ShownOf(t, labelsOnly) + Shown(rest, labelsOnly)
  {
    var s := TextOf(t) + rest;
    assert s[0] == TextOf(t)[0] && s[1..] == rest;
  }

  lemma ShownMark(t: Token, rest: string, labelsOnly: bool)
    requires ProperToken(t) && IsMark(t)
    ensures Shown(TextOf(t) + rest, labelsOnly) == ShownOf(t, labelsOnly) + Shown(rest, labelsOnly)
  {
    ShownThrough(TextOf(t), rest, labelsOnly);
  }

  lemma PunctuatedSum(a: string, b: string)
    ensures Punctuated(a + b) <==> Punctuated(a) || Punctuated(b)
  {
    if i :| 0 <= i < |a| && Structural(a[i]) { assert (a + b)[i] == a[i]; }
    if i :| 0 <= i < |b| && Structural(b[i]) { assert (a + b)[|a| + i] == b[i]; }
    if i :| 0 <= i < |a + b| && Structural((a + b)[i]) {
      assert if i < |a| then (a + b)[i] == a[i] else (a + b)[i] == b[i - |a|];
    }
  }

  lemma OnlyLabelsPunctuate(t: Token)
    requires ProperToken(t)
    ensures Punctuated(ShownOf(t, false)) <==> Punctuated(ShownOf(t, true))
    ensures Punctuated(ShownOf(t, true)) <==> t.LabelToken? && Punctuated(t.body)
  {
    match t
    case Space(c) => assert Structural(c) ==> Structural(TextOf(t)[0]);
    case Tag(body) => assert forall i :: 0 <= i < |TextOf(t)| ==> TextOf(t)[i] == '@' || InTag(TextOf(t)[i]);
    case Carets(spaces) => assert forall i :: 0 <= i < |TextOf(t)| ==> TextOf(t)[i] == '^' || TextOf(t)[i] == ' ' || TextOf(t)[i] == '\t';
    case _ =>
  }

  /** Some label holds punctuation. */
  predicate PunctuatedLabel(toks: seq<Token>) {
    exists i :: 0 <= i < |toks| && toks[i].LabelToken? && Punctuated(toks[i].body)
  }

  lemma PunctuatedLabelSplits(toks: seq<Token>)
    requires toks != []
    ensures PunctuatedLabel(toks) <==> (toks[0].LabelToken? && Punctuated(toks[0].body)) || PunctuatedLabel(toks[1..])
  {
    hide Punctuated;
    if i :| 0 <= i < |toks[1..]| && toks[1..][i].LabelToken? && Punctuated(toks[1..][i].body) {
      assert toks[i + 1] == toks[1..][i];
    }
    if i :| 0 <= i < |toks| && toks[i].LabelToken? && Punctuated(toks[i].body) {
      assert i > 0 ==> toks[1..][i - 1] == toks[i];
    }
  }

  lemma {:induction false} PunctuationOf(s: string, toks: seq<Token>, tail: string, terminated: bool, lit: bool)
    requires Spells(s, toks, tail) && Statement(toks, terminated, lit)
    ensures Punctuated(Shown(s, false)) <==> PunctuatedLabel(toks)
    ensures Punctuated(Shown(s, true)) <==> PunctuatedLabel(toks)
    decreases |toks|
  {
    if toks != [] {
      var t := toks[0];
      var rest := SpellsLess(s, toks, tail);
      PunctuatedLabelSplits(toks);
      hide Punctuated, Shown, TextOf, JoinsText, Joins, PunctuatedLabel, ProperToken;
      JoinsIsJoinsText(t, toks[1..], rest, tail, terminated, lit);
      ShownStep(t, rest, false);
      ShownStep(t, rest, true);
      OnlyLabelsPunctuate(t);
      PunctuatedSum(ShownOf(t, false), Shown(rest, false));
      PunctuatedSum(ShownOf(t, true), Shown(rest, true));
      PunctuationOf(rest, toks[1..], tail, NextTerminated(t, terminated), NextLit(t, lit));
    } else {
      assert s == tail;
    }
  }

  /** An accepted line has punctuation outside IRIs, quoted text and comments exactly when some label
      holds it, and either can be read off the line. */
  lemma PunctuationOnlyInLabels(line: string, toks: seq<Token>, tail: string)
    requires Spells(line, toks, tail) && Statement(toks, false, false)
    ensures Punctuated(Shown(line, false)) <==> Punctuated(Shown(line, true))
    ensures Punctuated(Shown(line, true)) <==> PunctuatedLabel(toks)
  {
    hide Punctuated, Shown, Spells, Statement, PunctuatedLabel;
    PunctuationOf(line, toks, tail, false, false);
  }

  // ----- marks behind a blank -----

  /** Does a blank stand between a literal and its mark? `lit` says a literal has closed, `gap` that
      blanks have followed it. */
  predicate Detached(s: string, lit: bool, gap: bool)
    decreases |s|
  {
    if s == "" || s[0] == '#' then false
    else if IsBlank(s[0]) then Detached(s[1..], lit, lit)
    else if s[0] == '<' then DetachedAfter('>', s[1..], false)
    else if s[0] == '"' || s[0] == '\'' then DetachedAfter(s[0], s[1..], true)
    else if s[0] == '_' && |s| > 1 && s[1] == ':' then Detached(AfterLabel(s[2..]), false, false)
    else if s[0] == '@' && lit then gap || Detached(AfterTag(s[1..]), false, false)
    else if s[0] == '^' && lit && |s| > 1 && s[1] == '^' then gap || Detached(AfterSpaces(s[2..]), false, false)
    else Detached(s[1..], false, false)
  }

  predicate DetachedAfter(end: char, s: string, lit: bool)
    decreases |s|
  {
    AfterShrinks(end, s);
    match After(end, s)
    case None => false
    case Some(r) => Detached(r, lit, false)
  }

  /** One or more blanks, then a mark. */
  predicate GapThenMark(toks: seq<Token>) {
    |toks| > 1 && toks[0].Space? && (IsMark(toks[1]) || GapThenMark(toks[1..]))
  }

  /** Somewhere a literal is followed by blanks and a mark. */
  predicate SpacedMark(toks: seq<Token>) {
    toks != [] && ((toks[0].Quoted? && GapThenMark(toks[1..])) || SpacedMark(toks[1..]))
  }

  lemma DetachedReads(t: Token, s: string, rest: string, terminated: bool, lit: bool, gap: bool)
    requires Allowed(t, terminated, lit) && BeginsWith(t, s, rest)
    ensures Detached(s, lit, gap) <==> (IsMark(t) && gap) || Detached(rest, NextLit(t, lit), t.Space? && lit)
  {
    hide After, AfterLabel, AfterTag, AfterSpaces, Encloses, InLabel, OnlySpaces;
  }

  lemma DetachedStep(t: Token, rest: string, terminated: bool, lit: bool, gap: bool)
    requires Allowed(t, terminated, lit) && JoinsText(t, rest)
    ensures Detached(TextOf(t) + rest, lit, gap)
      <==> (IsMark(t) && gap) || Detached(rest, NextLit(t, lit), t.Space? && lit)
  {
    hide Detached, TextOf, JoinsText, BeginsWith, ProperToken;
    TextReads(t, rest);
    DetachedReads(t, TextOf(t) + rest, rest, terminated, lit, gap);
  }

  lemma {:induction false} DetachedOf(s: string, toks: seq<Token>, tail: string, terminated: bool, lit: bool, gap: bool)
    requires Spells(s, toks, tail) && Statement(toks, terminated, lit)
    ensures Detached(s, lit, gap)
      <==> (gap && toks != [] && IsMark(toks[0])) || (lit && GapThenMark(toks)) || SpacedMark(toks)
    decreases |toks|
  {
    if toks != [] {
      var t := toks[0];
      var rest := SpellsLess(s, toks, tail);
      hide Detached, TextOf, JoinsText, Joins, ProperToken;
      JoinsIsJoinsText(t, toks[1..], rest, tail, terminated, lit);
      DetachedStep(t, rest, terminated, lit, gap);
      DetachedOf(rest, toks[1..], tail, NextTerminated(t, terminated), NextLit(t, lit), t.Space? && lit);
    } else {
      assert s == tail;
    }
  }

  /** An accepted line has a detached mark exactly when blanks stand between a literal and its mark. */
  lemma DetachedIsSpacedMark(line: string, toks: seq<Token>, tail: string)
    requires Spells(line, toks, tail) && Statement(toks, false, false)
    ensures Detached(line, false, false) <==> SpacedMark(toks)
  {
    hide Detached, SpacedMark, Spells, Statement;
    DetachedOf(line, toks, tail, false, false, false);
  }

  // ----- the recogniser its description promises -----

  function AfterName(s: string): (r: string)
    ensures |r| <= |s|
  {
    if s == "" || StopsLabel(s[0]) || Structural(s[0]) then s else AfterName(s[1..])
  }

  /** As described: a label ends at punctuation, and a mark decorates a literal that has just closed. */
  predicate Described(s: string, terminated: bool, justClosed: bool)
    decreases |s|
  {
    if s == "" || s[0] == '#' then terminated && !justClosed
    else if IsBlank(s[0]) then Described(s[1..], terminated, false)
    else if terminated then false
    else if s[0] == '<' then DescribedAfter('>', s[1..], false)
    else if s[0] == '_' && |s| > 1 && s[1] == ':' then Described(AfterName(s[2..]), false, false)
    else if s[0] == '"' || s[0] == '\'' then
      if |s| > 2 && s[1] == s[0] && s[2] == s[0] then false else DescribedAfter(s[0], s[1..], true)
    else if s[0] == '@' && justClosed then
      |AfterTag(s[1..])| < |s[1..]| && Described(AfterTag(s[1..]), false, false)
    else if s[0] == '^' && justClosed && |s| > 1 && s[1] == '^' then
      var r := AfterSpaces(s[2..]);
      r != "" && r[0] == '<' && Described(r, false, false)
    else s[0] == '.' && Described(s[1..], true, false)
  }

  predicate DescribedAfter(end: char, s: string, closed: bool)
    decreases |s|
  {
    AfterShrinks(end, s);
    match After(end, s)
    case None => false
    case Some(r) => Described(r, false, closed)
  }

  lemma {:induction false} NameIsLabel(s: string)
    ensures Punctuated(LabelAt(s)) ==> AfterName(s) != "" && Structural(AfterName(s)[0])
    ensures !Punctuated(LabelAt(s)) ==> AfterName(s) == AfterLabel(s)
  {
    if s != "" && !StopsLabel(s[0]) {
      NameIsLabel(s[1..]);
      assert s[..|s| - |AfterLabel(s[1..])|] == [s[0]] + s[1..][..|s| - 1 - |AfterLabel(s[1..])|];
      PunctuatedSum([s[0]], LabelAt(s[1..]));
      assert Punctuated([s[0]]) <==> Structural(s[0]) by { assert [s[0]][0] == s[0]; }
    }
  }

  lemma StructuralRejected(s: string, terminated: bool, justClosed: bool)
    requires s != "" && Structural(s[0])
    ensures !Described(s, terminated, justClosed)
  {
  }

  lemma {:induction false} MeetsDescription(s: string, terminated: bool, lit: bool, gap: bool)
    requires (terminated ==> !lit) && (gap ==> lit)
    ensures Described(s, terminated, lit && !gap)
      <==> Bare(s, terminated, lit) && !Detached(s, lit, gap) && !Punctuated(Shown(s, true))
    decreases |s|
  {
    hide After, AfterLabel, AfterTag, AfterSpaces, AfterName, Punctuated;
    NothingPunctuated();
    if s == "" || s[0] == '#' {
    } else if IsBlank(s[0]) {
      MeetsDescription(s[1..], terminated, lit, lit);
    } else if terminated {
    } else if s[0] == '<' {
      MeetsAfter('>', s[1..], false);
    } else if s[0] == '_' && |s| > 1 && s[1] == ':' {
      MeetsAfterLabel(s, lit, gap);
    } else if s[0] == '"' || s[0] == '\'' {
      MeetsAfter(s[0], s[1..], true);
    } else if s[0] == '@' && lit {
      ShownTag(s);
      MeetsDescription(AfterTag(s[1..]), false, false, false);
    } else if s[0] == '^' && lit && |s| > 1 && s[1] == '^' {
      ShownCarets(s);
      MeetsDescription(AfterSpaces(s[2..]), false, false, false);
    } else if s[0] == '.' {
      MeetsDescription(s[1..], true, false, false);
    }
  }

  lemma NothingPunctuated()
    ensures !Punctuated("") && forall s: string :: "" + s == s
  {
  }

  lemma ShownTag(s: string)
    requires s != "" && s[0] == '@'
    ensures Shown(s, true) == Shown(AfterTag(s[1..]), true)
  {
    hide AfterTag, Shown;
    var body := TagSplits(s[1..]);
    var rest := AfterTag(s[1..]);
    assert s == "@" + body + rest;
    ShownThrough("@" + body, rest, true);
  }

  lemma ShownCarets(s: string)
    requires |s| > 1 && s[0] == '^' && s[1] == '^'
    ensures Shown(s, true) == Shown(AfterSpaces(s[2..]), true)
  {
    hide AfterSpaces, Shown;
    var body := SpacesSplit(s[2..]);
    var rest := AfterSpaces(s[2..]);
    assert s == "^^" + s[2..];
    assert s == "^^" + body + rest;
    ShownThrough("^^" + body, rest, true);
  }

  lemma {:induction false} MeetsAfter(end: char, s: string, literal: bool)
    ensures DescribedAfter(end, s, literal)
      <==> BareAfter(end, s, literal) && !DetachedAfter(end, s, literal) && !Punctuated(ShownAfter(end, s, true))
    decreases |s|, 0
  {
    hide Punctuated;
    AfterShrinks(end, s);
    if After(end, s).Some? { MeetsDescription(After(end, s).value, false, literal, false); }
  }

  lemma {:induction false} MeetsAfterLabel(s: string, lit: bool, gap: bool)
    requires |s| > 1 && s[0] == '_' && s[1] == ':'
    ensures Described(s, false, lit && !gap)
      <==> Bare(s, false, lit) && !Detached(s, lit, gap) && !Punctuated(Shown(s, true))
    decreases |s|, 0
  {
    hide Punctuated, AfterLabel, AfterName;
    var rest := AfterLabel(s[2..]);
    NameIsLabel(s[2..]);
    PunctuatedSum(LabelAt(s[2..]), Shown(rest, true));
    if Punctuated(LabelAt(s[2..])) { StructuralRejected(AfterName(s[2..]), false, false); }
    MeetsDescription(rest, false, false, false);
  }

  /** The exact condition under which the recogniser keeps to its description: a line is accepted as
      described exactly when it is accepted, no mark stands behind a blank, and no label holds
      punctuation. */
  lemma MeetsDescriptionExactly(line: string)
    ensures Described(line, false, false)
      <==> Bare(line, false, false) && !Detached(line, false, false) && !Punctuated(Shown(line, true))
  {
    hide Described, Bare, Detached, Punctuated, Shown;
    MeetsDescription(line, false, false, false);
  }
}
