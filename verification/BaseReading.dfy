/**
 Reading the asserted rows of a graph back into triples, whatever the tables hold.

 What the loader stores is read back as it was. A literal stored with neither datatype nor tag is read as
 xsd:string; a malformed IRI, tag or datatype, a predicate that is no IRI, a label or a subject that no
 term can have, and an id without a row each have a reading of their own.
 */
module BaseReading {
  import opened Sequences
  import opened Terms
  import opened Dictionary

  const INVALID_IRI := "urn:pgrdf:invalid-iri"

  /** What the term constructors accept: IRIs, labels, and language tags in the form they are kept.
      `drawn` gives the labels chosen at random, one for each place that may need one. */
  datatype Reading = Reading(iri: string -> bool, blank: string -> bool, tag: string -> Option<string>, drawn: nat -> string)

  /** The row with this id. */
  function KeyAt(rows: seq<DictRow>, id: int): Option<Key> {
    if rows == [] then None
    else if rows[0].id == id then Some(rows[0].key)
    else KeyAt(rows[1..], id)
  }

  function ReadIri(rd: Reading, lex: string): Term {
    Iri(if rd.iri(lex) then lex else INVALID_IRI)
  }

  function ReadLabel(rd: Reading, lex: string, n: nat): Term {
    BNode(if rd.blank(lex) then lex else rd.drawn(n))
  }

  function Simple(val: string): Term {
    Lit(val, Some(XSD_STRING), None)
  }

  /** `build_subject`. */
  function ReadSubject(rd: Reading, k: Key, n: nat): Term {
    if k.kind == URI then ReadIri(rd, k.lex)
    else if k.kind == BLANK_NODE then ReadLabel(rd, k.lex, n)
    else BNode(rd.drawn(n))
  }

  /** `build_object`; dt is the text of the datatype's row, if there is one. */
  function ReadObject(rd: Reading, k: Key, dt: Option<string>, n: nat): Term {
    if k.kind == URI then ReadIri(rd, k.lex)
    else if k.kind == BLANK_NODE then ReadLabel(rd, k.lex, n)
    else if k.lang.Some? then (match rd.tag(k.lang.value) case Some(l) => Lit(k.lex, None, Some(l)) case None => Simple(k.lex))
    else if dt.Some? && rd.iri(dt.value) then Lit(k.lex, dt, None)
    else Simple(k.lex)
  }

  function DatatypeText(rows: seq<DictRow>, k: Key): Option<string> {
    if k.dt.None? then None else match KeyAt(rows, k.dt.value) case Some(d) => Some(d.lex) case None => None
  }

  /** One asserted row. It drops out if an id has no row or the predicate is no IRI. */
  function ReadRow(rows: seq<DictRow>, rd: Reading, q: QuadRow, n: nat): seq<Triple> {
    match (KeyAt(rows, q.s), KeyAt(rows, q.p), KeyAt(rows, q.o))
    case (Some(s), Some(p), Some(o)) =>
      if rd.iri(p.lex)
      then [Triple(ReadSubject(rd, s, 2 * n), Iri(p.lex), ReadObject(rd, o, DatatypeText(rows, o), 2 * n + 1))]
      else []
    case _ => []
  }

  /** The rows qs, which stand at n and after in the scan. */
  function ReadRows(rows: seq<DictRow>, rd: Reading, qs: seq<QuadRow>, n: nat): seq<Triple> {
    if qs == [] then [] else ReadRow(rows, rd, qs[0], n) + ReadRows(rows, rd, qs[1..], n + 1)
  }

  // ----- the loop -----

  method KeyById(rows: seq<DictRow>, id: int) returns (k: Option<Key>)
    ensures k == KeyAt(rows, id)
  {
    for i := 0 to |rows|
      invariant KeyAt(rows, id) == KeyAt(rows[i..], id)
    {
      if rows[i].id == id {
        return Some(rows[i].key);
      }
      assert rows[i..][1..] == rows[i + 1..];
    }
    k := None;
  }

  /** `load_base_triples`: the join, row by row, and the terms built from what it returns. */
  method LoadBase(rows: seq<DictRow>, rd: Reading, qs: seq<QuadRow>) returns (base: seq<Triple>)
    ensures base == ReadRows(rows, rd, qs, 0)
  {
    hide KeyAt, ReadRow;
    base := [];
    for i := 0 to |qs|
      invariant base + ReadRows(rows, rd, qs[i..], i) == ReadRows(rows, rd, qs, 0)
    {
      assert qs[i..][0] == qs[i] && qs[i..][1..] == qs[i + 1..];
      var read := LoadRow(rows, rd, qs[i], i);
      base := base + read;
    }
    assert qs[|qs|..] == [];
  }

  method LoadRow(rows: seq<DictRow>, rd: Reading, q: QuadRow, n: nat) returns (read: seq<Triple>)
    ensures read == ReadRow(rows, rd, q, n)
  {
    hide KeyAt;
    var s := KeyById(rows, q.s);
    var p := KeyById(rows, q.p);
    var o := KeyById(rows, q.o);
    if s.None? || p.None? || o.None? || !rd.iri(p.value.lex) {
      return [];
    }
    var dt: Option<string> := None;
    if o.value.dt.Some? {
      var d := KeyById(rows, o.value.dt.value);
      dt := if d.Some? then Some(d.value.lex) else None;
    }
    read := [Triple(ReadSubject(rd, s.value, 2 * n), Iri(p.value.lex), ReadObject(rd, o.value, dt, 2 * n + 1))];
  }

  // ----- what is read -----

  /** The constructors accept the sentinel. */
  predicate Accepting(rd: Reading) {
    rd.iri(INVALID_IRI)
  }

  ghost predicate IrisAccepted(rd: Reading, t: Triple) {
    (t.s.Iri? ==> rd.iri(t.s.iri)) && (t.p.Iri? ==> rd.iri(t.p.iri)) && (t.o.Iri? ==> rd.iri(t.o.iri))
  }

  /** Whatever the tables hold, what comes out are RDF triples with IRIs the constructors accept. */
  lemma {:induction false} ReadRowsProper(rows: seq<DictRow>, rd: Reading, qs: seq<QuadRow>, n: nat)
    requires Accepting(rd)
    ensures forall t :: t in ReadRows(rows, rd, qs, n) ==> ParsedTriple(t) && IrisAccepted(rd, t)
  {
    if qs != [] {
      hide KeyAt;
      ReadRowsProper(rows, rd, qs[1..], n + 1);
    }
  }

  /** Terms the constructors leave alone. */
  predicate Keeps(rd: Reading, t: Term) {
    match t
    case Iri(i) => rd.iri(i)
    case BNode(b) => rd.blank(b)
    case Lit(_, dt, lang) => (lang.Some? ==> rd.tag(lang.value) == lang) && (dt.Some? ==> rd.iri(dt.value))
  }

  predicate KeepsTriple(rd: Reading, t: Triple) {
    Keeps(rd, t.s) && Keeps(rd, t.p) && Keeps(rd, t.o)
  }

  lemma {:induction false} KeyAtIs(rows: seq<DictRow>, next: int, r: DictRow)
    requires DistinctIds(rows, next) && r in rows
    ensures KeyAt(rows, r.id) == Some(r.key)
  {
    if rows[0].id != r.id {
      KeyAtIs(rows[1..], next, r);
    } else {
      RowById(rows, next, rows[0], r);
    }
  }

  lemma DecodedKey(rows: seq<DictRow>, next: int, id: int, t: Term) returns (k: Key)
    requires DistinctIds(rows, next) && Decodes(rows, id, t)
    ensures KeyAt(rows, id) == Some(k) && KeyStandsFor(rows, k, t)
  {
    k :| DictRow(k, id) in rows && KeyStandsFor(rows, k, t);
    KeyAtIs(rows, next, DictRow(k, id));
  }

  lemma ObjectKept(rows: seq<DictRow>, next: int, rd: Reading, k: Key, t: Term, n: nat)
    requires DistinctIds(rows, next) && KeyStandsFor(rows, k, t) && Keeps(rd, t) && Parsed(t)
    ensures ReadObject(rd, k, DatatypeText(rows, k), n) == t
  {
    hide KeyAt, DistinctIds;
    if t.Lit? && t.dt.Some? { KeyAtIs(rows, next, DictRow(IriKey(t.dt.value), k.dt.value)); }
  }

  /** A literal stored with neither datatype nor tag is read as an xsd:string. */
  lemma PlainIsSimple(rows: seq<DictRow>, rd: Reading, k: Key, val: string, n: nat)
    requires KeyStandsFor(rows, k, Lit(val, None, None))
    ensures ReadObject(rd, k, DatatypeText(rows, k), n) == Simple(val) == Lit(val, Some(XSD_STRING), None)
  {
  }

  /** The readings of what a term cannot be: by kind, as the schema numbers them. */
  lemma MalformedReadings(rd: Reading, k: Key, dt: Option<string>, n: nat)
    ensures k.kind == 1 && !rd.iri(k.lex) ==> ReadSubject(rd, k, n) == ReadObject(rd, k, dt, n) == Iri("urn:pgrdf:invalid-iri")
    ensures k.kind == 2 && !rd.blank(k.lex) ==> ReadSubject(rd, k, n) == ReadObject(rd, k, dt, n) == BNode(rd.drawn(n))
    ensures k.kind == 3 ==> ReadSubject(rd, k, n) == BNode(rd.drawn(n))
    ensures var plain := Lit(k.lex, Some("http://www.w3.org/2001/XMLSchema#string"), None);
      && (k.kind == 3 && k.lang.Some? && rd.tag(k.lang.value).None? ==> ReadObject(rd, k, dt, n) == plain)
      && (k.kind == 3 && k.lang.None? && dt.Some? && !rd.iri(dt.value) ==> ReadObject(rd, k, dt, n) == plain)
      && (k.kind == 3 && k.lang.None? && dt.None? ==> ReadObject(rd, k, dt, n) == plain)
    ensures k.kind == 3 && k.lang.Some? && rd.tag(k.lang.value).Some? ==>
      ReadObject(rd, k, dt, n) == Lit(k.lex, None, rd.tag(k.lang.value))
  {
  }

  /** A row drops out exactly when one of its ids has no row or the text of its predicate is no IRI. */
  lemma DroppedExactly(rows: seq<DictRow>, next: int, rd: Reading, q: QuadRow, n: nat)
    requires DistinctIds(rows, next)
    ensures |ReadRow(rows, rd, q, n)| == 0 || |ReadRow(rows, rd, q, n)| == 1
    ensures ReadRow(rows, rd, q, n) != [] <==>
      && (exists r :: r in rows && r.id == q.s) && (exists r :: r in rows && r.id == q.o)
      && (exists r :: r in rows && r.id == q.p && rd.iri(r.key.lex))
  {
    hide KeyAt, DistinctIds;
    KeyAtSome(rows, next, q.s);
    KeyAtSome(rows, next, q.p);
    KeyAtSome(rows, next, q.o);
  }

  lemma KeyAtSome(rows: seq<DictRow>, next: int, id: int)
    requires DistinctIds(rows, next)
    ensures KeyAt(rows, id).Some? <==> exists r :: r in rows && r.id == id
    ensures forall r :: r in rows && r.id == id ==> KeyAt(rows, id) == Some(r.key)
  {
    forall r | r in rows && r.id == id ensures KeyAt(rows, id) == Some(r.key) { KeyAtIs(rows, next, r); }
    if KeyAt(rows, id).Some? { KeyAtFound(rows, id); }
  }

  lemma {:induction false} KeyAtFound(rows: seq<DictRow>, id: int)
    requires KeyAt(rows, id).Some?
    ensures exists r :: r in rows && r.id == id
  {
    if rows[0].id == id { assert rows[0] in rows; } else { KeyAtFound(rows[1..], id); }
  }

  /** A row that stands for a parsed triple is read as that triple. */
  lemma StoredIsRead(rows: seq<DictRow>, next: int, rd: Reading, q: QuadRow, t: Triple, n: nat)
    requires DistinctIds(rows, next) && QuadDecodes(rows, q, t) && ParsedTriple(t) && KeepsTriple(rd, t)
    ensures ReadRow(rows, rd, q, n) == [t]
  {
    hide Decodes, DistinctIds, KeyAt;
    var s := DecodedKey(rows, next, q.s, t.s);
    var p := DecodedKey(rows, next, q.p, t.p);
    var o := DecodedKey(rows, next, q.o, t.o);
    ObjectKept(rows, next, rd, o, t.o, 2 * n + 1);
  }

  ghost predicate AllStored(rows: seq<DictRow>, rd: Reading, qs: seq<QuadRow>, ts: seq<Triple>) {
    |qs| == |ts| && forall i :: 0 <= i < |qs| ==> QuadDecodes(rows, qs[i], ts[i]) && ParsedTriple(ts[i]) && KeepsTriple(rd, ts[i])
  }

  /** What the loader stored is read back: the triples, in stored order. */
  lemma {:induction false} StoredAreRead(rows: seq<DictRow>, next: int, rd: Reading, qs: seq<QuadRow>, ts: seq<Triple>, n: nat)
    requires DistinctIds(rows, next) && AllStored(rows, rd, qs, ts)
    ensures ReadRows(rows, rd, qs, n) == ts
  {
    hide DistinctIds, ReadRow, QuadDecodes, ParsedTriple, KeepsTriple;
    if qs != [] {
      StoredIsRead(rows, next, rd, qs[0], ts[0], n);
      StoredAreRead(rows, next, rd, qs[1..], ts[1..], n + 1);
    }
  }

  // ----- reading again -----

  /** Is a label chosen at random for this row: its subject is no IRI and no acceptable label, or its
      object is a blank node with no acceptable label? */
  predicate Draws(rows: seq<DictRow>, rd: Reading, q: QuadRow) {
    match (KeyAt(rows, q.s), KeyAt(rows, q.p), KeyAt(rows, q.o))
    case (Some(s), Some(p), Some(o)) =>
      rd.iri(p.lex) && ((s.kind != URI && !(s.kind == BLANK_NODE && rd.blank(s.lex))) || (o.kind == BLANK_NODE && !rd.blank(o.lex)))
    case _ => false
  }

  /** Nothing is chosen at random, and the ids have rows, the datatype's included. */
  predicate Settled(rows: seq<DictRow>, rd: Reading, q: QuadRow) {
    && !Draws(rows, rd, q)
    && match (KeyAt(rows, q.s), KeyAt(rows, q.p), KeyAt(rows, q.o))
       case (Some(s), Some(p), Some(o)) => !rd.iri(p.lex) || (o.dt.Some? ==> KeyAt(rows, o.dt.value).Some?)
       case _ => false
  }

  lemma {:induction false} KeyAtGrows(rows: seq<DictRow>, more: seq<DictRow>, id: int)
    requires rows <= more
    ensures KeyAt(rows, id).Some? ==> KeyAt(more, id) == KeyAt(rows, id)
  {
    if rows != [] && rows[0].id != id { KeyAtGrows(rows[1..], more[1..], id); }
  }

  lemma SettledRowReadAgain(rows: seq<DictRow>, more: seq<DictRow>, rd: Reading, drawn: nat -> string, q: QuadRow, n: nat)
    requires rows <= more && Settled(rows, rd, q)
    ensures ReadRow(more, rd.(drawn := drawn), q, n) == ReadRow(rows, rd, q, n)
  {
    hide KeyAt;
    KeyAtGrows(rows, more, q.s);
    KeyAtGrows(rows, more, q.p);
    KeyAtGrows(rows, more, q.o);
    var o := KeyAt(rows, q.o).value;
    if o.dt.Some? { KeyAtGrows(rows, more, o.dt.value); }
  }

  /** Settled rows are read alike from a larger dictionary and with other random labels. */
  lemma {:induction false} SettledReadAgain(rows: seq<DictRow>, more: seq<DictRow>, rd: Reading, drawn: nat -> string, qs: seq<QuadRow>, n: nat)
    requires rows <= more && forall q :: q in qs ==> Settled(rows, rd, q)
    ensures ReadRows(more, rd.(drawn := drawn), qs, n) == ReadRows(rows, rd, qs, n)
  {
    hide ReadRow, Settled;
    if qs != [] {
      SettledRowReadAgain(rows, more, rd, drawn, qs[0], n);
      SettledReadAgain(rows, more, rd, drawn, qs[1..], n + 1);
    }
  }

  /** A row that stands for a parsed triple the constructors keep is settled. */
  lemma StoredIsSettled(rows: seq<DictRow>, next: int, rd: Reading, q: QuadRow, t: Triple)
    requires DistinctIds(rows, next) && QuadDecodes(rows, q, t) && ParsedTriple(t) && KeepsTriple(rd, t)
    ensures Settled(rows, rd, q)
  {
    hide Decodes, DistinctIds, KeyAt;
    var s := DecodedKey(rows, next, q.s, t.s);
    var p := DecodedKey(rows, next, q.p, t.p);
    var o := DecodedKey(rows, next, q.o, t.o);
    if t.o.Lit? && t.o.dt.Some? { KeyAtIs(rows, next, DictRow(IriKey(t.o.dt.value), o.dt.value)); }
  }

  /** A literal in subject position is read as another blank node each time. */
  lemma LiteralSubjectReadAnew(rows: seq<DictRow>, rd: Reading, drawn: nat -> string, q: QuadRow, n: nat)
    requires KeyAt(rows, q.s).Some? && KeyAt(rows, q.s).value.kind == LITERAL && |ReadRow(rows, rd, q, n)| == 1
    requires drawn(2 * n) != rd.drawn(2 * n)
    ensures ReadRow(rows, rd.(drawn := drawn), q, n) != ReadRow(rows, rd, q, n)
  {
  }

  function Redrawn(rd: Reading): Reading {
    rd.(drawn := (k: nat) => rd.drawn(k) + "'")
  }

  lemma RowRedrawn(rows: seq<DictRow>, rd: Reading, drawn: nat -> string, q: QuadRow, n: nat)
    ensures |ReadRow(rows, rd.(drawn := drawn), q, n)| == |ReadRow(rows, rd, q, n)|
    ensures !Draws(rows, rd, q) ==> ReadRow(rows, rd.(drawn := drawn), q, n) == ReadRow(rows, rd, q, n)
    ensures Draws(rows, rd, q) ==> ReadRow(rows, Redrawn(rd), q, n) != ReadRow(rows, rd, q, n)
  {
    hide KeyAt;
    assert |Redrawn(rd).drawn(2 * n)| == |rd.drawn(2 * n)| + 1;
    assert |Redrawn(rd).drawn(2 * n + 1)| == |rd.drawn(2 * n + 1)| + 1;
  }

  lemma {:induction false} UndrawnReadAlike(rows: seq<DictRow>, rd: Reading, drawn: nat -> string, qs: seq<QuadRow>, n: nat)
    requires forall q :: q in qs ==> !Draws(rows, rd, q)
    ensures ReadRows(rows, rd.(drawn := drawn), qs, n) == ReadRows(rows, rd, qs, n)
  {
    hide ReadRow, Draws;
    if qs != [] {
      RowRedrawn(rows, rd, drawn, qs[0], n);
      UndrawnReadAlike(rows, rd, drawn, qs[1..], n + 1);
    }
  }

  lemma {:induction false} DrawnShows(rows: seq<DictRow>, rd: Reading, qs: seq<QuadRow>, n: nat)
    requires ReadRows(rows, Redrawn(rd), qs, n) == ReadRows(rows, rd, qs, n)
    ensures forall q :: q in qs ==> !Draws(rows, rd, q)
  {
    hide ReadRow, Draws;
    if qs != [] {
      RowRedrawn(rows, rd, Redrawn(rd).drawn, qs[0], n);
      SamePrefix(ReadRow(rows, Redrawn(rd), qs[0], n), ReadRows(rows, Redrawn(rd), qs[1..], n + 1),
                 ReadRow(rows, rd, qs[0], n), ReadRows(rows, rd, qs[1..], n + 1));
      DrawnShows(rows, rd, qs[1..], n + 1);
    }
  }

  lemma SamePrefix<T>(a: seq<T>, b: seq<T>, c: seq<T>, d: seq<T>)
    requires a + b == c + d && |a| == |c|
    ensures a == c && b == d
  {
    assert (a + b)[..|a|] == a && (c + d)[..|c|] == c;
    assert (a + b)[|a|..] == b && (c + d)[|c|..] == d;
  }

  /** Reading depends on the random labels exactly when some row draws one. */
  lemma DrawsExactly(rows: seq<DictRow>, rd: Reading, qs: seq<QuadRow>, n: nat)
    ensures (forall drawn: nat -> string :: ReadRows(rows, rd.(drawn := drawn), qs, n) == ReadRows(rows, rd, qs, n))
      <==> forall q :: q in qs ==> !Draws(rows, rd, q)
  {
    hide ReadRows, Draws;
    if forall q :: q in qs ==> !Draws(rows, rd, q) {
      forall drawn: nat -> string ensures ReadRows(rows, rd.(drawn := drawn), qs, n) == ReadRows(rows, rd, qs, n) {
        UndrawnReadAlike(rows, rd, drawn, qs, n);
      }
    }
    if forall drawn: nat -> string :: ReadRows(rows, rd.(drawn := drawn), qs, n) == ReadRows(rows, rd, qs, n) {
      assert Redrawn(rd) == rd.(drawn := Redrawn(rd).drawn);
      DrawnShows(rows, rd, qs, n);
    }
  }
}
