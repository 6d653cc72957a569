/**
 Materialization under the RDFS profile: wipe earlier inferences, read the asserted triples, close them,
 and write back what is new, through batched interning.

 Afterwards the asserted rows are untouched, the inferred rows of the graph decode to exactly the closure
 minus the base, each once, and running it again over settled rows leaves the dictionary and the bag of
 quads as they are.
 */
module Materialize {
  import opened Sequences
  import opened Terms
  import opened Dictionary
  import opened Ingest
  import opened BaseReading
  import opened Rdfs

  // ----- reading -----

  predicate InferredIn(g: int, q: QuadRow) {
    q.g == g && q.inferred
  }

  function NotInferredIn(g: int): QuadRow -> bool {
    (q: QuadRow) => !InferredIn(g, q)
  }

  /** The quads a run keeps. */
  function Kept(quads: seq<QuadRow>, g: int): seq<QuadRow> {
    Filter(NotInferredIn(g), quads)
  }

  function AssertedIn(g: int): QuadRow -> bool {
    (q: QuadRow) => q.g == g && !q.inferred
  }

  function Asserted(quads: seq<QuadRow>, g: int): seq<QuadRow> {
    Filter(AssertedIn(g), quads)
  }

  /** base lists what the asserted triples of g are read as, row by row. */
  ghost predicate IsBase(rows: seq<DictRow>, rd: Reading, quads: seq<QuadRow>, g: int, base: seq<Triple>) {
    base == ReadRows(rows, rd, Asserted(quads, g), 0)
  }

  // ----- what the closure is made of -----

  lemma VocabularyParsed(base: set<Triple>, x: Term)
    requires forall t :: t in base ==> ParsedTriple(t)
    requires x in Vocabulary(base)
    ensures Parsed(x)
  {
  }

  lemma DerivedParsed(base: set<Triple>, t: Triple)
    requires forall u :: u in base ==> ParsedTriple(u)
    requires t in Universe(Vocabulary(base)) && !t.s.Lit? && t.p.Iri?
    ensures ParsedTriple(t)
  {
    hide Vocabulary, Universe;
    UniverseMember(Vocabulary(base), t);
    VocabularyParsed(base, t.s);
    VocabularyParsed(base, t.o);
  }

  /** Set difference, in the closure's order: what is entailed and not asserted. */
  method NewTriples(derived: seq<Triple>, base: seq<Triple>) returns (inferred: seq<Triple>)
    requires NoDuplicates(derived)
    ensures NoDuplicates(inferred) && Elements(inferred) == Elements(derived) - Elements(base)
  {
    inferred := [];
    for i := 0 to |derived|
      invariant NoDuplicates(inferred) && Elements(inferred) == Elements(derived[..i]) - Elements(base)
    {
      assert derived[..i + 1] == derived[..i] + [derived[i]];
      ElementsMore(derived[..i], derived[i]);
      assert derived[i] in base <==> derived[i] in Elements(base);
      assert derived[i] !in Elements(derived[..i]);
      if derived[i] !in base {
        ElementsMore(inferred, derived[i]);
        inferred := inferred + [derived[i]];
      }
    }
    assert derived[..|derived|] == derived;
  }

  // ----- phase A: datatypes first -----

  predicate TypedLiteral(t: Term) {
    t.Lit? && t.lang.None? && t.dt.Some?
  }

  /** Distinct datatype IRIs, in one batch. */
  method ResolveDatatypes(store: Store, inferred: seq<Triple>, ghost was: seq<DictRow>) returns (dts: map<string, int>)
    requires store.Valid() && OnlyAdds(was, store.rows, TermsOfAll(inferred))
    modifies store`rows, store`next
    ensures store.Valid() && old(store.rows) <= store.rows && OnlyAdds(was, store.rows, TermsOfAll(inferred))
    ensures forall d :: d in dts ==> DictRow(IriKey(d), dts[d]) in store.rows
    ensures forall t :: t in inferred && TypedLiteral(t.o) ==> t.o.dt.value in dts
  {
    hide OnlyAdds, NewFor, TermsOfAll;
    var iris := DatatypesOf(inferred);
    var keys: seq<Key> := [];
    for i := 0 to |iris|
      invariant store.Valid() && store.rows == old(store.rows) && store.next == old(store.next)
      invariant |keys| == i && forall j :: 0 <= j < i ==> keys[j] == IriKey(iris[j])
    {
      keys := keys + [IriKey(iris[i])];
    }
    forall k | k in keys ensures NewFor(store.rows, k, TermsOfAll(inferred)) {
      var i :| 0 <= i < |keys| && keys[i] == k;
      DatatypeNeeded(store.rows, inferred, iris[i]);
    }
    BatchOnlyAdds(was, store.rows, store.next, keys, TermsOfAll(inferred));
    var ids := store.PutTermsBatch(keys);
    dts := ZipDatatypes(iris, keys, ids, store.rows);
  }

  /** Is d the datatype of some literal the batch is about? */
  ghost predicate IsDatatype(inferred: seq<Triple>, d: string) {
    exists t :: t in inferred && TypedLiteral(t.o) && t.o.dt.value == d
  }

  method DatatypesOf(inferred: seq<Triple>) returns (iris: seq<string>)
    ensures NoDuplicates(iris)
    ensures forall t :: t in inferred && TypedLiteral(t.o) ==> t.o.dt.value in iris
    ensures forall d :: d in iris ==> IsDatatype(inferred, d)
  {
    iris := [];
    for i := 0 to |inferred|
      invariant NoDuplicates(iris)
      invariant forall j :: 0 <= j < i && TypedLiteral(inferred[j].o) ==> inferred[j].o.dt.value in iris
      invariant forall d :: d in iris ==> IsDatatype(inferred, d)
    {
      var o := inferred[i].o;
      if TypedLiteral(o) && o.dt.value !in iris {
        assert inferred[i] in inferred;
        iris := iris + [o.dt.value];
      }
    }
  }

  lemma DatatypeNeeded(rows: seq<DictRow>, inferred: seq<Triple>, d: string)
    requires IsDatatype(inferred, d)
    ensures NewFor(rows, IriKey(d), TermsOfAll(inferred))
  {
    var t :| t in inferred && TypedLiteral(t.o) && t.o.dt.value == d;
    assert Iri(d) in TermsOfTriple(t);
    assert Iri(d) in TermsOfAll(inferred) && KeyStandsFor(rows, IriKey(d), Iri(d));
  }

  method ZipDatatypes(iris: seq<string>, ghost keys: seq<Key>, ids: seq<int>, ghost rows: seq<DictRow>) returns (dts: map<string, int>)
    requires |iris| == |keys| == |ids|
    requires forall i :: 0 <= i < |iris| ==> keys[i] == IriKey(iris[i]) && DictRow(keys[i], ids[i]) in rows
    ensures forall d :: d in dts ==> DictRow(IriKey(d), dts[d]) in rows
    ensures forall d :: d in iris ==> d in dts
  {
    dts := map[];
    for i := 0 to |iris|
      invariant forall d :: d in dts ==> DictRow(IriKey(d), dts[d]) in rows
      invariant forall j :: 0 <= j < i ==> iris[j] in dts
    {
      dts := dts[iris[i] := ids[i]];
    }
  }

  // ----- phase B: every distinct term once -----

  /** Positions of a triple's three terms in the list of distinct keys. */
  datatype Positions = Positions(s: nat, p: nat, o: nat)

  predicate Placed(order: seq<Key>, i: Positions) {
    i.s < |order| && i.p < |order| && i.o < |order|
  }

  ghost predicate PositionsFit(rows: seq<DictRow>, order: seq<Key>, idx: seq<Positions>, ts: seq<Triple>) {
    && |idx| == |ts|
    && forall j :: 0 <= j < |idx| ==> PositionFits(rows, order, idx[j], ts[j])
  }

  ghost predicate PositionFits(rows: seq<DictRow>, order: seq<Key>, i: Positions, t: Triple) {
    && Placed(order, i)
    && KeyStandsFor(rows, order[i.s], t.s) && KeyStandsFor(rows, order[i.p], t.p) && KeyStandsFor(rows, order[i.o], t.o)
  }

  /** The keys seen, each once, with their positions. */
  class DistinctTerms {
    var distinct: map<Key, nat>
    var order: seq<Key>

    ghost predicate Valid()
      reads this
    {
      && (forall k :: k in distinct ==> distinct[k] < |order| && order[distinct[k]] == k)
      && forall i :: 0 <= i < |order| ==> order[i] in distinct && distinct[order[i]] == i
    }

    constructor ()
      ensures Valid() && order == []
    {
      distinct, order := map[], [];
    }

    method IndexOf(key: Key) returns (i: nat)
      requires Valid()
      modifies this
      ensures Valid() && i < |order| && order[i] == key
      ensures old(order) <= order && forall k :: k in order ==> k in old(order) || k == key
    {
      if key in distinct {
        return distinct[key];
      }
      i := |order|;
      distinct, order := distinct[key := i], order + [key];
    }

    lemma NoRepetition()
      requires Valid()
      ensures NoDuplicates(order)
    {
      forall i, j | 0 <= i < j < |order| ensures order[i] != order[j] {
        assert distinct[order[i]] == i && distinct[order[j]] == j;
      }
    }
  }

  /** A term's key, once the datatypes have ids. */
  method KeyFor(dts: map<string, int>, t: Term, ghost rows: seq<DictRow>) returns (key: Key)
    requires Parsed(t) && (TypedLiteral(t) ==> t.dt.value in dts)
    requires forall d :: d in dts ==> DictRow(IriKey(d), dts[d]) in rows
    ensures KeyStandsFor(rows, key, t)
  {
    match t
    case Iri(i) => key := IriKey(i);
    case BNode(b) => key := BlankKey(b);
    case Lit(val, dt, lang) => key := Key(LITERAL, val, if lang.Some? then None else Some(dts[dt.value]), lang);
  }

  ghost predicate AllNeeded(rows: seq<DictRow>, keys: seq<Key>, terms: set<Term>) {
    forall k :: k in keys ==> NewFor(rows, k, terms)
  }

  lemma PositionGrows(rows: seq<DictRow>, order: seq<Key>, more: seq<Key>, idx: seq<Positions>, ts: seq<Triple>)
    requires PositionsFit(rows, order, idx, ts) && order <= more
    ensures PositionsFit(rows, more, idx, ts)
  {
    hide KeyStandsFor;
    forall j | 0 <= j < |idx| ensures PositionFits(rows, more, idx[j], ts[j]) {
      assert PositionFits(rows, order, idx[j], ts[j]);
    }
  }

  method IndexTriple(d: DistinctTerms, dts: map<string, int>, t: Triple, ghost rows: seq<DictRow>, ghost terms: set<Term>) returns (i: Positions)
    requires d.Valid() && ParsedTriple(t) && (TypedLiteral(t.o) ==> t.o.dt.value in dts)
    requires forall x :: x in dts ==> DictRow(IriKey(x), dts[x]) in rows
    requires TermsOfTriple(t) <= terms && AllNeeded(rows, d.order, terms)
    modifies d
    ensures d.Valid() && old(d.order) <= d.order && AllNeeded(rows, d.order, terms)
    ensures PositionFits(rows, d.order, i, t)
  {
    TriplePartTerms(t);
    TermIsItsOwn(t.o);
    hide KeyStandsFor, TermsOf, TermsOfTriple;
    var ks := KeyFor(dts, t.s, rows);
    var kp := KeyFor(dts, t.p, rows);
    var ko := KeyFor(dts, t.o, rows);
    assert NewFor(rows, ks, terms) && NewFor(rows, kp, terms) && NewFor(rows, ko, terms);
    hide NewFor;
    var s := d.IndexOf(ks);
    var p := d.IndexOf(kp);
    var o := d.IndexOf(ko);
    i := Positions(s, p, o);
  }

  method IndexTerms(dts: map<string, int>, inferred: seq<Triple>, ghost rows: seq<DictRow>) returns (order: seq<Key>, idx: seq<Positions>)
    requires forall t :: t in inferred ==> ParsedTriple(t) && (TypedLiteral(t.o) ==> t.o.dt.value in dts)
    requires forall d :: d in dts ==> DictRow(IriKey(d), dts[d]) in rows
    ensures NoDuplicates(order) && AllNeeded(rows, order, TermsOfAll(inferred))
    ensures PositionsFit(rows, order, idx, inferred)
  {
    hide TermsOfTriple, TermsOfAll, PositionFits, DistinctTerms.Valid, AllNeeded;
    var d := new DistinctTerms();
    NothingAllNeeded(rows, TermsOfAll(inferred));
    idx := [];
    for j := 0 to |inferred|
      invariant d.Valid() && fresh(d) && AllNeeded(rows, d.order, TermsOfAll(inferred))
      invariant PositionsFit(rows, d.order, idx, inferred[..j])
    {
      assert inferred[j] in inferred;
      TermsWithin(inferred, inferred[j]);
      ghost var before := d.order;
      var i := IndexTriple(d, dts, inferred[j], rows, TermsOfAll(inferred));
      PositionGrows(rows, before, d.order, idx, inferred[..j]);
      idx := idx + [i];
    }
    assert inferred[..|inferred|] == inferred;
    d.NoRepetition();
    order := d.order;
  }

  lemma NothingAllNeeded(rows: seq<DictRow>, terms: set<Term>)
    ensures AllNeeded(rows, [], terms)
  {
  }

  /** The distinct terms in chunks. No chunk repeats a key, so the dictionary keeps one row per key. */
  method InternChunks(store: Store, order: seq<Key>, chunk: nat, ghost was: seq<DictRow>, ghost terms: set<Term>) returns (ids: seq<int>)
    requires store.Valid() && NoDuplicates(order) && chunk > 0
    requires AllNeeded(store.rows, order, terms) && OnlyAdds(was, store.rows, terms)
    modifies store`rows, store`next
    ensures store.Valid() && old(store.rows) <= store.rows && OnlyAdds(was, store.rows, terms)
    ensures |ids| == |order| && forall i :: 0 <= i < |order| ==> DictRow(order[i], ids[i]) in store.rows
  {
    hide OnlyAdds, AllNeeded, Store.Valid, AfterBatch;
    ids := [];
    var from := 0;
    while from < |order|
      invariant from == |ids| <= |order|
      invariant store.Valid() && old(store.rows) <= store.rows && OnlyAdds(was, store.rows, terms) && AllNeeded(store.rows, order, terms)
      invariant forall i :: 0 <= i < from ==> DictRow(order[i], ids[i]) in store.rows
      decreases |order| - from
    {
      var to := if from + chunk < |order| then from + chunk else |order|;
      ghost var rows, next := store.rows, store.next;
      PartNeeded(rows, order, from, to, terms);
      var more := store.PutTermsBatch(order[from..to]);
      BatchOnlyAdds(was, rows, next, order[from..to], terms);
      NeededGrows(rows, store.rows, order, terms);
      ChunkFound(rows, store.rows, order, from, to, ids, more);
      ids, from := ids + more, to;
    }
  }

  lemma ChunkFound(rows: seq<DictRow>, all: seq<DictRow>, order: seq<Key>, from: nat, to: nat, ids: seq<int>, more: seq<int>)
    requires rows <= all && from <= to <= |order| && |ids| == from && |more| == to - from
    requires forall i :: 0 <= i < from ==> DictRow(order[i], ids[i]) in rows
    requires forall i :: 0 <= i < to - from ==> DictRow(order[from..to][i], more[i]) in all
    ensures forall i :: 0 <= i < to ==> DictRow(order[i], (ids + more)[i]) in all
  {
    forall i | 0 <= i < to ensures DictRow(order[i], (ids + more)[i]) in all {
      if i < from {
        PrefixMember(rows, all, DictRow(order[i], ids[i]));
      } else {
        assert order[from..to][i - from] == order[i];
      }
    }
  }

  lemma PartNeeded(rows: seq<DictRow>, order: seq<Key>, from: nat, to: nat, terms: set<Term>)
    requires AllNeeded(rows, order, terms) && NoDuplicates(order) && from <= to <= |order|
    ensures (forall k :: k in order[from..to] ==> NewFor(rows, k, terms)) && NoDuplicates(order[from..to])
  {
    hide NewFor;
  }

  lemma NeededGrows(rows: seq<DictRow>, more: seq<DictRow>, keys: seq<Key>, terms: set<Term>)
    requires AllNeeded(rows, keys, terms) && rows <= more
    ensures AllNeeded(more, keys, terms)
  {
    hide NewFor;
    forall k | k in keys ensures NewFor(more, k, terms) { NewForGrows(rows, more, k, terms, terms); }
  }

  // ----- phase C: the rows -----

  /** Write the inferred rows, flushing whenever a batch is full. */
  method WriteInferred(store: Store, ids: seq<int>, idx: seq<Positions>, order: seq<Key>, g: int, batch: nat, ghost ts: seq<Triple>)
    returns (written: nat)
    requires store.Valid() && PositionsFit(store.rows, order, idx, ts)
    requires |ids| == |order| && forall i :: 0 <= i < |order| ==> DictRow(order[i], ids[i]) in store.rows
    modifies store`quads
    ensures store.Valid() && old(store.quads) <= store.quads && written == |ts|
    ensures Loaded(store.rows, store.quads, |old(store.quads)|, ts, g, true)
  {
    hide Loaded, Waiting, Store.Valid, PositionFits;
    ghost var rows, from, flushed := store.rows, |store.quads|, 0;
    written := 0;
    var bs: seq<int>, bp: seq<int>, bo: seq<int> := [], [], [];
    WriteStarts(rows, store.quads, g);
    for j := 0 to |idx|
      invariant 0 <= flushed <= j && store.Valid() && old(store.quads) <= store.quads && written == flushed
      invariant Loaded(rows, store.quads, from, ts[..flushed], g, true)
      invariant Waiting(rows, bs, bp, bo, ts[flushed..j]) && |bs| == |bp| == |bo| == j - flushed
    {
      var i := idx[j];
      FitsDecode(rows, order, ids, i, ts[j]);
      WaitingMore(rows, bs, bp, bo, ts[flushed..j], ids[i.s], ids[i.p], ids[i.o], ts[j]);
      assert ts[flushed..j] + [ts[j]] == ts[flushed..j + 1];
      bs, bp, bo := bs + [ids[i.s]], bp + [ids[i.p]], bo + [ids[i.o]];
      if |bs| >= batch {
        FlushInferred(store, bs, bp, bo, g, from, ts[..flushed], ts[flushed..j + 1]);
        assert ts[..flushed] + ts[flushed..j + 1] == ts[..j + 1];
        written := written + |bs|;
        bs, bp, bo, flushed := [], [], [], j + 1;
        NoneWaiting(rows);
        assert ts[j + 1..j + 1] == [];
      }
    }
    FlushInferred(store, bs, bp, bo, g, from, ts[..flushed], ts[flushed..|ts|]);
    assert ts[..flushed] + ts[flushed..|ts|] == ts;
    written := written + |bs|;
  }

  lemma WriteStarts(rows: seq<DictRow>, quads: seq<QuadRow>, g: int)
    ensures Loaded(rows, quads, |quads|, [], g, true) && Waiting(rows, [], [], [], [])
  {
  }

  lemma FitsDecode(rows: seq<DictRow>, order: seq<Key>, ids: seq<int>, i: Positions, t: Triple)
    requires PositionFits(rows, order, i, t)
    requires |ids| == |order| && forall j :: 0 <= j < |order| ==> DictRow(order[j], ids[j]) in rows
    ensures Placed(order, i)
    ensures Decodes(rows, ids[i.s], t.s) && Decodes(rows, ids[i.p], t.p) && Decodes(rows, ids[i.o], t.o)
  {
    hide KeyStandsFor;
  }

  method FlushInferred(store: Store, bs: seq<int>, bp: seq<int>, bo: seq<int>, g: int, ghost from: nat, ghost done: seq<Triple>, ghost ts: seq<Triple>)
    requires store.Valid() && Loaded(store.rows, store.quads, from, done, g, true) && Waiting(store.rows, bs, bp, bo, ts)
    modifies store`quads
    ensures store.Valid() && Loaded(store.rows, store.quads, from, done + ts, g, true)
    ensures old(store.quads) <= store.quads
  {
    WaitingIsLoad(store.rows, bs, bp, bo, ts, g, true);
    LoadedMore(store.rows, store.quads, from, done, RowsOf(bs, bp, bo, g, true), ts, g, true);
    store.FlushBatch(bs, bp, bo, g, true);
  }

  // ----- the whole run -----

  /** What a run leaves behind, given what it found. */
  ghost predicate Materialized(rows: seq<DictRow>, rd: Reading, quads: seq<QuadRow>, g: int, base: seq<Triple>, inferred: seq<Triple>, rows': seq<DictRow>, quads': seq<QuadRow>) {
    && IsBase(rows, rd, quads, g, base)
    && NoDuplicates(inferred)
    && (exists c :: IsClosure(Elements(base), c) && Elements(inferred) == c - Elements(base))
    && Kept(quads, g) <= quads' && Loaded(rows', quads', |Kept(quads, g)|, inferred, g, true)
    && OnlyAdds(rows, rows', TermsOfAll(inferred))
  }

  /** The constructors accept the sentinel and the vocabulary. */
  predicate AcceptsNames(rd: Reading) {
    rd.iri(INVALID_IRI) && rd.iri(RDF_TYPE) && rd.iri(SUBCLASS) && rd.iri(SUBPROPERTY)
  }

  lemma BaseAccepted(rd: Reading, rows: seq<DictRow>, quads: seq<QuadRow>, g: int, base: seq<Triple>)
    requires AcceptsNames(rd) && IsBase(rows, rd, quads, g, base)
    ensures ValidTerms(rd.iri, Vocabulary(Elements(base))) && Proper(Elements(base))
    ensures forall t :: t in base ==> ParsedTriple(t)
  {
    ReadRowsProper(rows, rd, Asserted(quads, g), 0);
    hide IsBase, ReadRows;
    assert forall t :: t in Elements(base) <==> t in base;
  }

  lemma InferredParsed(base: seq<Triple>, derived: seq<Triple>, inferred: seq<Triple>)
    requires forall t :: t in base ==> ParsedTriple(t)
    requires Elements(derived) <= Universe(Vocabulary(Elements(base))) && Proper(Elements(derived))
    requires Elements(inferred) <= Elements(derived)
    ensures forall t :: t in inferred ==> ParsedTriple(t)
  {
    hide Universe, Vocabulary;
    assert forall t :: t in Elements(base) <==> t in base;
    forall t | t in inferred ensures ParsedTriple(t) {
      assert t in Elements(inferred);
      DerivedParsed(Elements(base), t);
    }
  }

  /** `materialize` with the RDFS profile, for any chunk and batch size, whatever the tables hold. */
  method MaterializeRdfs(store: Store, rd: Reading, g: int, chunk: nat, batch: nat)
    returns (dropped: nat, written: nat, ghost base: seq<Triple>, ghost inferred: seq<Triple>)
    requires store.Valid() && chunk > 0 && AcceptsNames(rd)
    modifies store
    ensures store.Valid() && old(store.rows) <= store.rows
    ensures Materialized(old(store.rows), rd, old(store.quads), g, base, inferred, store.rows, store.quads)
    ensures var wiped := (q: QuadRow) => q.g == g && q.inferred; dropped == |Filter(wiped, old(store.quads))|
    ensures written == |inferred|
  {
    hide Store.Valid, IsBase, Universe, Vocabulary, Proper, ValidTerms, IsClosure, OnlyAdds, Loaded, PositionsFit, AllNeeded, DistinctIds;
    ghost var rows := store.rows;
    WipeKeepsAsserted(store.quads, g);
    KeptLength(store.quads, g);
    WipedCount(store.quads, g, (q: QuadRow) => q.g == g && q.inferred);
    dropped := |store.quads| - |Kept(store.quads, g)|;
    Wipe(store, g);
    var read := LoadBase(store.rows, rd, Asserted(store.quads, g));
    base := read;
    BaseMoves(rows, rd, old(store.quads), store.quads, g, base);
    BaseAccepted(rd, rows, old(store.quads), g, base);
    var derived := RdfsClosure(rd.iri, read);
    var entailed := NewTriples(derived, read);
    inferred := entailed;
    InferredParsed(base, derived, inferred);
    OnlyAddsNothing(rows, TermsOfAll(inferred));
    var dts := ResolveDatatypes(store, entailed, rows);
    var order, idx := IndexTerms(dts, entailed, store.rows);
    ghost var before := store.rows;
    var ids := InternChunks(store, order, chunk, rows, TermsOfAll(inferred));
    PositionsGrow(before, store.rows, order, idx, inferred);
    written := WriteInferred(store, ids, idx, order, g, batch, inferred);
  }

  /** The DELETE of earlier inferences. */
  method Wipe(store: Store, g: int)
    requires store.Valid()
    modifies store`quads
    ensures store.Valid() && store.quads == Kept(old(store.quads), g)
  {
    store.quads := Kept(store.quads, g);
  }

  lemma {:induction false} KeptLength(quads: seq<QuadRow>, g: int)
    ensures |Kept(quads, g)| <= |quads|
  {
    if quads != [] { KeptLength(quads[1..], g); }
  }

  lemma {:induction false} WipedCount(quads: seq<QuadRow>, g: int, wiped: QuadRow -> bool)
    requires forall q :: wiped(q) <==> q.g == g && q.inferred
    ensures |Filter(wiped, quads)| == |quads| - |Kept(quads, g)|
  {
    if quads != [] { WipedCount(quads[1..], g, wiped); }
  }

  lemma OnlyAddsNothing(rows: seq<DictRow>, terms: set<Term>)
    ensures OnlyAdds(rows, rows, terms)
  {
  }

  lemma PositionsGrow(rows: seq<DictRow>, more: seq<DictRow>, order: seq<Key>, idx: seq<Positions>, ts: seq<Triple>)
    requires PositionsFit(rows, order, idx, ts) && rows <= more
    ensures PositionsFit(more, order, idx, ts)
  {
    hide KeyStandsFor;
    forall j | 0 <= j < |idx| ensures PositionFits(more, order, idx[j], ts[j]) {
      assert PositionFits(rows, order, idx[j], ts[j]);
      KeyGrows(rows, more, order[idx[j].s], ts[j].s);
      KeyGrows(rows, more, order[idx[j].p], ts[j].p);
      KeyGrows(rows, more, order[idx[j].o], ts[j].o);
    }
  }

  lemma {:induction false} WipeKeepsAsserted(quads: seq<QuadRow>, g: int)
    ensures Asserted(Kept(quads, g), g) == Asserted(quads, g)
  {
    if quads != [] {
      WipeKeepsAsserted(quads[1..], g);
      FilterAppend(AssertedIn(g), if NotInferredIn(g)(quads[0]) then [quads[0]] else [], Kept(quads[1..], g));
      OneAsserted(quads[0], g);
    }
  }

  lemma OneAsserted(q: QuadRow, g: int)
    ensures Asserted([q], g) == if AssertedIn(g)(q) then [q] else []
    ensures Asserted([], g) == []
  {
    assert [q][1..] == [];
    assert Filter(AssertedIn(g), [q]) == (if AssertedIn(g)(q) then [q] else []) + Filter(AssertedIn(g), [q][1..]);
  }

  lemma BaseMoves(rows: seq<DictRow>, rd: Reading, quads: seq<QuadRow>, quads': seq<QuadRow>, g: int, base: seq<Triple>)
    requires base == ReadRows(rows, rd, Asserted(quads', g), 0) && Asserted(quads', g) == Asserted(quads, g)
    ensures IsBase(rows, rd, quads, g, base)
  {
  }

  // ----- what a run changes, and what a second one would -----

  lemma KeepKept(quads: seq<QuadRow>, g: int)
    ensures Kept(Kept(quads, g), g) == Kept(quads, g)
  {
    FilterAll(NotInferredIn(g), Kept(quads, g));
  }

  /** The new rows are inferred rows of g, so the next run keeps exactly what this one kept, and reads
      the same asserted rows. */
  lemma NewRowsAreInferred(rows: seq<DictRow>, kept: seq<QuadRow>, quads: seq<QuadRow>, g: int, inferred: seq<Triple>)
    requires kept <= quads && Kept(kept, g) == kept && Loaded(rows, quads, |kept|, inferred, g, true)
    ensures Kept(quads, g) == kept && Asserted(quads, g) == Asserted(kept, g)
  {
    var more := quads[|kept|..];
    NewRowsMarked(rows, kept, quads, g, inferred);
    hide Loaded;
    assert quads == kept + more;
    FilterAppend(NotInferredIn(g), kept, more);
    FilterAppend(AssertedIn(g), kept, more);
    FilterNone(NotInferredIn(g), more);
    FilterNone(AssertedIn(g), more);
  }

  lemma NewRowsMarked(rows: seq<DictRow>, kept: seq<QuadRow>, quads: seq<QuadRow>, g: int, inferred: seq<Triple>)
    requires kept <= quads && Loaded(rows, quads, |kept|, inferred, g, true)
    ensures forall q :: q in quads[|kept|..] ==> InferredIn(g, q)
  {
    hide QuadDecodes;
    forall k | 0 <= k < |quads| - |kept| ensures InferredIn(g, quads[|kept|..][k]) {
      assert quads[|kept|..][k] == quads[|kept| + k];
      assert IsRow(rows, quads[|kept| + k], inferred[k], g, true);
    }
  }

  lemma KeptAlike(rows: seq<DictRow>, rd: Reading, quads: seq<QuadRow>, g: int, base: seq<Triple>, inferred: seq<Triple>, rows': seq<DictRow>, quads': seq<QuadRow>)
    requires Materialized(rows, rd, quads, g, base, inferred, rows', quads')
    ensures Kept(quads', g) == Kept(quads, g) && Asserted(quads', g) == Asserted(quads, g)
    ensures Kept(quads, g) <= quads' && |quads'| == |Kept(quads, g)| + |inferred|
    ensures forall q :: q in quads'[|Kept(quads, g)|..] ==> InferredIn(g, q)
  {
    hide OnlyAdds, IsBase, IsClosure;
    KeepKept(quads, g);
    WipeKeepsAsserted(quads, g);
    NewRowsAreInferred(rows', Kept(quads, g), quads', g, inferred);
    NewRowsMarked(rows', Kept(quads, g), quads', g, inferred);
  }

  /** Asserted rows, of every graph, and inferred rows of other graphs come through unchanged and in
      place; of the inferred rows of g none does, and the new ones stand behind the others. */
  lemma OtherRowsUntouched(rows: seq<DictRow>, rd: Reading, quads: seq<QuadRow>, g: int, base: seq<Triple>, inferred: seq<Triple>, rows': seq<DictRow>, quads': seq<QuadRow>)
    requires Materialized(rows, rd, quads, g, base, inferred, rows', quads')
    ensures var others := (q: QuadRow) => q.g != g || !q.inferred;
      var kept := Filter(others, quads);
      && Filter(others, quads') == kept && kept <= quads' && |quads'| == |kept| + |inferred|
      && forall i :: |kept| <= i < |quads'| ==> quads'[i].g == g && quads'[i].inferred
  {
    KeptAlike(rows, rd, quads, g, base, inferred, rows', quads');
    hide Kept, Asserted, Materialized, Filter;
    var others := (q: QuadRow) => q.g != g || !q.inferred;
    OthersAreKept(quads, g, others);
    OthersAreKept(quads', g, others);
    var kept := Kept(quads, g);
    forall i | |kept| <= i < |quads'| ensures InferredIn(g, quads'[i]) { assert quads'[i] == quads'[|kept|..][i - |kept|]; }
  }

  lemma OthersAreKept(quads: seq<QuadRow>, g: int, others: QuadRow -> bool)
    requires forall q :: others(q) <==> q.g != g || !q.inferred
    ensures Filter(others, quads) == Kept(quads, g)
  {
    FilterSame(others, NotInferredIn(g), quads);
  }

  /** The base is read from the asserted rows of g, and from no others. */
  lemma BaseFromAsserted(rows: seq<DictRow>, rd: Reading, quads: seq<QuadRow>, g: int, base: seq<Triple>, inferred: seq<Triple>, rows': seq<DictRow>, quads': seq<QuadRow>)
    requires Materialized(rows, rd, quads, g, base, inferred, rows', quads')
    ensures var own := (q: QuadRow) => q.g == g && !q.inferred;
      base == ReadRows(rows, rd, Filter(own, quads), 0)
  {
    hide Loaded, OnlyAdds, IsClosure, ReadRows;
    FilterSame((q: QuadRow) => q.g == g && !q.inferred, AssertedIn(g), quads);
  }

  /** A run that follows another over settled rows changes nothing: it reads the same base, infers the
      same triples, adds no row to the dictionary, and leaves the same bag of quads. Only the order of the
      new rows, which a hash set decides, may differ. */
  lemma MaterializeTwice(rows: seq<DictRow>, rd: Reading, quads: seq<QuadRow>, g: int, base: seq<Triple>, inferred: seq<Triple>,
                         rows1: seq<DictRow>, quads1: seq<QuadRow>, next1: int, drawn: nat -> string, base2: seq<Triple>, inferred2: seq<Triple>,
                         rows2: seq<DictRow>, quads2: seq<QuadRow>)
    requires Materialized(rows, rd, quads, g, base, inferred, rows1, quads1) && DistinctIds(rows1, next1)
    requires Materialized(rows1, rd.(drawn := drawn), quads1, g, base2, inferred2, rows2, quads2) && OneRowPerKey(rows2)
    requires forall q :: q in Asserted(quads, g) ==> Settled(rows, rd, q)
    ensures base2 == base
    ensures Elements(inferred2) == Elements(inferred) && |inferred2| == |inferred|
    ensures Kept(quads2, g) == Kept(quads1, g) == Kept(quads, g)
    ensures rows2 == rows1
    ensures multiset(quads2) == multiset(quads1)
  {
    KeptAlike(rows, rd, quads, g, base, inferred, rows1, quads1);
    KeptAlike(rows1, rd.(drawn := drawn), quads1, g, base2, inferred2, rows2, quads2);
    hide OnlyAdds, Loaded, IsClosure, Asserted, Kept;
    assert rows <= rows1 by { GrowsOnly(rows, rows1, TermsOfAll(inferred)); }
    SettledReadAgain(rows, rows1, rd, drawn, Asserted(quads, g), 0);
    SameInferred(base, inferred, inferred2);
    SameTermsNeeded(inferred, inferred2);
    NothingToAdd(rows1, rows2, quads1, |Kept(quads, g)|, inferred, g);
    SameRowsWritten(rows1, next1, Kept(quads, g), quads1, quads2, inferred, inferred2, g);
  }

  lemma GrowsOnly(was: seq<DictRow>, rows: seq<DictRow>, terms: set<Term>)
    requires OnlyAdds(was, rows, terms)
    ensures was <= rows
  {
  }

  lemma SameInferred(base: seq<Triple>, inferred: seq<Triple>, inferred2: seq<Triple>)
    requires NoDuplicates(inferred) && NoDuplicates(inferred2)
    requires exists c :: IsClosure(Elements(base), c) && Elements(inferred) == c - Elements(base)
    requires exists c :: IsClosure(Elements(base), c) && Elements(inferred2) == c - Elements(base)
    ensures Elements(inferred2) == Elements(inferred) && |inferred2| == |inferred|
  {
    hide IsClosure;
    var c :| IsClosure(Elements(base), c) && Elements(inferred) == c - Elements(base);
    var d :| IsClosure(Elements(base), d) && Elements(inferred2) == d - Elements(base);
    ClosureUnique(Elements(base), c, d);
    CardinalityOfNoDuplicates(inferred);
    CardinalityOfNoDuplicates(inferred2);
  }

  lemma SameTermsNeeded(ts: seq<Triple>, us: seq<Triple>)
    requires Elements(us) == Elements(ts)
    ensures TermsOfAll(us) == TermsOfAll(ts)
  {
    hide TermsOfTriple;
    forall t ensures t in ts <==> t in us { assert t in Elements(ts) <==> t in Elements(us); }
  }

  /** With one row per key, a term that is stored has no other key. */
  lemma StoredKeyIsOld(was: seq<DictRow>, rows: seq<DictRow>, key: Key, id: int, t: Term)
    requires was <= rows && OneRowPerKey(rows) && DictRow(key, id) in rows
    requires KeyStandsFor(rows, key, t) && Stored(was, t)
    ensures DictRow(key, id) in was
  {
    var old_id :| Decodes(was, old_id, t);
    var k :| DictRow(k, old_id) in was && KeyStandsFor(was, k, t);
    PrefixMember(was, rows, DictRow(k, old_id));
    KeyGrows(was, rows, k, t);
    assert k == key by {
      if t.Lit? && t.dt.Some? {
        RowByKey(rows, DictRow(IriKey(t.dt.value), k.dt.value), DictRow(IriKey(t.dt.value), key.dt.value));
      }
    }
    RowByKey(rows, DictRow(k, old_id), DictRow(key, id));
  }

  /** Every term of the triples is stored, so nothing is added for them. */
  lemma NothingToAdd(was: seq<DictRow>, rows: seq<DictRow>, quads: seq<QuadRow>, from: nat, ts: seq<Triple>, g: int)
    requires Loaded(was, quads, from, ts, g, true) && OnlyAdds(was, rows, TermsOfAll(ts)) && OneRowPerKey(rows)
    ensures rows == was
  {
    hide Loaded, TermsOfAll, KeyStandsFor, Stored;
    forall r | r in rows ensures r in was {
      if r !in was {
        var t :| t in TermsOfAll(ts) && KeyStandsFor(rows, r.key, t);
        LoadStores(was, quads, from, ts, g, true, t);
        StoredKeyIsOld(was, rows, r.key, r.id, t);
      }
    }
    NoRoom(was, rows);
  }

  lemma NoRoom(was: seq<DictRow>, rows: seq<DictRow>)
    requires was <= rows && OneRowPerKey(rows) && forall r :: r in rows ==> r in was
    ensures rows == was
  {
    if |was| < |rows| { ExtraRowIsNew(was, rows); }
  }

  lemma ExtraRowIsNew(was: seq<DictRow>, rows: seq<DictRow>)
    requires was <= rows && OneRowPerKey(rows) && |was| < |rows|
    ensures rows[|was|] in rows && rows[|was|] !in was
  {
    forall i | 0 <= i < |was| ensures was[i] != rows[|was|] { assert rows[i].key != rows[|was|].key; }
  }

  /** The rows written for the same triples in any order are the same bag. */
  lemma SameRowsWritten(rows: seq<DictRow>, next: int, kept: seq<QuadRow>, quads1: seq<QuadRow>, quads2: seq<QuadRow>,
                        ts: seq<Triple>, us: seq<Triple>, g: int)
    requires DistinctIds(rows, next) && OneRowPerKey(rows) && kept <= quads1 && kept <= quads2
    requires Loaded(rows, quads1, |kept|, ts, g, true) && Loaded(rows, quads2, |kept|, us, g, true)
    requires NoDuplicates(ts) && NoDuplicates(us) && Elements(ts) == Elements(us)
    ensures multiset(quads2) == multiset(quads1)
  {
    var a, b := quads1[|kept|..], quads2[|kept|..];
    hide IsRow, DistinctIds, OneRowPerKey;
    assert quads1 == kept + a && quads2 == kept + b;
    forall i | 0 <= i < |ts| ensures IsRow(rows, a[i], ts[i], g, true) { assert a[i] == quads1[|kept| + i]; }
    forall i | 0 <= i < |us| ensures IsRow(rows, b[i], us[i], g, true) { assert b[i] == quads2[|kept| + i]; }
    RowsDistinct(rows, next, a, ts, g);
    RowsDistinct(rows, next, b, us, g);
    RowsAmong(rows, a, b, ts, us, g);
    RowsAmong(rows, b, a, us, ts, g);
    SameBagSameSet(a, b);
  }

  lemma RowsDistinct(rows: seq<DictRow>, next: int, qs: seq<QuadRow>, ts: seq<Triple>, g: int)
    requires DistinctIds(rows, next) && NoDuplicates(ts) && |qs| == |ts|
    requires forall i :: 0 <= i < |ts| ==> IsRow(rows, qs[i], ts[i], g, true)
    ensures NoDuplicates(qs)
  {
    hide DistinctIds, QuadDecodes;
    forall i, j | 0 <= i < j < |qs| ensures qs[i] != qs[j] {
      assert IsRow(rows, qs[i], ts[i], g, true) && IsRow(rows, qs[j], ts[j], g, true);
      QuadDecodesOneTriple(rows, next, qs[i], ts[i], ts[j]);
    }
  }

  lemma RowsAmong(rows: seq<DictRow>, qs: seq<QuadRow>, rs: seq<QuadRow>, ts: seq<Triple>, us: seq<Triple>, g: int)
    requires OneRowPerKey(rows) && |qs| == |ts| && |rs| == |us| && Elements(ts) <= Elements(us)
    requires forall i :: 0 <= i < |ts| ==> IsRow(rows, qs[i], ts[i], g, true)
    requires forall i :: 0 <= i < |us| ==> IsRow(rows, rs[i], us[i], g, true)
    ensures Elements(qs) <= Elements(rs)
  {
    hide OneRowPerKey, IsRow;
    forall q | q in Elements(qs) ensures q in Elements(rs) {
      var i :| 0 <= i < |qs| && qs[i] == q;
      assert ts[i] in Elements(us);
      var j :| 0 <= j < |us| && us[j] == ts[i];
      assert IsRow(rows, rs[j], us[j], g, true);
      OneRowPerTriple(rows, qs[i], rs[j], ts[i], g);
    }
  }

  lemma OneRowPerTriple(rows: seq<DictRow>, q: QuadRow, r: QuadRow, t: Triple, g: int)
    requires OneRowPerKey(rows) && IsRow(rows, q, t, g, true) && IsRow(rows, r, t, g, true)
    ensures q == r
  {
    hide OneRowPerKey, Decodes;
    OneIdPerTerm(rows, q.s, r.s, t.s);
    OneIdPerTerm(rows, q.p, r.p, t.p);
    OneIdPerTerm(rows, q.o, r.o, t.o);
  }
}
