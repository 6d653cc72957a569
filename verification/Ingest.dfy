/**
 Two ingest routes that must agree: per-term interning, and the streaming route that defers unknown
 keys and resolves them in batches. Both leave the parsed triples in the quad table, in order, and the
 same terms in the dictionary, one row each.
 */
module Ingest {
  import opened Sequences
  import opened Terms
  import opened Dictionary

  ghost predicate Sound(cache: map<Key, int>, rows: seq<DictRow>) {
    forall k :: k in cache ==> DictRow(k, cache[k]) in rows
  }

  lemma SoundGrows(cache: map<Key, int>, rows: seq<DictRow>, more: seq<DictRow>)
    requires Sound(cache, rows) && rows <= more
    ensures Sound(cache, more)
  {
    forall k | k in cache ensures DictRow(k, cache[k]) in more { PrefixMember(rows, more, DictRow(k, cache[k])); }
  }

  // ----- what a load achieves -----

  /** The quads from position `from` on are the triples, in order, asserted in graph g (or inferred). */
  ghost predicate Loaded(rows: seq<DictRow>, quads: seq<QuadRow>, from: nat, triples: seq<Triple>, g: int, inferred: bool) {
    && |quads| == from + |triples|
    && forall i :: 0 <= i < |triples| ==> IsRow(rows, quads[from + i], triples[i], g, inferred)
  }

  ghost predicate IsRow(rows: seq<DictRow>, q: QuadRow, t: Triple, g: int, inferred: bool) {
    QuadDecodes(rows, q, t) && q.g == g && q.inferred == inferred
  }

  lemma QuadGrows(rows: seq<DictRow>, more: seq<DictRow>, q: QuadRow, t: Triple)
    requires QuadDecodes(rows, q, t) && rows <= more
    ensures QuadDecodes(more, q, t)
  {
    DecodesGrows(rows, more, q.s, t.s);
    DecodesGrows(rows, more, q.p, t.p);
    DecodesGrows(rows, more, q.o, t.o);
  }

  lemma LoadedGrows(rows: seq<DictRow>, more: seq<DictRow>, quads: seq<QuadRow>, from: nat, triples: seq<Triple>, g: int, inferred: bool)
    requires Loaded(rows, quads, from, triples, g, inferred) && rows <= more
    ensures Loaded(more, quads, from, triples, g, inferred)
  {
    hide QuadDecodes;
    forall i | 0 <= i < |triples| ensures QuadDecodes(more, quads[from + i], triples[i]) {
      QuadGrows(rows, more, quads[from + i], triples[i]);
    }
  }

  /** The terms a load needs: those of the triples and the datatypes of their literals. */
  function TermsOf(t: Term): set<Term> {
    {t} + if t.Lit? && t.dt.Some? then {Iri(t.dt.value)} else {}
  }

  function TermsOfTriple(t: Triple): set<Term> {
    TermsOf(t.s) + TermsOf(t.p) + TermsOf(t.o)
  }

  function TermsOfAll(ts: seq<Triple>): set<Term> {
    set t, x | t in ts && x in TermsOfTriple(t) :: x
  }

  ghost predicate NewFor(rows: seq<DictRow>, key: Key, terms: set<Term>) {
    exists t :: t in terms && KeyStandsFor(rows, key, t)
  }

  /** Nothing but those terms was added. */
  ghost predicate OnlyAdds(was: seq<DictRow>, rows: seq<DictRow>, terms: set<Term>) {
    was <= rows && forall r :: r in rows ==> r in was || NewFor(rows, r.key, terms)
  }

  lemma NewForGrows(rows: seq<DictRow>, more: seq<DictRow>, key: Key, terms: set<Term>, wider: set<Term>)
    requires NewFor(rows, key, terms) && rows <= more && terms <= wider
    ensures NewFor(more, key, wider)
  {
    var t :| t in terms && KeyStandsFor(rows, key, t);
    KeyGrows(rows, more, key, t);
  }

  lemma OnlyAddsMore(was: seq<DictRow>, rows: seq<DictRow>, more: seq<DictRow>, terms: set<Term>, wider: set<Term>)
    requires OnlyAdds(was, rows, terms) && rows <= more && terms <= wider
    requires forall r :: r in more ==> r in rows || NewFor(more, r.key, wider)
    ensures OnlyAdds(was, more, wider)
  {
    hide NewFor;
    forall r | r in more ensures r in was || NewFor(more, r.key, wider) {
      if r in rows && r !in was { NewForGrows(rows, more, r.key, terms, wider); }
    }
  }

  /** One insertion for a term among those needed. */
  lemma OneAdded(was: seq<DictRow>, rows: seq<DictRow>, more: seq<DictRow>, terms: set<Term>, t: Term, key: Key, id: int)
    requires OnlyAdds(was, rows, terms) && t in terms && KeyStandsFor(more, key, t)
    requires more == rows || more == rows + [DictRow(key, id)]
    ensures OnlyAdds(was, more, terms)
  {
    hide KeyStandsFor;
    forall r | r in more ensures r in rows || NewFor(more, r.key, terms) {
      if r !in rows { assert r == DictRow(key, id); }
    }
    OnlyAddsMore(was, rows, more, terms, terms);
  }

  // ----- the baseline: one term at a time -----

  method InternTerm(store: Store, cache: map<Key, int>, key: Key) returns (cache': map<Key, int>, id: int)
    requires store.Valid() && Sound(cache, store.rows)
    modifies store
    ensures store.Valid() && store.quads == old(store.quads)
    ensures Sound(cache', store.rows) && DictRow(key, id) in store.rows
    ensures store.rows == old(store.rows) || store.rows == old(store.rows) + [DictRow(key, old(store.next))]
  {
    if key in cache {
      return cache, cache[key];
    }
    id := store.PutTerm(key);
    SoundGrows(cache, old(store.rows), store.rows);
    cache' := cache[key := id];
  }

  /** Interns a subject, predicate, or object that needs no datatype. */
  method InternPlain(store: Store, cache: map<Key, int>, t: Term, ghost was: seq<DictRow>, ghost terms: set<Term>)
    returns (cache': map<Key, int>, id: int)
    requires !t.Lit? && t in terms
    requires store.Valid() && Sound(cache, store.rows) && OnlyAdds(was, store.rows, terms)
    modifies store
    ensures store.Valid() && store.quads == old(store.quads) && old(store.rows) <= store.rows
    ensures Sound(cache', store.rows) && OnlyAdds(was, store.rows, terms)
    ensures Decodes(store.rows, id, t)
    ensures t.Iri? ==> DictRow(IriKey(t.iri), id) in store.rows
  {
    hide Sound, OnlyAdds, Store.Valid;
    var key := if t.Iri? then IriKey(t.iri) else BlankKey(t.id);
    cache', id := InternTerm(store, cache, key);
    assert KeyStandsFor(store.rows, key, t);
    OneAdded(was, old(store.rows), store.rows, terms, t, key, old(store.next));
  }

  /** `object_to_id`: a literal's datatype is interned before the literal. */
  method ObjectToId(store: Store, cache: map<Key, int>, t: Term, ghost was: seq<DictRow>, ghost terms: set<Term>)
    returns (cache': map<Key, int>, id: int)
    requires Parsed(t) && TermsOf(t) <= terms
    requires store.Valid() && Sound(cache, store.rows) && OnlyAdds(was, store.rows, terms)
    modifies store
    ensures store.Valid() && store.quads == old(store.quads) && old(store.rows) <= store.rows
    ensures Sound(cache', store.rows) && OnlyAdds(was, store.rows, terms)
    ensures Decodes(store.rows, id, t)
  {
    hide Sound, OnlyAdds, Store.Valid;
    if !t.Lit? {
      cache', id := InternPlain(store, cache, t, was, terms);
      return;
    }
    cache' := cache;
    var dt := None;
    if t.lang.None? {
      var d;
      cache', d := InternPlain(store, cache', Iri(t.dt.value), was, terms);
      dt := Some(d);
    }
    ghost var rows := store.rows;
    var key := Key(LITERAL, t.val, dt, t.lang);
    assert KeyStandsFor(rows, key, t);
    ghost var next := store.next;
    cache', id := InternTerm(store, cache', key);
    KeyGrows(rows, store.rows, key, t);
    OneAdded(was, rows, store.rows, terms, t, key, next);
  }

  lemma TermsWithin(ts: seq<Triple>, t: Triple)
    requires t in ts
    ensures TermsOfTriple(t) <= TermsOfAll(ts)
  {
  }

  lemma LoadedMore(rows: seq<DictRow>, quads: seq<QuadRow>, from: nat, done: seq<Triple>, qs: seq<QuadRow>, ts: seq<Triple>, g: int, inferred: bool)
    requires Loaded(rows, quads, from, done, g, inferred) && Loaded(rows, qs, 0, ts, g, inferred)
    ensures Loaded(rows, quads + qs, from, done + ts, g, inferred)
  {
    hide IsRow;
    var all, triples := quads + qs, done + ts;
    forall i | 0 <= i < |triples| ensures IsRow(rows, all[from + i], triples[i], g, inferred) {
      if i < |done| {
        assert all[from + i] == quads[from + i] && triples[i] == done[i];
      } else {
        var j := i - |done|;
        assert all[from + i] == qs[0 + j] && triples[i] == ts[j];
      }
    }
  }

  /** Ids waiting in the batch buffers for the triples ts. */
  ghost predicate Waiting(rows: seq<DictRow>, bs: seq<int>, bp: seq<int>, bo: seq<int>, ts: seq<Triple>) {
    && |bs| == |bp| == |bo| == |ts|
    && forall i :: 0 <= i < |ts| ==> Decodes(rows, bs[i], ts[i].s) && Decodes(rows, bp[i], ts[i].p) && Decodes(rows, bo[i], ts[i].o)
  }

  lemma WaitingGrows(rows: seq<DictRow>, more: seq<DictRow>, bs: seq<int>, bp: seq<int>, bo: seq<int>, ts: seq<Triple>)
    requires Waiting(rows, bs, bp, bo, ts) && rows <= more
    ensures Waiting(more, bs, bp, bo, ts)
  {
    hide Decodes;
    forall i | 0 <= i < |ts|
      ensures Decodes(more, bs[i], ts[i].s) && Decodes(more, bp[i], ts[i].p) && Decodes(more, bo[i], ts[i].o)
    {
      DecodesGrows(rows, more, bs[i], ts[i].s);
      DecodesGrows(rows, more, bp[i], ts[i].p);
      DecodesGrows(rows, more, bo[i], ts[i].o);
    }
  }

  lemma WaitingIsLoad(rows: seq<DictRow>, bs: seq<int>, bp: seq<int>, bo: seq<int>, ts: seq<Triple>, g: int, inferred: bool)
    requires Waiting(rows, bs, bp, bo, ts)
    ensures Loaded(rows, RowsOf(bs, bp, bo, g, inferred), 0, ts, g, inferred)
  {
    hide Decodes;
  }

  /** Flush the buffers: what waited is loaded. */
  method Flush(store: Store, bs: seq<int>, bp: seq<int>, bo: seq<int>, g: int, ghost from: nat, ghost done: seq<Triple>, ghost ts: seq<Triple>)
    requires store.Valid() && Loaded(store.rows, store.quads, from, done, g, false) && Waiting(store.rows, bs, bp, bo, ts)
    modifies store`quads
    ensures store.Valid() && Loaded(store.rows, store.quads, from, done + ts, g, false)
    ensures old(store.quads) <= store.quads
  {
    WaitingIsLoad(store.rows, bs, bp, bo, ts, g, false);
    LoadedMore(store.rows, store.quads, from, done, RowsOf(bs, bp, bo, g, false), ts, g, false);
    store.FlushBatch(bs, bp, bo, g, false);
  }

  /** `ingest_turtle_with_stats`, for any batch size. */
  method IngestBaseline(store: Store, triples: seq<Triple>, g: int, batchSize: nat)
    requires store.Valid() && forall t :: t in triples ==> ParsedTriple(t)
    modifies store
    ensures store.Valid() && old(store.quads) <= store.quads
    ensures Loaded(store.rows, store.quads, |old(store.quads)|, triples, g, false)
    ensures OnlyAdds(old(store.rows), store.rows, TermsOfAll(triples))
  {
    hide Store.Valid, Sound, OnlyAdds, Loaded, Waiting, TermsOf, TermsOfAll, Decodes;
    ghost var was, from, terms := store.rows, |store.quads|, TermsOfAll(triples);
    var cache: map<Key, int> := map[];
    var bs: seq<int>, bp: seq<int>, bo: seq<int> := [], [], [];
    ghost var flushed := 0;
    LoadStarts(store.rows, store.quads, g, terms);
    for i := 0 to |triples|
      invariant 0 <= flushed <= i
      invariant store.Valid() && old(store.quads) <= store.quads
      invariant Sound(cache, store.rows) && OnlyAdds(was, store.rows, terms)
      invariant Loaded(store.rows, store.quads, from, triples[..flushed], g, false)
      invariant Waiting(store.rows, bs, bp, bo, triples[flushed..i])
    {
      var t := triples[i];
      assert t in triples;
      TermsWithin(triples, t);
      TriplePartTerms(t);
      ghost var rows := store.rows;
      var s, p, o;
      cache, s := InternPlain(store, cache, t.s, was, terms);
      ghost var afterS := store.rows;
      cache, p := InternPlain(store, cache, t.p, was, terms);
      ghost var afterP := store.rows;
      cache, o := ObjectToId(store, cache, t.o, was, terms);
      DecodesGrows(afterS, store.rows, s, t.s);
      DecodesGrows(afterP, store.rows, p, t.p);
      LoadedGrows(rows, store.rows, store.quads, from, triples[..flushed], g, false);
      WaitingGrows(rows, store.rows, bs, bp, bo, triples[flushed..i]);
      WaitingMore(store.rows, bs, bp, bo, triples[flushed..i], s, p, o, t);
      assert triples[flushed..i] + [t] == triples[flushed..i + 1];
      bs, bp, bo := bs + [s], bp + [p], bo + [o];
      if |bs| >= batchSize {
        Flush(store, bs, bp, bo, g, from, triples[..flushed], triples[flushed..i + 1]);
        assert triples[..flushed] + triples[flushed..i + 1] == triples[..i + 1];
        bs, bp, bo, flushed := [], [], [], i + 1;
        NoneWaiting(store.rows);
        assert triples[i + 1..i + 1] == [];
      }
    }
    Flush(store, bs, bp, bo, g, from, triples[..flushed], triples[flushed..|triples|]);
    assert triples[..flushed] + triples[flushed..|triples|] == triples;
  }

  lemma LoadStarts(rows: seq<DictRow>, quads: seq<QuadRow>, g: int, terms: set<Term>)
    ensures Loaded(rows, quads, |quads|, [], g, false) && Waiting(rows, [], [], [], []) && Sound(map[], rows)
    ensures OnlyAdds(rows, rows, terms)
  {
  }

  lemma NoneWaiting(rows: seq<DictRow>)
    ensures Waiting(rows, [], [], [], [])
  {
  }

  lemma TriplePartTerms(t: Triple)
    ensures t.s in TermsOfTriple(t) && t.p in TermsOfTriple(t) && TermsOf(t.o) <= TermsOfTriple(t)
  {
  }

  lemma WaitingMore(rows: seq<DictRow>, bs: seq<int>, bp: seq<int>, bo: seq<int>, ts: seq<Triple>, s: int, p: int, o: int, t: Triple)
    requires Waiting(rows, bs, bp, bo, ts)
    requires Decodes(rows, s, t.s) && Decodes(rows, p, t.p) && Decodes(rows, o, t.o)
    ensures Waiting(rows, bs + [s], bp + [p], bo + [o], ts + [t])
  {
    hide Decodes;
  }

  // ----- the streaming route -----

  /** A parsed triple by its dictionary keys. */
  datatype PendingTriple = PendingTriple(s: Key, p: Key, o: Key)

  ghost predicate Represents(rows: seq<DictRow>, k: PendingTriple, t: Triple) {
    KeyStandsFor(rows, k.s, t.s) && KeyStandsFor(rows, k.p, t.p) && KeyStandsFor(rows, k.o, t.o)
  }

  ghost predicate RepresentsAll(rows: seq<DictRow>, ks: seq<PendingTriple>, ts: seq<Triple>) {
    |ks| == |ts| && forall i :: 0 <= i < |ks| ==> Represents(rows, ks[i], ts[i])
  }

  lemma RepresentsAllGrows(rows: seq<DictRow>, more: seq<DictRow>, ks: seq<PendingTriple>, ts: seq<Triple>)
    requires RepresentsAll(rows, ks, ts) && rows <= more
    ensures RepresentsAll(more, ks, ts)
  {
    hide KeyStandsFor;
    forall i | 0 <= i < |ks| ensures Represents(more, ks[i], ts[i]) {
      KeyGrows(rows, more, ks[i].s, ts[i].s);
      KeyGrows(rows, more, ks[i].p, ts[i].p);
      KeyGrows(rows, more, ks[i].o, ts[i].o);
    }
  }

  /** The keys seen and not yet resolved, and the triples that wait for them. */
  class DeferQueue {
    var cache: map<Key, int>
    var queue: seq<Key>
    var queued: set<Key>
    var pending: seq<PendingTriple>

    predicate Known(k: Key)
      reads this
    {
      k in cache || k in queued
    }

    /** The cache is sound, the queue has no repetition, and every waiting key is cached or queued. */
    ghost predicate Valid(rows: seq<DictRow>)
      reads this
    {
      && Sound(cache, rows)
      && NoDuplicates(queue) && Elements(queue) == queued
      && forall k :: k in pending ==> Known(k.s) && Known(k.p) && Known(k.o)
    }

    /** Queued keys belong to terms the load needs. */
    ghost predicate Needed(rows: seq<DictRow>, terms: set<Term>)
      reads this`queue
    {
      forall k :: k in queue ==> NewFor(rows, k, terms)
    }

    constructor ()
      ensures cache == map[] && queue == [] && queued == {} && pending == []
    {
      cache, queue, queued, pending := map[], [], {}, [];
    }

    lemma ValidGrows(rows: seq<DictRow>, more: seq<DictRow>, terms: set<Term>)
      requires Valid(rows) && Needed(rows, terms) && rows <= more
      ensures Valid(more) && Needed(more, terms)
    {
      hide NewFor;
      SoundGrows(cache, rows, more);
      forall k | k in queue ensures NewFor(more, k, terms) { NewForGrows(rows, more, k, terms, terms); }
    }

    /** The cached id of a datatype, else the shared cache's, else the table's. */
    method ResolveDatatype(store: Store, iri: string, ghost was: seq<DictRow>, ghost terms: set<Term>) returns (id: int)
      requires Iri(iri) in terms
      requires store.Valid() && Valid(store.rows) && Needed(store.rows, terms) && OnlyAdds(was, store.rows, terms)
      modifies this`cache, store
      ensures store.Valid() && Valid(store.rows) && Needed(store.rows, terms) && OnlyAdds(was, store.rows, terms)
      ensures store.quads == old(store.quads) && old(store.rows) <= store.rows
      ensures DictRow(IriKey(iri), id) in store.rows
      ensures forall k :: old(Known(k)) ==> Known(k)
    {
      hide OnlyAdds, Needed, NewFor, HasKey, DistinctIds, OneRowPerKey, NoDuplicates, Elements;
      var key := IriKey(iri);
      if key in cache {
        return cache[key];
      }
      if key in store.shared {
        cache := cache[key := store.shared[key]];
        return store.shared[key];
      }
      hide Store.Valid;
      id := store.PutTerm(key);
      ValidGrows(old(store.rows), store.rows, terms);
      assert KeyStandsFor(store.rows, key, Iri(iri));
      OneAdded(was, old(store.rows), store.rows, terms, Iri(iri), key, old(store.next));
      cache := cache[key := id];
    }

    /** `object_key`: only a typed literal needs the dictionary. */
    method ObjectKey(store: Store, t: Term, ghost was: seq<DictRow>, ghost terms: set<Term>) returns (key: Key)
      requires Parsed(t) && TermsOf(t) <= terms
      requires store.Valid() && Valid(store.rows) && Needed(store.rows, terms) && OnlyAdds(was, store.rows, terms)
      modifies this`cache, store
      ensures store.Valid() && Valid(store.rows) && Needed(store.rows, terms) && OnlyAdds(was, store.rows, terms)
      ensures store.quads == old(store.quads) && old(store.rows) <= store.rows
      ensures KeyStandsFor(store.rows, key, t)
      ensures forall k :: old(Known(k)) ==> Known(k)
    {
      match t
      case Iri(i) => key := IriKey(i);
      case BNode(b) => key := BlankKey(b);
      case Lit(val, dt, lang) =>
        if lang.Some? {
          key := Key(LITERAL, val, None, lang);
        } else {
          var d := ResolveDatatype(store, dt.value, was, terms);
          key := Key(LITERAL, val, Some(d), None);
        }
    }

    /** Cache, then shared cache, then the queue. */
    method TryResolveOrDefer(store: Store, key: Key, ghost t: Term, ghost terms: set<Term>)
      requires store.Valid() && Valid(store.rows) && Needed(store.rows, terms)
      requires t in terms && KeyStandsFor(store.rows, key, t)
      modifies this`cache, this`queue, this`queued
      ensures Valid(store.rows) && Needed(store.rows, terms)
      ensures Known(key) && forall k :: old(Known(k)) ==> Known(k)
    {
      if key in cache || key in queued {
        return;
      }
      if key in store.shared {
        cache := cache[key := store.shared[key]];
        return;
      }
      assert key !in queue by { assert key in queue ==> key in Elements(queue); }
      queued := queued + {key};
      queue := queue + [key];
      assert NewFor(store.rows, key, terms);
    }

    /** Resolve the queue as one batch. The batch has no repetition, so the dictionary keeps one row
        per key. */
    method FlushDefer(store: Store, ghost was: seq<DictRow>, ghost terms: set<Term>)
      requires store.Valid() && Valid(store.rows) && Needed(store.rows, terms) && OnlyAdds(was, store.rows, terms)
      modifies this`cache, this`queue, this`queued, store
      ensures store.Valid() && Valid(store.rows) && Needed(store.rows, terms) && OnlyAdds(was, store.rows, terms)
      ensures store.quads == old(store.quads) && old(store.rows) <= store.rows
      ensures queue == [] && forall k :: old(Known(k)) ==> k in cache
      ensures old(store.staged) <= store.staged && forall k :: k in old(queue) ==> HasKey(store.staged, k)
    {
      hide OnlyAdds, Needed, Elements, NoDuplicates, HasKey;
      if queue == [] {
        NothingQueued();
        return;
      }
      ResolveBatch(store, was, terms);
      QueuedAreCached();
      queue, queued := [], {};
      NothingNeeded(store.rows, terms);
    }

    /** One batch call for the whole queue; what it resolves is cached and staged. */
    method ResolveBatch(store: Store, ghost was: seq<DictRow>, ghost terms: set<Term>)
      requires store.Valid() && Valid(store.rows) && Needed(store.rows, terms) && OnlyAdds(was, store.rows, terms)
      modifies this`cache, store
      ensures store.Valid() && Valid(store.rows) && Needed(store.rows, terms) && OnlyAdds(was, store.rows, terms)
      ensures store.quads == old(store.quads) && old(store.rows) <= store.rows
      ensures old(cache).Keys <= cache.Keys && forall k :: k in queue ==> k in cache
      ensures old(store.staged) <= store.staged && forall k :: k in queue ==> HasKey(store.staged, k)
    {
      hide Store.Valid, OnlyAdds, NewFor, AfterBatch, NoDuplicates, Missing, Needed, Elements, HasKey;
      ghost var rows := store.rows;
      QueueIsNeeded(rows, terms);
      var ids := store.PutTermsBatch(queue);
      BatchOnlyAdds(was, rows, old(store.next), queue, terms);
      ValidGrows(rows, store.rows, terms);
      CacheIds(ids, store.rows);
      store.Stage(Zip(queue, ids));
      forall k | k in queue ensures HasKey(store.staged, k) { ZippedHasKey(old(store.staged), queue, ids, k); }
    }

    lemma NothingQueued()
      requires queue == [] && Elements(queue) == queued
      ensures queued == {}
    {
    }

    lemma QueuedAreCached()
      requires Elements(queue) == queued && forall k :: k in queue ==> k in cache
      ensures forall k :: k in queued ==> k in cache
    {
      forall k | k in queued ensures k in cache { assert k in Elements(queue); }
    }

    lemma QueueIsNeeded(rows: seq<DictRow>, terms: set<Term>)
      requires Needed(rows, terms)
      ensures forall k :: k in queue ==> NewFor(rows, k, terms)
    {
    }

    lemma NothingNeeded(rows: seq<DictRow>, terms: set<Term>)
      requires queue == []
      ensures Needed(rows, terms) && NoDuplicates(queue) && Elements(queue) == {}
    {
    }

    /** Cache what the batch resolved. */
    method CacheIds(ids: seq<int>, ghost rows: seq<DictRow>)
      requires |ids| == |queue| && Sound(cache, rows) && forall i :: 0 <= i < |queue| ==> DictRow(queue[i], ids[i]) in rows
      modifies this`cache
      ensures Sound(cache, rows) && old(cache).Keys <= cache.Keys && forall k :: k in queue ==> k in cache
    {
      for i := 0 to |queue|
        invariant Sound(cache, rows) && old(cache).Keys <= cache.Keys
        invariant forall j :: 0 <= j < i ==> queue[j] in cache
      {
        cache := cache[queue[i] := ids[i]];
      }
    }

    /** No key is missing from the cache once the queue is empty: the panic on a miss cannot happen. */
    method Drain(ghost rows: seq<DictRow>, ghost ts: seq<Triple>) returns (bs: seq<int>, bp: seq<int>, bo: seq<int>)
      requires Valid(rows) && queue == [] && RepresentsAll(rows, pending, ts)
      modifies this`pending
      ensures Valid(rows) && pending == [] && Waiting(rows, bs, bp, bo, ts)
    {
      hide KeyStandsFor;
      assert queued == {};
      bs, bp, bo := [], [], [];
      for i := 0 to |pending|
        invariant |bs| == |bp| == |bo| == i
        invariant forall j :: 0 <= j < i ==> Decodes(rows, bs[j], ts[j].s) && Decodes(rows, bp[j], ts[j].p) && Decodes(rows, bo[j], ts[j].o)
      {
        var k := pending[i];
        assert k in pending;
        assert Represents(rows, k, ts[i]);
        assert DictRow(k.s, cache[k.s]) in rows && DictRow(k.p, cache[k.p]) in rows && DictRow(k.o, cache[k.o]) in rows;
        bs, bp, bo := bs + [cache[k.s]], bp + [cache[k.p]], bo + [cache[k.o]];
      }
      pending := [];
    }
  }

  function Zip(keys: seq<Key>, ids: seq<int>): (zs: seq<DictRow>)
    requires |keys| == |ids|
    ensures forall z :: z in zs ==> exists i :: 0 <= i < |keys| && z == DictRow(keys[i], ids[i])
  {
    seq(|keys|, i requires 0 <= i < |keys| => DictRow(keys[i], ids[i]))
  }

  lemma ZippedHasKey(was: seq<DictRow>, keys: seq<Key>, ids: seq<int>, k: Key)
    requires |keys| == |ids| && k in keys
    ensures HasKey(was + Zip(keys, ids), k)
  {
    var i :| 0 <= i < |keys| && keys[i] == k;
    assert (was + Zip(keys, ids))[|was| + i] == DictRow(k, ids[i]);
  }

  lemma BatchOnlyAdds(was: seq<DictRow>, rows: seq<DictRow>, next: int, keys: seq<Key>, terms: set<Term>)
    requires OnlyAdds(was, rows, terms) && forall k :: k in keys ==> NewFor(rows, k, terms)
    ensures OnlyAdds(was, AfterBatch(rows, next, keys), terms)
  {
    hide NewFor;
    var more := AfterBatch(rows, next, keys);
    forall r | r in more ensures r in rows || NewFor(more, r.key, terms) {
      if r !in rows {
        var i :| 0 <= i < |Missing(rows, keys)| && r == Numbered(Missing(rows, keys), next)[i];
        assert r.key in Missing(rows, keys);
        NewForGrows(rows, more, r.key, terms, terms);
      }
    }
    OnlyAddsMore(was, rows, more, terms, terms);
  }

  lemma RepresentsMore(rows: seq<DictRow>, ks: seq<PendingTriple>, ts: seq<Triple>, k: PendingTriple, t: Triple)
    requires RepresentsAll(rows, ks, ts) && Represents(rows, k, t)
    ensures RepresentsAll(rows, ks + [k], ts + [t])
  {
    hide Represents;
  }

  /** Both routes keep the store in this state between triples. */
  ghost predicate Under(store: Store, q: DeferQueue, was: seq<DictRow>, terms: set<Term>)
    reads store, q
  {
    store.Valid() && q.Valid(store.rows) && q.Needed(store.rows, terms) && OnlyAdds(was, store.rows, terms)
  }

  /** Key the three positions of a triple, resolving or deferring each. */
  method Enqueue(store: Store, q: DeferQueue, t: Triple, ghost was: seq<DictRow>, ghost terms: set<Term>)
    requires ParsedTriple(t) && TermsOfTriple(t) <= terms && Under(store, q, was, terms)
    modifies store, q`cache, q`queue, q`queued, q`pending
    ensures Under(store, q, was, terms)
    ensures store.quads == old(store.quads) && old(store.rows) <= store.rows
    ensures |q.pending| == |old(q.pending)| + 1 && q.pending[..|old(q.pending)|] == old(q.pending)
    ensures Represents(store.rows, q.pending[|old(q.pending)|], t)
  {
    hide Store.Valid, OnlyAdds, DeferQueue.Needed, TermsOf, NewFor;
    TriplePartTerms(t);
    TermIsItsOwn(t.o);
    var s := if t.s.Iri? then IriKey(t.s.iri) else BlankKey(t.s.id);
    var p := IriKey(t.p.iri);
    var o := q.ObjectKey(store, t.o, was, terms);
    q.TryResolveOrDefer(store, s, t.s, terms);
    q.TryResolveOrDefer(store, p, t.p, terms);
    q.TryResolveOrDefer(store, o, t.o, terms);
    q.pending := q.pending + [PendingTriple(s, p, o)];
  }

  lemma TermIsItsOwn(t: Term)
    ensures t in TermsOf(t)
  {
  }

  /** Resolve what is queued, then move the waiting triples into the quad table. */
  method FlushPending(store: Store, q: DeferQueue, g: int, ghost was: seq<DictRow>, ghost terms: set<Term>, ghost from: nat, ghost done: seq<Triple>, ghost ts: seq<Triple>)
    requires Under(store, q, was, terms)
    requires Loaded(store.rows, store.quads, from, done, g, false) && RepresentsAll(store.rows, q.pending, ts)
    modifies store, q`cache, q`queue, q`queued, q`pending
    ensures Under(store, q, was, terms) && q.pending == []
    ensures Loaded(store.rows, store.quads, from, done + ts, g, false)
    ensures old(store.quads) <= store.quads
  {
    hide Store.Valid, OnlyAdds, DeferQueue.Needed, DeferQueue.Valid, Loaded, RepresentsAll, Waiting;
    ghost var rows := store.rows;
    q.FlushDefer(store, was, terms);
    LoadedGrows(rows, store.rows, store.quads, from, done, g, false);
    RepresentsAllGrows(rows, store.rows, q.pending, ts);
    var bs, bp, bo := q.Drain(store.rows, ts);
    Flush(store, bs, bp, bo, g, from, done, ts);
  }

  /** `ingest_turtle_combined`, for any dictionary batch size and any quad batch size. */
  method IngestCombined(store: Store, triples: seq<Triple>, g: int, dictBatch: nat, batchSize: nat)
    requires store.Valid() && forall t :: t in triples ==> ParsedTriple(t)
    modifies store
    ensures store.Valid() && old(store.quads) <= store.quads
    ensures Loaded(store.rows, store.quads, |old(store.quads)|, triples, g, false)
    ensures OnlyAdds(old(store.rows), store.rows, TermsOfAll(triples))
  {
    hide Store.Valid, OnlyAdds, Loaded, RepresentsAll, Represents, TermsOfAll, TermsOfTriple, DeferQueue.Valid, DeferQueue.Needed, Under;
    ghost var was, from, terms := store.rows, |store.quads|, TermsOfAll(triples);
    var q := new DeferQueue();
    ghost var flushed := 0;
    LoadStarts(store.rows, store.quads, g, terms);
    UnderStarts(store, q, terms);
    for i := 0 to |triples|
      invariant 0 <= flushed <= i && fresh(q)
      invariant Under(store, q, was, terms) && old(store.quads) <= store.quads
      invariant Loaded(store.rows, store.quads, from, triples[..flushed], g, false)
      invariant RepresentsAll(store.rows, q.pending, triples[flushed..i])
    {
      var t := triples[i];
      assert t in triples;
      TermsWithin(triples, t);
      ghost var rows, waiting := store.rows, q.pending;
      Enqueue(store, q, t, was, terms);
      LoadedGrows(rows, store.rows, store.quads, from, triples[..flushed], g, false);
      RepresentsAllGrows(rows, store.rows, waiting, triples[flushed..i]);
      RepresentsMore(store.rows, waiting, triples[flushed..i], q.pending[|waiting|], t);
      assert q.pending == waiting + [q.pending[|waiting|]];
      assert triples[flushed..i] + [t] == triples[flushed..i + 1];
      if |q.queue| >= dictBatch {
        rows := store.rows;
        ResolveQueue(store, q, was, terms);
        LoadedGrows(rows, store.rows, store.quads, from, triples[..flushed], g, false);
        RepresentsAllGrows(rows, store.rows, q.pending, triples[flushed..i + 1]);
      }
      if |q.pending| >= batchSize {
        FlushPending(store, q, g, was, terms, from, triples[..flushed], triples[flushed..i + 1]);
        assert triples[..flushed] + triples[flushed..i + 1] == triples[..i + 1];
        flushed := i + 1;
        NoneRepresented(store.rows);
        assert triples[i + 1..i + 1] == [];
      }
    }
    FlushPending(store, q, g, was, terms, from, triples[..flushed], triples[flushed..|triples|]);
    assert triples[..flushed] + triples[flushed..|triples|] == triples;
    UnderEnds(store, q, was, terms);
  }

  method ResolveQueue(store: Store, q: DeferQueue, ghost was: seq<DictRow>, ghost terms: set<Term>)
    requires Under(store, q, was, terms)
    modifies store, q`cache, q`queue, q`queued
    ensures Under(store, q, was, terms)
    ensures store.quads == old(store.quads) && old(store.rows) <= store.rows
  {
    hide Store.Valid, OnlyAdds, DeferQueue.Needed, DeferQueue.Valid;
    q.FlushDefer(store, was, terms);
  }

  lemma UnderStarts(store: Store, q: DeferQueue, terms: set<Term>)
    requires store.Valid() && q.cache == map[] && q.queue == [] && q.queued == {} && q.pending == []
    ensures Under(store, q, store.rows, terms)
    ensures RepresentsAll(store.rows, q.pending, [])
  {
    hide Store.Valid;
    LoadStarts(store.rows, [], 0, terms);
    assert Elements<Key>([]) == {};
  }

  lemma NoneRepresented(rows: seq<DictRow>)
    ensures RepresentsAll(rows, [], [])
  {
  }

  lemma UnderEnds(store: Store, q: DeferQueue, was: seq<DictRow>, terms: set<Term>)
    requires Under(store, q, was, terms)
    ensures store.Valid() && OnlyAdds(was, store.rows, terms)
  {
  }

  // ----- agreement -----

  ghost predicate Stored(rows: seq<DictRow>, t: Term) {
    exists id :: Decodes(rows, id, t)
  }

  /** Every datatype id refers to a row. */
  ghost predicate Grounded(rows: seq<DictRow>) {
    forall r :: r in rows && r.key.dt.Some? ==> exists iri :: DictRow(IriKey(iri), r.key.dt.value) in rows
  }

  lemma SameKeySameTerm(rows: seq<DictRow>, next: int, key: Key, t: Term, u: Term)
    requires DistinctIds(rows, next) && KeyStandsFor(rows, key, t) && KeyStandsFor(rows, key, u)
    ensures t == u
  {
    if t.Lit? && t.dt.Some? {
      RowById(rows, next, DictRow(IriKey(t.dt.value), key.dt.value), DictRow(IriKey(u.dt.value), key.dt.value));
    }
  }

  lemma OldKeyOldTerm(was: seq<DictRow>, rows: seq<DictRow>, next: int, r: DictRow, t: Term)
    requires was <= rows && DistinctIds(rows, next) && Grounded(was) && r in was && KeyStandsFor(rows, r.key, t)
    ensures KeyStandsFor(was, r.key, t)
  {
    if t.Lit? && t.dt.Some? {
      var iri :| DictRow(IriKey(iri), r.key.dt.value) in was;
      PrefixMember(was, rows, DictRow(IriKey(iri), r.key.dt.value));
      RowById(rows, next, DictRow(IriKey(iri), r.key.dt.value), DictRow(IriKey(t.dt.value), r.key.dt.value));
    }
  }

  lemma LoadStores(rows: seq<DictRow>, quads: seq<QuadRow>, from: nat, triples: seq<Triple>, g: int, inferred: bool, x: Term)
    requires Loaded(rows, quads, from, triples, g, inferred) && x in TermsOfAll(triples)
    ensures Stored(rows, x)
  {
    var t :| t in triples && x in TermsOfTriple(t);
    var i := IndexOf(triples, t);
    var q := quads[from + i];
    assert QuadDecodes(rows, q, t);
    PartStored(rows, q.s, t.s, x);
    PartStored(rows, q.p, t.p, x);
    PartStored(rows, q.o, t.o, x);
  }

  lemma PartStored(rows: seq<DictRow>, id: int, t: Term, x: Term)
    requires Decodes(rows, id, t)
    ensures x in TermsOf(t) ==> Stored(rows, x)
  {
    if x in TermsOf(t) && x != t {
      var k :| DictRow(k, id) in rows && KeyStandsFor(rows, k, t);
      assert KeyStandsFor(rows, IriKey(t.dt.value), x);
      assert Decodes(rows, k.dt.value, x);
    }
  }

  /** After a load the dictionary holds exactly what it held and the terms of the load. */
  lemma StoredExactly(was: seq<DictRow>, rows: seq<DictRow>, next: int, quads: seq<QuadRow>, from: nat, triples: seq<Triple>, g: int, inferred: bool, x: Term)
    requires Grounded(was) && DistinctIds(rows, next)
    requires OnlyAdds(was, rows, TermsOfAll(triples)) && Loaded(rows, quads, from, triples, g, inferred)
    ensures Stored(rows, x) <==> Stored(was, x) || x in TermsOfAll(triples)
  {
    hide KeyStandsFor, TermsOfAll, Loaded, Grounded, DistinctIds;
    if Stored(rows, x) {
      var id :| Decodes(rows, id, x);
      var k :| DictRow(k, id) in rows && KeyStandsFor(rows, k, x);
      if DictRow(k, id) in was {
        OldKeyOldTerm(was, rows, next, DictRow(k, id), x);
        assert Decodes(was, id, x);
      } else {
        assert NewFor(rows, k, TermsOfAll(triples));
        var t :| t in TermsOfAll(triples) && KeyStandsFor(rows, k, t);
        SameKeySameTerm(rows, next, k, t, x);
      }
    }
    if Stored(was, x) {
      var id :| Decodes(was, id, x);
      DecodesGrows(was, rows, id, x);
    }
    if x in TermsOfAll(triples) { LoadStores(rows, quads, from, triples, g, inferred, x); }
  }

  /** The routes agree: from one starting dictionary, the same terms are stored and the loaded quads
      decode to the same triples in the same positions, whatever the batch sizes. */
  lemma RoutesAgree(was: seq<DictRow>, triples: seq<Triple>, g: int, from: nat,
                    rowsA: seq<DictRow>, nextA: int, quadsA: seq<QuadRow>, rowsB: seq<DictRow>, nextB: int, quadsB: seq<QuadRow>)
    requires Grounded(was) && DistinctIds(rowsA, nextA) && DistinctIds(rowsB, nextB)
    requires OnlyAdds(was, rowsA, TermsOfAll(triples)) && Loaded(rowsA, quadsA, from, triples, g, false)
    requires OnlyAdds(was, rowsB, TermsOfAll(triples)) && Loaded(rowsB, quadsB, from, triples, g, false)
    ensures forall x :: Stored(rowsA, x) <==> Stored(rowsB, x)
    ensures |quadsA| == |quadsB|
    ensures forall k, t :: from <= k < |quadsA| ==> (QuadDecodes(rowsA, quadsA[k], t) <==> QuadDecodes(rowsB, quadsB[k], t))
  {
    forall x ensures Stored(rowsA, x) <==> Stored(rowsB, x) {
      hide Stored, OnlyAdds, Loaded, TermsOfAll;
      StoredExactly(was, rowsA, nextA, quadsA, from, triples, g, false, x);
      StoredExactly(was, rowsB, nextB, quadsB, from, triples, g, false, x);
    }
    forall k, t | from <= k < |quadsA|
      ensures QuadDecodes(rowsA, quadsA[k], t) <==> QuadDecodes(rowsB, quadsB[k], t)
    {
      hide QuadDecodes, OnlyAdds, Loaded, TermsOfAll, Stored, DistinctIds;
      LoadedOneTriple(rowsA, nextA, quadsA, from, triples, g, k, t);
      LoadedOneTriple(rowsB, nextB, quadsB, from, triples, g, k, t);
    }
  }

  lemma LoadedOneTriple(rows: seq<DictRow>, next: int, quads: seq<QuadRow>, from: nat, triples: seq<Triple>, g: int, k: nat, t: Triple)
    requires DistinctIds(rows, next) && Loaded(rows, quads, from, triples, g, false) && from <= k < |quads|
    ensures QuadDecodes(rows, quads[k], t) <==> t == triples[k - from]
  {
    hide QuadDecodes, DistinctIds;
    var i := k - from;
    assert quads[k] == quads[from + i] && IsRow(rows, quads[from + i], triples[i], g, false);
    QuadDecodesOneTriple(rows, next, quads[k], triples[i], t);
  }

  lemma QuadDecodesOneTriple(rows: seq<DictRow>, next: int, q: QuadRow, t: Triple, u: Triple)
    requires DistinctIds(rows, next) && QuadDecodes(rows, q, t)
    ensures QuadDecodes(rows, q, u) <==> t == u
  {
    hide Decodes;
    if QuadDecodes(rows, q, u) {
      DecodesOneTerm(rows, next, q.s, t.s, u.s);
      DecodesOneTerm(rows, next, q.p, t.p, u.p);
      DecodesOneTerm(rows, next, q.o, t.o, u.o);
    }
  }
}
