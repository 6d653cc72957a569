/**
 The windowed bulk load of an empty dictionary: a term map that outlives the windows, ids drawn from
 reserved blocks, datatypes stored before the literals that refer to them. It reaches the same state as
 the other routes. Also the cut of a file into chunks at line ends.
 */
module WindowedIngest {
  import opened Sequences
  import opened Terms
  import opened Dictionary
  import opened Ingest

  // ----- cutting the bytes of a file -----

  /** The first position after the newline at or behind i, or the end. */
  method NextLineStart(bytes: seq<char>, i: nat) returns (j: nat)
    requires i <= |bytes|
    ensures i <= j <= |bytes| && (j == |bytes| || (j > i && bytes[j - 1] == '\n'))
    ensures NoNewlineWithin(bytes, i, j)
  {
    j := i;
    while j < |bytes| && bytes[j] != '\n'
      invariant i <= j <= |bytes| && NoNewline(bytes, i, j)
    {
      j := j + 1;
    }
    if j < |bytes| {
      j := j + 1;
    }
  }

  predicate NoNewline(bytes: seq<char>, from: nat, to: nat)
    requires to <= |bytes|
  {
    forall x :: from <= x < to ==> bytes[x] != '\n'
  }

  /** No newline in the stretch but perhaps the last character. */
  predicate NoNewlineWithin(bytes: seq<char>, from: nat, to: nat)
    requires to <= |bytes|
  {
    to > 0 ==> NoNewline(bytes, from, to - 1)
  }

  /** A cut is the start of a line or the end of the file. */
  predicate LineStart(bytes: seq<char>, j: nat) {
    j <= |bytes| && (j == 0 || j == |bytes| || bytes[j - 1] == '\n')
  }

  ghost predicate Cuts(bytes: seq<char>, bounds: seq<nat>) {
    && bounds != [] && bounds[0] == 0
    && (forall i :: 0 <= i < |bounds| ==> LineStart(bytes, bounds[i]))
    && forall i, k :: 0 <= i < k < |bounds| ==> bounds[i] <= bounds[k]
  }

  /** The k-th of n equal shares. */
  function Share(total: nat, k: nat, n: nat): nat
    requires n > 0
  {
    total * k / n
  }

  lemma ShareBounds(total: nat, k: nat, n: nat)
    requires 0 < k <= n
    ensures Share(total, k - 1, n) <= Share(total, k, n) <= total
  {
    MultiplyMonotone(total, k - 1, k);
    MultiplyMonotone(total, k, n);
    DivideMonotone(total * (k - 1), total * k, n);
    DivideAtMost(total * k, total, n);
  }

  lemma MultiplyMonotone(x: nat, a: nat, b: nat)
    requires a <= b
    ensures x * a <= x * b
  {
    assert x * b == x * a + x * (b - a);
  }

  lemma DivideAtMost(a: nat, x: nat, n: nat)
    requires n > 0 && a <= x * n
    ensures a / n <= x
  {
    var q := a / n;
    assert a == n * q + a % n;
    if q > x { MultiplyMonotone(n, x + 1, q); }
  }

  lemma DivideMonotone(a: nat, b: nat, n: nat)
    requires n > 0 && a <= b
    ensures a / n <= b / n
  {
    var p, q := a / n, b / n;
    assert a == n * p + a % n && b == n * q + b % n;
    if p > q { MultiplyMonotone(n, q + 1, p); }
  }

  /** The first place behind a newline at or after `from`; the end if no newline follows. */
  predicate IsCut(bytes: seq<char>, from: int, j: nat) {
    && 0 <= from <= j <= |bytes|
    && (j < |bytes| ==> j > from && bytes[j - 1] == '\n')
    && forall x :: from <= x < j - 1 ==> bytes[x] != '\n'
  }

  lemma FoundCut(bytes: seq<char>, from: nat, j: nat)
    requires from <= j <= |bytes| && (j == |bytes| || (j > from && bytes[j - 1] == '\n')) && NoNewlineWithin(bytes, from, j)
    ensures IsCut(bytes, from, j)
  {
  }

  lemma ShareIs(total: nat, k: nat, n: nat)
    requires n > 0
    ensures Share(total, k, n) == total * k / n
  {
  }

  /** One cut per thread, each moved on to a line start. */
  method CutPoints(bytes: seq<char>, threads: nat) returns (bounds: seq<nat>)
    requires threads > 0
    ensures Cuts(bytes, bounds) && bounds[|bounds| - 1] == |bytes| && |bounds| == threads + 1
    ensures forall k :: 0 < k < threads ==> IsCut(bytes, |bytes| * k / threads, bounds[k])
  {
    hide Cuts, Share, NoNewlineWithin, IsCut;
    bounds := [0];
    FirstCut(bytes, threads);
    for k := 1 to threads
      invariant |bounds| == k && Cuts(bytes, bounds)
      invariant Share(|bytes|, k - 1, threads) <= |bytes|
      invariant forall i :: 0 < i < k ==> IsCut(bytes, |bytes| * i / threads, bounds[i])
      invariant bounds[k - 1] <= |bytes| && NoNewlineWithin(bytes, Share(|bytes|, k - 1, threads), bounds[k - 1])
    {
      ShareBounds(|bytes|, k, threads);
      var j := NextLineStart(bytes, Share(|bytes|, k, threads));
      NextCut(bytes, bounds, Share(|bytes|, k - 1, threads), Share(|bytes|, k, threads), j);
      FoundCut(bytes, Share(|bytes|, k, threads), j);
      assert Share(|bytes|, k, threads) == |bytes| * k / threads by { ShareIs(|bytes|, k, threads); }
      bounds := bounds + [j];
    }
    LastCut(bytes, bounds);
    bounds := bounds + [|bytes|];
  }

  lemma FirstCut(bytes: seq<char>, n: nat)
    requires n > 0
    ensures Share(|bytes|, 0, n) == 0 && Cuts(bytes, [0]) && NoNewlineWithin(bytes, 0, 0)
  {
  }

  /** The next cut does not fall behind the last: the newline that stopped the last scan stops this one
      too, unless it starts further on. */
  lemma NextCut(bytes: seq<char>, bounds: seq<nat>, before: nat, i: nat, j: nat)
    requires Cuts(bytes, bounds) && before <= i <= j <= |bytes|
    requires j == |bytes| || (j > i && bytes[j - 1] == '\n')
    requires bounds[|bounds| - 1] <= |bytes| && NoNewlineWithin(bytes, before, bounds[|bounds| - 1])
    ensures Cuts(bytes, bounds + [j])
  {
  }

  lemma LastCut(bytes: seq<char>, bounds: seq<nat>)
    requires Cuts(bytes, bounds)
    ensures Cuts(bytes, bounds + [|bytes|])
  {
  }

  /** The chunks between cuts. */
  function Chunks(bytes: seq<char>, bounds: seq<nat>): seq<seq<char>>
    requires forall i :: 0 <= i < |bounds| ==> bounds[i] <= |bytes|
    requires forall i, k :: 0 <= i < k < |bounds| ==> bounds[i] <= bounds[k]
  {
    if |bounds| < 2 then []
    else Chunks(bytes, bounds[..|bounds| - 1]) + [bytes[bounds[|bounds| - 2]..bounds[|bounds| - 1]]]
  }

  /** The chunks are the file: nothing is lost, repeated or reordered. */
  lemma {:induction false} ChunksCover(bytes: seq<char>, bounds: seq<nat>)
    requires Cuts(bytes, bounds)
    ensures Flatten(Chunks(bytes, bounds)) == bytes[..bounds[|bounds| - 1]]
  {
    if |bounds| >= 2 {
      var n := |bounds| - 1;
      ChunksCover(bytes, bounds[..n]);
      FlattenMore(Chunks(bytes, bounds[..n]), bytes[bounds[n - 1]..bounds[n]]);
      JoinSlices(bytes, bounds[n - 1], bounds[n]);
    } else {
      assert bytes[..0] == [];
    }
  }

  lemma FlattenMore(chunks: seq<seq<char>>, c: seq<char>)
    ensures Flatten(chunks + [c]) == Flatten(chunks) + c
  {
    assert (chunks + [c])[..|chunks|] == chunks;
  }

  lemma JoinSlices(bytes: seq<char>, i: nat, j: nat)
    requires i <= j <= |bytes|
    ensures bytes[..i] + bytes[i..j] == bytes[..j]
  {
  }

  /** No line is split: a chunk that is not empty ends with a newline or with the file. */
  lemma {:induction false} ChunksEndLines(bytes: seq<char>, bounds: seq<nat>, c: seq<char>)
    requires Cuts(bytes, bounds) && c in Chunks(bytes, bounds) && c != []
    ensures c[|c| - 1] == '\n' || EndsFile(bytes, c)
  {
    var n := |bounds| - 1;
    var last := bytes[bounds[n - 1]..bounds[n]];
    if c == last {
      assert bounds[n] < |bytes| ==> c[|c| - 1] == bytes[bounds[n] - 1];
      assert bounds[n] == |bytes| ==> bytes[|bytes| - |c|..] == c;
    } else {
      ChunksEndLines(bytes, bounds[..n], c);
    }
  }

  /** The chunk at the very end of the file. */
  predicate EndsFile(bytes: seq<char>, c: seq<char>) {
    |c| <= |bytes| && bytes[|bytes| - |c|..] == c
  }

  // ----- the load -----

  /** The term map, the rows made for it and not yet inserted, and the block of ids being used up. */
  class TermMap {
    var dict: map<Key, int>
    var made: seq<DictRow>
    var nextId: int
    var idHi: int

    /** The dictionary table as it will be once the rows made are inserted. */
    ghost function Table(store: Store): seq<DictRow>
      reads this, store
    {
      store.rows + made
    }

    /** The map and the table are the same thing, one row per key, and the rest of the block is unused. */
    ghost predicate Valid(store: Store)
      reads this, store
    {
      && DistinctIds(Table(store), store.next) && OneRowPerKey(Table(store))
      && (forall k :: k in dict ==> DictRow(k, dict[k]) in Table(store))
      && (forall r :: r in Table(store) ==> r.key in dict)
      && nextId <= idHi <= store.next
      && (nextId < idHi ==> forall r :: r in Table(store) ==> r.id < nextId)
      && store.shared == map[] && (forall r :: r in store.staged ==> r in store.rows)
    }

    constructor ()
      ensures dict == map[] && made == [] && nextId == 0 && idHi == 0
    {
      dict, made, nextId, idHi := map[], [], 0, 0;
    }

    /** The next id, from a new block when the last is used up. */
    method AllocId(store: Store, block: nat) returns (id: int)
      requires Valid(store) && block > 0
      modifies this`nextId, this`idHi, store`next
      ensures Valid(store) && id < store.next && nextId == id + 1
      ensures forall r :: r in Table(store) ==> r.id < id
    {
      if nextId >= idHi {
        nextId := store.next;
        store.next := store.next + block;
        idHi := store.next;
        forall r | r in Table(store) ensures r.id < nextId {
          var i :| 0 <= i < |Table(store)| && Table(store)[i] == r;
        }
      }
      id := nextId;
      nextId := nextId + 1;
    }

    /** A key gets an id and a row the first time it is met, in whatever window. */
    method Intern(store: Store, block: nat, key: Key, ghost t: Term, ghost was: seq<DictRow>, ghost terms: set<Term>)
      requires Valid(store) && block > 0
      requires t in terms && KeyStandsFor(Table(store), key, t) && OnlyAdds(was, Table(store), terms)
      modifies this, store`next
      ensures Valid(store) && key in dict && old(Table(store)) <= Table(store) && OnlyAdds(was, Table(store), terms)
      ensures old(dict).Keys <= dict.Keys && forall k :: k in old(dict) ==> dict[k] == old(dict)[k]
    {
      if key in dict {
        return;
      }
      hide OnlyAdds, KeyStandsFor, Valid;
      var id := AllocId(store, block);
      AddRow(store, key, id, t, was, terms);
    }

    method AddRow(store: Store, key: Key, id: int, ghost t: Term, ghost was: seq<DictRow>, ghost terms: set<Term>)
      requires Valid(store) && key !in dict && id < store.next && nextId == id + 1
      requires forall r :: r in Table(store) ==> r.id < id
      requires t in terms && KeyStandsFor(Table(store), key, t) && OnlyAdds(was, Table(store), terms)
      modifies this`dict, this`made
      ensures Valid(store) && key in dict && old(Table(store)) <= Table(store) && OnlyAdds(was, Table(store), terms)
      ensures dict == old(dict)[key := id]
    {
      hide OnlyAdds, KeyStandsFor, DistinctIds, OneRowPerKey;
      ghost var table := Table(store);
      assert forall r :: r in table ==> r.key != key;
      made := made + [DictRow(key, id)];
      dict := dict[key := id];
      assert Table(store) == table + [DictRow(key, id)];
      RowAdded(table, key, id, store.next);
      KeyGrows(table, Table(store), key, t);
      OneAdded(was, table, Table(store), terms, t, key, id);
    }

    /** The bulk insert of the rows made so far. */
    method InsertMade(store: Store)
      requires Valid(store)
      modifies this`made, store`rows
      ensures Valid(store) && made == [] && store.rows == old(Table(store))
    {
      ghost var table := Table(store);
      store.rows := store.rows + made;
      made := [];
      assert Table(store) == table;
    }
  }

  lemma RowAdded(table: seq<DictRow>, key: Key, id: int, next: int)
    requires DistinctIds(table, next) && OneRowPerKey(table) && id < next
    requires forall r :: r in table ==> r.id < id && r.key != key
    ensures DistinctIds(table + [DictRow(key, id)], next) && OneRowPerKey(table + [DictRow(key, id)])
  {
    var all := table + [DictRow(key, id)];
    forall i, j | 0 <= i < j < |all| ensures all[i].id != all[j].id && all[i].key != all[j].key {
      assert all[i] in table;
    }
  }

  // ----- the two tiers of a window -----

  function PlainKey(t: Term): Key
    requires !t.Lit?
  {
    if t.Iri? then IriKey(t.iri) else BlankKey(t.id)
  }

  /** The keys that need no datatype id: subject, predicate, and the object or its datatype. */
  predicate TierOneDone(dict: map<Key, int>, t: Triple) {
    && !t.s.Lit? && !t.p.Lit? && PlainKey(t.s) in dict && PlainKey(t.p) in dict
    && (if t.o.Lit? then (t.o.dt.Some? ==> IriKey(t.o.dt.value) in dict) else PlainKey(t.o) in dict)
  }

  function LiteralKey(dict: map<Key, int>, o: Term): Key
    requires o.Lit? && (o.dt.Some? ==> IriKey(o.dt.value) in dict)
  {
    Key(LITERAL, o.val, if o.dt.Some? then Some(dict[IriKey(o.dt.value)]) else None, o.lang)
  }

  predicate TierTwoDone(dict: map<Key, int>, t: Triple) {
    TierOneDone(dict, t) && (t.o.Lit? ==> LiteralKey(dict, t.o) in dict)
  }

  predicate Extends(dict: map<Key, int>, more: map<Key, int>) {
    forall k :: k in dict ==> k in more && more[k] == dict[k]
  }

  lemma TiersStay(dict: map<Key, int>, more: map<Key, int>, t: Triple)
    requires Extends(dict, more)
    ensures TierOneDone(dict, t) ==> TierOneDone(more, t)
    ensures TierTwoDone(dict, t) ==> TierTwoDone(more, t)
  {
    if TierTwoDone(dict, t) && t.o.Lit? { assert LiteralKey(more, t.o) == LiteralKey(dict, t.o); }
  }

  /** What both tiers keep. */
  ghost predicate Loading(store: Store, m: TermMap, was: seq<DictRow>, terms: set<Term>)
    reads store, m
  {
    m.Valid(store) && OnlyAdds(was, m.Table(store), terms)
  }

  method InternTerm1(store: Store, m: TermMap, block: nat, t: Term, ghost was: seq<DictRow>, ghost terms: set<Term>)
    requires Loading(store, m, was, terms) && block > 0 && !t.Lit? && t in terms
    modifies m, store`next
    ensures Loading(store, m, was, terms) && PlainKey(t) in m.dict && Extends(old(m.dict), m.dict)
  {
    hide OnlyAdds, TermMap.Valid;
    m.Intern(store, block, PlainKey(t), t, was, terms);
  }

  /** Tier one: everything that is not a literal, and the literals' datatypes. */
  method TierOne(store: Store, m: TermMap, block: nat, window: seq<Triple>, ghost was: seq<DictRow>, ghost terms: set<Term>)
    requires Loading(store, m, was, terms) && block > 0 && TermsOfAll(window) <= terms
    requires forall t :: t in window ==> ParsedTriple(t)
    modifies m, store`next
    ensures Loading(store, m, was, terms)
    ensures forall t :: t in window ==> TierOneDone(m.dict, t)
  {
    hide Loading, TermsOfAll;
    for i := 0 to |window|
      invariant Loading(store, m, was, terms)
      invariant forall j :: 0 <= j < i ==> TierOneDone(m.dict, window[j])
    {
      var t := window[i];
      assert t in window;
      TermsWithin(window, t);
      ghost var before := m.dict;
      TierOneTriple(store, m, block, t, was, terms);
      forall j | 0 <= j < i ensures TierOneDone(m.dict, window[j]) { TiersStay(before, m.dict, window[j]); }
    }
  }

  method TierOneTriple(store: Store, m: TermMap, block: nat, t: Triple, ghost was: seq<DictRow>, ghost terms: set<Term>)
    requires Loading(store, m, was, terms) && block > 0 && TermsOfTriple(t) <= terms && ParsedTriple(t)
    modifies m, store`next
    ensures Loading(store, m, was, terms) && TierOneDone(m.dict, t) && Extends(old(m.dict), m.dict)
  {
    hide Loading;
    TriplePartTerms(t);
    InternTerm1(store, m, block, t.s, was, terms);
    InternTerm1(store, m, block, t.p, was, terms);
    if !t.o.Lit? {
      InternTerm1(store, m, block, t.o, was, terms);
    } else if t.o.dt.Some? {
      InternTerm1(store, m, block, Iri(t.o.dt.value), was, terms);
    }
  }

  /** Tier two: the literals; every datatype id they carry is already in the table. */
  method TierTwo(store: Store, m: TermMap, block: nat, window: seq<Triple>, ghost was: seq<DictRow>, ghost terms: set<Term>)
    requires Loading(store, m, was, terms) && block > 0 && TermsOfAll(window) <= terms
    requires forall t :: t in window ==> TierOneDone(m.dict, t)
    modifies m, store`next
    ensures Loading(store, m, was, terms)
    ensures forall t :: t in window ==> TierTwoDone(m.dict, t)
  {
    hide Loading, TermsOfAll, TierOneDone;
    for i := 0 to |window|
      invariant Loading(store, m, was, terms)
      invariant forall t :: t in window ==> TierOneDone(m.dict, t)
      invariant forall j :: 0 <= j < i ==> TierTwoDone(m.dict, window[j])
    {
      var t := window[i];
      assert t in window;
      TermsWithin(window, t);
      ghost var before := m.dict;
      TierTwoTriple(store, m, block, t, was, terms);
      forall u | u in window ensures TierOneDone(m.dict, u) { TiersStay(before, m.dict, u); }
      forall j | 0 <= j < i ensures TierTwoDone(m.dict, window[j]) { TiersStay(before, m.dict, window[j]); }
    }
  }

  method TierTwoTriple(store: Store, m: TermMap, block: nat, t: Triple, ghost was: seq<DictRow>, ghost terms: set<Term>)
    requires Loading(store, m, was, terms) && block > 0 && TermsOfTriple(t) <= terms && TierOneDone(m.dict, t)
    modifies m, store`next
    ensures Loading(store, m, was, terms) && TierTwoDone(m.dict, t) && Extends(old(m.dict), m.dict)
  {
    if t.o.Lit? {
      hide OnlyAdds, DistinctIds, OneRowPerKey;
      TriplePartTerms(t);
      TermIsItsOwn(t.o);
      var key := LiteralKey(m.dict, t.o);
      assert KeyStandsFor(m.Table(store), key, t.o);
      ghost var before := m.dict;
      hide TermMap.Valid;
      m.Intern(store, block, key, t.o, was, terms);
      TiersStay(before, m.dict, t);
      assert LiteralKey(m.dict, t.o) == key;
    }
  }

  // ----- the rows of a window -----

  function KeyIn(dict: map<Key, int>, t: Term): Key
    requires t.Lit? && t.dt.Some? ==> IriKey(t.dt.value) in dict
  {
    if t.Lit? then LiteralKey(dict, t) else PlainKey(t)
  }

  lemma Resolved(store: Store, m: TermMap, t: Triple)
    requires m.Valid(store) && m.made == [] && TierTwoDone(m.dict, t)
    ensures Decodes(store.rows, m.dict[KeyIn(m.dict, t.s)], t.s)
    ensures Decodes(store.rows, m.dict[KeyIn(m.dict, t.p)], t.p)
    ensures Decodes(store.rows, m.dict[KeyIn(m.dict, t.o)], t.o)
  {
    hide DistinctIds, OneRowPerKey;
    assert m.Table(store) == store.rows;
    KeyInStands(store, m, t.s);
    KeyInStands(store, m, t.p);
    KeyInStands(store, m, t.o);
  }

  lemma KeyInStands(store: Store, m: TermMap, t: Term)
    requires m.Valid(store) && m.made == [] && (t.Lit? && t.dt.Some? ==> IriKey(t.dt.value) in m.dict)
    requires KeyIn(m.dict, t) in m.dict
    ensures Decodes(store.rows, m.dict[KeyIn(m.dict, t)], t)
  {
    hide DistinctIds, OneRowPerKey;
    assert m.Table(store) == store.rows;
    assert KeyStandsFor(store.rows, KeyIn(m.dict, t), t);
  }

  lemma SettledIsValid(store: Store, m: TermMap)
    requires m.Valid(store) && m.made == []
    ensures store.Valid()
  {
    assert m.Table(store) == store.rows;
  }

  /** Look every triple of the window up in the map; flush full batches, carry the rest over. */
  method ResolveWindow(store: Store, m: TermMap, window: seq<Triple>, g: int, batch: nat, bs0: seq<int>, bp0: seq<int>, bo0: seq<int>,
                       ghost from: nat, ghost done0: seq<Triple>, ghost waiting0: seq<Triple>)
    returns (bs: seq<int>, bp: seq<int>, bo: seq<int>, ghost done: seq<Triple>, ghost waiting: seq<Triple>)
    requires m.Valid(store) && m.made == [] && forall t :: t in window ==> TierTwoDone(m.dict, t)
    requires Loaded(store.rows, store.quads, from, done0, g, false) && Waiting(store.rows, bs0, bp0, bo0, waiting0)
    modifies store`quads
    ensures m.Valid(store) && old(store.quads) <= store.quads
    ensures done + waiting == done0 + waiting0 + window
    ensures Loaded(store.rows, store.quads, from, done, g, false) && Waiting(store.rows, bs, bp, bo, waiting)
  {
    hide Loaded, Waiting, DistinctIds, OneRowPerKey, Decodes, TierTwoDone, TierOneDone;
    bs, bp, bo, done, waiting := bs0, bp0, bo0, done0, waiting0;
    for i := 0 to |window|
      invariant m.Valid(store) && store.Valid() == old(store.Valid()) && old(store.quads) <= store.quads
      invariant done + waiting == done0 + waiting0 + window[..i]
      invariant Loaded(store.rows, store.quads, from, done, g, false) && Waiting(store.rows, bs, bp, bo, waiting)
    {
      var t := window[i];
      assert t in window;
      Resolved(store, m, t);
      SettledIsValid(store, m);
      var s, p, o := IdOf(m, t.s, t), IdOf(m, t.p, t), IdOf(m, t.o, t);
      WaitingMore(store.rows, bs, bp, bo, waiting, s, p, o, t);
      assert window[..i + 1] == window[..i] + [t];
      assert done + (waiting + [t]) == done + waiting + [t];
      bs, bp, bo, waiting := bs + [s], bp + [p], bo + [o], waiting + [t];
      if |bs| >= batch {
        Flush(store, bs, bp, bo, g, from, done, waiting);
        done, waiting := done + waiting, [];
        bs, bp, bo := [], [], [];
        NoneWaiting(store.rows);
      }
    }
    assert window[..|window|] == window;
  }

  function IdOf(m: TermMap, x: Term, t: Triple): int
    reads m
    requires TierTwoDone(m.dict, t) && (x == t.s || x == t.p || x == t.o)
  {
    m.dict[KeyIn(m.dict, x)]
  }

  /** `ingest_turtle_streaming`, for any windows, block size and batch size, on an empty dictionary. */
  method IngestWindowed(store: Store, windows: seq<seq<Triple>>, g: int, block: nat, batch: nat)
    requires store.Valid() && store.rows == [] && store.next >= 0 && block > 0
    requires forall w, t :: w in windows && t in w ==> ParsedTriple(t)
    modifies store
    ensures store.Valid() && old(store.quads) <= store.quads
    ensures Loaded(store.rows, store.quads, |old(store.quads)|, Flatten(windows), g, false)
    ensures OnlyAdds([], store.rows, TermsOfAll(Flatten(windows)))
  {
    hide Loaded, Waiting, OnlyAdds, TermsOfAll, TierTwoDone, TierOneDone, DistinctIds, OneRowPerKey;
    ghost var from, terms := |store.quads|, TermsOfAll(Flatten(windows));
    var m := new TermMap();
    NothingStored(store, m, terms);
    LoadStarts(store.rows, store.quads, g, terms);
    var bs: seq<int>, bp: seq<int>, bo: seq<int> := [], [], [];
    ghost var done: seq<Triple>, waiting: seq<Triple> := [], [];
    for i := 0 to |windows|
      invariant fresh(m) && m.made == [] && Loading(store, m, [], terms) && old(store.quads) <= store.quads
      invariant done + waiting == Flatten(windows[..i])
      invariant Loaded(store.rows, store.quads, from, done, g, false) && Waiting(store.rows, bs, bp, bo, waiting)
    {
      var window := windows[i];
      assert window in windows;
      WindowTerms(windows, i);
      ghost var rows := store.rows;
      LoadDictionary(store, m, block, window, [], terms);
      LoadedGrows(rows, store.rows, store.quads, from, done, g, false);
      WaitingGrows(rows, store.rows, bs, bp, bo, waiting);
      bs, bp, bo, done, waiting := ResolveWindow(store, m, window, g, batch, bs, bp, bo, from, done, waiting);
      FlattenStep(windows, i);
    }
    assert windows[..|windows|] == windows;
    SettledIsValid(store, m);
    assert m.Table(store) == store.rows;
    Flush(store, bs, bp, bo, g, from, done, waiting);
  }

  /** Both tiers, each inserted before the next needs it. */
  method LoadDictionary(store: Store, m: TermMap, block: nat, window: seq<Triple>, ghost was: seq<DictRow>, ghost terms: set<Term>)
    requires Loading(store, m, was, terms) && m.made == [] && block > 0 && TermsOfAll(window) <= terms
    requires forall t :: t in window ==> ParsedTriple(t)
    modifies m, store`next, store`rows
    ensures Loading(store, m, was, terms) && m.made == [] && old(store.rows) <= store.rows
    ensures forall t :: t in window ==> TierTwoDone(m.dict, t)
  {
    hide OnlyAdds, TermsOfAll, TierTwoDone, TierOneDone, DistinctIds, OneRowPerKey;
    TierOne(store, m, block, window, was, terms);
    m.InsertMade(store);
    assert m.Table(store) == store.rows;
    TierTwo(store, m, block, window, was, terms);
    m.InsertMade(store);
    assert m.Table(store) == store.rows;
  }

  lemma NothingStored(store: Store, m: TermMap, terms: set<Term>)
    requires store.Valid() && store.rows == [] && store.next >= 0 && m.dict == map[] && m.made == [] && m.nextId == 0 && m.idHi == 0
    ensures Loading(store, m, [], terms)
  {
    assert m.Table(store) == [];
  }

  lemma WindowTerms(windows: seq<seq<Triple>>, i: nat)
    requires i < |windows|
    ensures TermsOfAll(windows[i]) <= TermsOfAll(Flatten(windows))
  {
    forall t | t in windows[i] ensures t in Flatten(windows) { InFlatten(windows, i, t); }
  }

  lemma {:induction false} InFlatten(windows: seq<seq<Triple>>, i: nat, t: Triple)
    requires i < |windows| && t in windows[i]
    ensures t in Flatten(windows)
  {
    var n := |windows| - 1;
    if i < n { InFlatten(windows[..n], i, t); }
  }

  lemma FlattenStep(windows: seq<seq<Triple>>, i: nat)
    requires i < |windows|
    ensures Flatten(windows[..i + 1]) == Flatten(windows[..i]) + windows[i]
  {
    assert windows[..i + 1][..i] == windows[..i];
  }
}
