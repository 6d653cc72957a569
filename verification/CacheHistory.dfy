/**
 Publication of dictionary ids over transaction histories: ids are staged under the subtransaction that
 saw them, dropped with it, and published one by one after the commit.

 Backends interleave step by step. Over every run, what the shared cache holds are ids of committed
 rows, a list holds exactly the stagings that no abort has undone, and a published id leaves the cache
 only by eviction, by a later publication of its key, or by a reset.
 */
module CacheHistory {
  import opened Sequences
  import opened Terms
  import opened DictCache

  datatype Entry = Entry(key: Print, id: int, tag: nat)

  function Below(sub: nat): Entry -> bool {
    (e: Entry) => e.tag < sub
  }

  // ----- the pending list and its flush -----

  /** The table after publishing entries in order. */
  function FlushInto(slots: seq<Slot>, gen: nat, entries: seq<Entry>): (r: seq<Slot>)
    requires |slots| == SLOTS
    ensures |r| == SLOTS
    decreases |entries|
  {
    if entries == [] then slots
    else FlushInto(InsertInto(slots, gen, entries[0].key, entries[0].id), gen, entries[1..])
  }

  /** Publishing entry j changes what the cache says of k: it sets k, or evicts k from a full window. */
  ghost predicate Touches(slots: seq<Slot>, gen: nat, entries: seq<Entry>, j: nat, k: Print)
    requires |slots| == SLOTS && j < |entries|
  {
    entries[j].key == k || Evicts(FlushInto(slots, gen, entries[..j]), gen, entries[j].key, k)
  }

  ghost predicate Untouched(slots: seq<Slot>, gen: nat, entries: seq<Entry>, from: nat, k: Print)
    requires |slots| == SLOTS
  {
    forall j :: from <= j < |entries| ==> !Touches(slots, gen, entries, j, k)
  }

  lemma TouchesRest(slots: seq<Slot>, gen: nat, entries: seq<Entry>, j: nat, k: Print)
    requires |slots| == SLOTS && 0 < j < |entries|
    ensures Touches(slots, gen, entries, j, k)
      == Touches(InsertInto(slots, gen, entries[0].key, entries[0].id), gen, entries[1..], j - 1, k)
  {
    hide InsertInto, Evicts;
    assert entries[..j][1..] == entries[1..][..j - 1];
  }

  lemma UntouchedRest(slots: seq<Slot>, gen: nat, entries: seq<Entry>, from: nat, k: Print)
    requires |slots| == SLOTS && entries != [] && from > 0
    ensures Untouched(slots, gen, entries, from, k)
      <==> Untouched(InsertInto(slots, gen, entries[0].key, entries[0].id), gen, entries[1..], from - 1, k)
  {
    hide InsertInto, Touches;
    var next := InsertInto(slots, gen, entries[0].key, entries[0].id);
    forall j | 0 < j < |entries| ensures Touches(slots, gen, entries, j, k) == Touches(next, gen, entries[1..], j - 1, k) {
      TouchesRest(slots, gen, entries, j, k);
    }
    if Untouched(slots, gen, entries, from, k) {
      forall j | from - 1 <= j < |entries[1..]| ensures !Touches(next, gen, entries[1..], j, k) {
        assert !Touches(slots, gen, entries, j + 1, k);
      }
    }
  }

  /** What the cache says of a key after a flush is decided by the last entry that touches it: the id that
      entry set, nothing if it evicted the key, and what the cache said before if there is none. */
  lemma {:induction false} FlushGets(slots: seq<Slot>, gen: nat, entries: seq<Entry>, k: Print)
    requires |slots| == SLOTS && WellPlaced(slots, gen)
    ensures WellPlaced(FlushInto(slots, gen, entries), gen)
    ensures Untouched(slots, gen, entries, 0, k) ==> Get(FlushInto(slots, gen, entries), gen, k) == Get(slots, gen, k)
    ensures forall i :: 0 <= i < |entries| && Touches(slots, gen, entries, i, k) && Untouched(slots, gen, entries, i + 1, k) ==>
      Get(FlushInto(slots, gen, entries), gen, k) == if entries[i].key == k then Some(entries[i].id) else None
    decreases |entries|
  {
    if entries != [] {
      var e := entries[0];
      var next := InsertInto(slots, gen, e.key, e.id);
      InsertIntoPuts(slots, gen, e.key, e.id);
      hide WellPlaced, InsertInto, Get, Evicts, Untouched;
      FlushGets(next, gen, entries[1..], k);
      assert entries[..0] == [];
      assert Touches(slots, gen, entries, 0, k) <==> e.key == k || Evicts(slots, gen, e.key, k);
      UntouchedRest(slots, gen, entries, 1, k);
      UntouchedAll(slots, gen, entries, k);
      forall i | 0 <= i < |entries| && Touches(slots, gen, entries, i, k) && Untouched(slots, gen, entries, i + 1, k)
        ensures Get(FlushInto(slots, gen, entries), gen, k) == if entries[i].key == k then Some(entries[i].id) else None
      {
        if i > 0 {
          TouchesRest(slots, gen, entries, i, k);
          UntouchedRest(slots, gen, entries, i + 1, k);
        }
      }
    }
  }

  lemma UntouchedAll(slots: seq<Slot>, gen: nat, entries: seq<Entry>, k: Print)
    requires |slots| == SLOTS && entries != []
    ensures Untouched(slots, gen, entries, 0, k) <==> !Touches(slots, gen, entries, 0, k) && Untouched(slots, gen, entries, 1, k)
  {
    hide Touches;
  }

  /** The backend's list of staged pairs. */
  class PendingList {
    var entries: seq<Entry>

    constructor ()
      ensures entries == []
    {
      entries := [];
    }

    method Stage(key: Print, id: int, sub: nat)
      modifies this
      ensures entries == old(entries) + [Entry(key, id, sub)]
    {
      entries := entries + [Entry(key, id, sub)];
    }

    /** On abort of a subtransaction: keep what carries a smaller id. */
    method AbortSub(sub: nat)
      modifies this
      ensures entries == Filter(Below(sub), old(entries))
    {
      var kept: seq<Entry> := [];
      for i := 0 to |entries|
        invariant entries == old(entries) && kept == Filter(Below(sub), entries[..i])
      {
        assert entries[..i + 1] == entries[..i] + [entries[i]];
        FilterAppend(Below(sub), entries[..i], [entries[i]]);
        FilterOne(Below(sub), entries[i]);
        if entries[i].tag < sub {
          kept := kept + [entries[i]];
        }
      }
      assert entries[..|entries|] == entries;
      entries := kept;
    }

    /** On abort of the transaction: nothing staged remains. */
    method Clear()
      modifies this
      ensures entries == []
    {
      entries := [];
    }

    /** `flush_pending`: every entry into the cache, in order, under the generation current now. */
    method Flush(cache: Cache)
      requires cache.Valid()
      modifies this, cache`inserts, cache`evictions, cache.table
      ensures cache.Valid() && entries == [] && cache.table.Length == SLOTS
      ensures cache.table[..] == FlushInto(old(cache.table[..]), cache.generation, old(entries))
    {
      hide InsertInto, Puts, Cache.Valid;
      cache.TableLength();
      var drained := entries;
      entries := [];
      ghost var result := FlushInto(cache.table[..], cache.generation, drained);
      for i := 0 to |drained|
        invariant cache.Valid() && cache.generation == old(cache.generation) && entries == []
        invariant FlushInto(cache.table[..], cache.generation, drained[i..]) == result
      {
        assert drained[i..][0] == drained[i] && drained[i..][1..] == drained[i + 1..];
        cache.InsertSlot(drained[i].key, drained[i].id);
      }
    }
  }

  lemma FilterOne(p: Entry -> bool, e: Entry)
    ensures Filter(p, [e]) == if p(e) then [e] else []
  {
    assert [e][1..] == [];
  }

  // ----- transactions -----

  /** A dictionary row, by the fingerprint of its key. */
  datatype Row = Row(key: Print, id: int)

  /** A row in flight, or a staging of a row, and the subtransaction it belongs to: the one it happened
      in, or the nearest open ancestor since that one was released. */
  datatype InFlight = InFlight(row: Row, owner: nat)

  /** One backend: its open subtransactions, outermost first, the next id to give out, its in-flight rows,
      the stagings no abort has undone, its pending list, and what it still has to publish of its last
      commit. The stagings are history; the program keeps only the list. */
  datatype Backend = Backend(
    stack: seq<nat>, nextSub: nat, own: set<InFlight>, stagings: set<InFlight>, pending: seq<Entry>, draining: seq<Entry>)

  /** The dictionary, the shared cache and the backends. */
  datatype World = World(committed: set<Row>, slots: seq<Slot>, gen: nat, backends: seq<Backend>)

  const IDLE := Backend([], 0, {}, {}, [], [])
  const STARTED := Backend([1], 2, {}, {}, [], [])

  function Top(b: Backend): nat {
    if b.stack == [] then 0 else b.stack[|b.stack| - 1]
  }

  /** The innermost open subtransaction that an id belongs to now. */
  function Enclosing(stack: seq<nat>, tag: nat): nat {
    if stack == [] then 0
    else if stack[|stack| - 1] <= tag then stack[|stack| - 1]
    else Enclosing(stack[..|stack| - 1], tag)
  }

  function Visible(w: World, b: Backend): set<Row> {
    w.committed + set f | f in b.own :: f.row
  }

  /** Intern is the per-term route; InsertRow one row of a batch, which does not stage; StageRow a staging
      of a row that is visible, whatever the cache says by then. Publish is one insertion after a commit. */
  datatype Action =
    | Begin
    | BeginSub
    | ReleaseSub
    | AbortSub
    | Intern(key: Print, id: int)
    | InsertRow(key: Print, id: int)
    | StageRow(key: Print, id: int)
    | Commit
    | Publish
    | Abort
    | Reset

  predicate Unknown(w: World, b: Backend, key: Print) {
    forall r :: r in Visible(w, b) ==> r.key != key
  }

  function Inserted(b: Backend, r: Row): Backend {
    b.(own := b.own + {InFlight(r, Top(b))})
  }

  function Listed(b: Backend, r: Row): Backend {
    b.(stagings := b.stagings + {InFlight(r, Top(b))}, pending := b.pending + [Entry(r.key, r.id, Top(b))])
  }

  /** Interning a key: a cache hit does nothing; a row that is visible is staged; otherwise a row is
      inserted and staged. */
  ghost predicate Interns(w: World, b: Backend, b': Backend, key: Print, id: int) {
    if Get(w.slots, w.gen, key).Some? then id == Get(w.slots, w.gen, key).value && b' == b
    else if Row(key, id) in Visible(w, b) then b' == Listed(b, Row(key, id))
    else Unknown(w, b, key) && b' == Listed(Inserted(b, Row(key, id)), Row(key, id))
  }

  function Handed(own: set<InFlight>, from: nat, to: nat): set<InFlight> {
    set f | f in own :: if f.owner == from then InFlight(f.row, to) else f
  }

  function Surviving(own: set<InFlight>, aborted: nat): set<InFlight> {
    set f | f in own && f.owner != aborted
  }

  function Popped(b: Backend): seq<nat>
    requires b.stack != []
  {
    b.stack[..|b.stack| - 1]
  }

  /** What an action of one backend does to that backend. */
  ghost predicate Acts(w: World, b: Backend, a: Action, b': Backend) {
    match a
    case Begin => b.stack == [] && b.draining == [] && b' == STARTED
    case BeginSub => b.stack != [] && b' == b.(stack := b.stack + [b.nextSub], nextSub := b.nextSub + 1)
    case ReleaseSub =>
      |b.stack| > 1
      && b' == b.(stack := Popped(b),
                  own := Handed(b.own, Top(b), b.stack[|b.stack| - 2]),
                  stagings := Handed(b.stagings, Top(b), b.stack[|b.stack| - 2]))
    case AbortSub =>
      |b.stack| > 1
      && b' == b.(stack := Popped(b),
                  own := Surviving(b.own, Top(b)),
                  stagings := Surviving(b.stagings, Top(b)),
                  pending := Filter(Below(Top(b)), b.pending))
    case Intern(key, id) => b.stack != [] && Interns(w, b, b', key, id)
    case InsertRow(key, id) => b.stack != [] && Unknown(w, b, key) && b' == Inserted(b, Row(key, id))
    case StageRow(key, id) => b.stack != [] && Row(key, id) in Visible(w, b) && b' == Listed(b, Row(key, id))
    case Commit => |b.stack| == 1 && b' == IDLE.(draining := b.pending)
    case Publish => b.draining != [] && b' == b.(draining := b.draining[1..])
    case Abort => b.stack != [] && b' == IDLE
    case Reset => b' == b
  }

  /** What it does to the shared world: a commit adds rows, a publication inserts into the cache, a reset
      starts a new generation. */
  ghost predicate Shares(w: World, b: Backend, a: Action, w': World)
    requires |w.slots| == SLOTS
  {
    && w'.committed == (if a.Commit? then Visible(w, b) else w.committed)
    && w'.gen == (if a.Reset? then w.gen + 1 else w.gen)
    && w'.slots == (if a.Publish? && b.draining != []
                    then InsertInto(w.slots, w.gen, b.draining[0].key, b.draining[0].id) else w.slots)
  }

  ghost predicate Step(w: World, i: nat, a: Action, w': World) {
    && |w.slots| == SLOTS && i < |w.backends| == |w'.backends|
    && Acts(w, w.backends[i], a, w'.backends[i])
    && Shares(w, w.backends[i], a, w')
    && forall j :: 0 <= j < |w.backends| && j != i ==> w'.backends[j] == w.backends[j]
  }

  /** Any dictionary, a cold cache, and backends between transactions. */
  ghost predicate Initial(w: World) {
    && WellPlaced(w.slots, w.gen) && (forall k :: Get(w.slots, w.gen, k) == None)
    && forall j :: 0 <= j < |w.backends| ==> w.backends[j] == IDLE
  }

  ghost predicate Run(ws: seq<World>) {
    && ws != [] && Initial(ws[0])
    && forall n :: 0 < n < |ws| ==> Advances(ws[n - 1], ws[n])
  }

  ghost predicate Advances(w: World, w': World) {
    exists i, a :: Step(w, i, a, w')
  }

  lemma RunPrefix(ws: seq<World>)
    requires Run(ws) && |ws| > 1
    ensures Run(ws[..|ws| - 1]) && Advances(ws[|ws| - 2], ws[|ws| - 1])
  {
    hide Advances, Initial;
    var before := ws[..|ws| - 1];
    forall n | 0 < n < |before| ensures Advances(before[n - 1], before[n]) { assert Advances(ws[n - 1], ws[n]); }
  }

  // ----- the invariant -----

  /** Subtransaction ids grow down the stack and below the next one; everything belongs to an open one. */
  predicate Nested(b: Backend) {
    && (forall i, j :: 0 <= i < j < |b.stack| ==> b.stack[i] < b.stack[j])
    && (forall i :: 0 <= i < |b.stack| ==> 0 < b.stack[i] < b.nextSub)
    && (forall e :: e in b.pending ==> 0 < e.tag < b.nextSub)
    && (forall f :: f in b.own ==> f.owner in b.stack)
    && (b.stack != [] ==> b.stack[0] == 1)
  }

  function Mark(stack: seq<nat>, e: Entry): InFlight {
    InFlight(Row(e.key, e.id), Enclosing(stack, e.tag))
  }

  function Marks(stack: seq<nat>, pending: seq<Entry>): set<InFlight> {
    set e | e in pending :: Mark(stack, e)
  }

  ghost predicate OwnedWithin(b: Backend, r: Row, limit: nat) {
    exists o: nat :: o <= limit && InFlight(r, o) in b.own
  }

  /** A staged row is committed, or in flight and belonging where the staging belongs or further out. */
  ghost predicate Backed(w: World, b: Backend, g: InFlight) {
    g.row in w.committed || OwnedWithin(b, g.row, g.owner)
  }

  predicate OnePerKey(b: Backend) {
    forall f, g :: f in b.own && g in b.own && f.row.key == g.row.key ==> f == g
  }

  ghost predicate Good(w: World, b: Backend) {
    && Nested(b) && OnePerKey(b)
    && b.stagings == Marks(b.stack, b.pending)
    && (forall g :: g in b.stagings ==> Backed(w, b, g))
    && (forall e :: e in b.draining ==> Row(e.key, e.id) in w.committed)
    && (b.stack == [] ==> b.own == {} && b.pending == [])
    && (b.stack != [] ==> b.draining == [])
  }

  /** Every cached id is the id of a committed row. */
  ghost predicate CacheSound(w: World) {
    && WellPlaced(w.slots, w.gen)
    && forall k :: Get(w.slots, w.gen, k).Some? ==> Row(k, Get(w.slots, w.gen, k).value) in w.committed
  }

  ghost predicate Safe(w: World) {
    CacheSound(w) && forall j :: 0 <= j < |w.backends| ==> Good(w, w.backends[j])
  }

  // ----- subtransactions -----

  /** Popping the innermost subtransaction: ids below it are unaffected, the others now belong to the next
      one out. */
  lemma EnclosingPopped(b: Backend, tag: nat)
    requires Nested(b) && |b.stack| > 1
    ensures var n := |b.stack| - 1;
      && (tag < Top(b) ==> Enclosing(b.stack, tag) == Enclosing(Popped(b), tag) != Top(b))
      && (tag >= Top(b) ==> Enclosing(b.stack, tag) == Top(b) && Enclosing(Popped(b), tag) == b.stack[n - 1])
  {
    var n := |b.stack| - 1;
    assert Popped(b)[n - 1] == b.stack[n - 1];
    EnclosingBelow(Popped(b), tag, Top(b));
  }

  lemma {:induction false} EnclosingBelow(stack: seq<nat>, tag: nat, m: nat)
    requires m > 0 && forall i :: 0 <= i < |stack| ==> stack[i] < m
    ensures Enclosing(stack, tag) < m
  {
    if stack != [] && stack[|stack| - 1] > tag { EnclosingBelow(stack[..|stack| - 1], tag, m); }
  }

  /** Pushing a new one concerns no id given out before. */
  lemma EnclosingPushed(stack: seq<nat>, sub: nat, tag: nat)
    requires tag < sub
    ensures Enclosing(stack + [sub], tag) == Enclosing(stack, tag)
  {
    assert (stack + [sub])[..|stack|] == stack;
  }

  lemma MarksPushed(b: Backend)
    requires Nested(b)
    ensures Marks(b.stack + [b.nextSub], b.pending) == Marks(b.stack, b.pending)
  {
    hide Enclosing;
    forall e | e in b.pending ensures Mark(b.stack + [b.nextSub], e) == Mark(b.stack, e) {
      EnclosingPushed(b.stack, b.nextSub, e.tag);
    }
  }

  /** Releasing hands the stagings over as the tags say. */
  lemma MarksReleased(b: Backend)
    requires Nested(b) && |b.stack| > 1
    ensures Marks(Popped(b), b.pending) == Handed(Marks(b.stack, b.pending), Top(b), b.stack[|b.stack| - 2])
  {
    hide Enclosing, Nested, Popped;
    var parent := b.stack[|b.stack| - 2];
    forall e | e in b.pending
      ensures Mark(Popped(b), e) == if Mark(b.stack, e).owner == Top(b) then InFlight(Row(e.key, e.id), parent) else Mark(b.stack, e)
    {
      EnclosingPopped(b, e.tag);
    }
  }

  /** The abort filter drops exactly the stagings of the aborted subtransaction. */
  lemma MarksAborted(b: Backend)
    requires Nested(b) && |b.stack| > 1
    ensures Marks(Popped(b), Filter(Below(Top(b)), b.pending)) == Surviving(Marks(b.stack, b.pending), Top(b))
  {
    hide Enclosing, Nested, Popped, Top;
    var kept := Filter(Below(Top(b)), b.pending);
    forall e | e in b.pending
      ensures e.tag < Top(b) ==> Mark(Popped(b), e) == Mark(b.stack, e)
      ensures e.tag < Top(b) <==> Mark(b.stack, e).owner != Top(b)
    {
      EnclosingPopped(b, e.tag);
    }
    assert forall e :: e in kept <==> e in b.pending && e.tag < Top(b);
  }

  lemma {:induction false} EnclosingOnStack(stack: seq<nat>, tag: nat)
    requires stack != [] && stack[0] <= tag
    ensures Enclosing(stack, tag) in stack
  {
    if stack[|stack| - 1] > tag { EnclosingOnStack(stack[..|stack| - 1], tag); }
  }

  lemma StagingOnStack(w: World, b: Backend, g: InFlight)
    requires Good(w, b) && g in b.stagings
    ensures g.owner in b.stack && g.owner <= Top(b)
  {
    hide Enclosing, Backed;
    var e :| e in b.pending && g == Mark(b.stack, e);
    assert b.stack != [];
    EnclosingOnStack(b.stack, e.tag);
  }

  lemma BackedIsVisible(w: World, b: Backend, g: InFlight)
    requires Backed(w, b, g)
    ensures g.row in Visible(w, b)
  {
    if g.row !in w.committed {
      var o: nat :| o <= g.owner && InFlight(g.row, o) in b.own;
      assert InFlight(g.row, o).row in Visible(w, b);
    }
  }

  /** Everything on the list is a row the transaction sees. */
  lemma ListedIsVisible(w: World, b: Backend, e: Entry)
    requires Good(w, b) && e in b.pending
    ensures Row(e.key, e.id) in Visible(w, b)
  {
    hide Nested, OnePerKey, Visible, Backed, Enclosing;
    assert Mark(b.stack, e) in b.stagings;
    BackedIsVisible(w, b, Mark(b.stack, e));
  }

  // ----- every action keeps the invariant -----

  lemma BeginSubGood(w: World, b: Backend, b': Backend)
    requires Good(w, b) && Acts(w, b, BeginSub, b')
    ensures Good(w, b')
  {
    MarksPushed(b);
    hide Marks, Backed, OnePerKey;
    assert b.stack[|b.stack| - 1] < b.nextSub;
    forall g | g in b'.stagings ensures Backed(w, b', g) { assert Backed(w, b, g); BackedAlike(w, b, b', g); }
    OnePerKeyAlike(b, b');
  }

  lemma BackedAlike(w: World, b: Backend, b': Backend, g: InFlight)
    requires Backed(w, b, g) && b.own <= b'.own
    ensures Backed(w, b', g)
  {
    if g.row !in w.committed {
      var o: nat :| o <= g.owner && InFlight(g.row, o) in b.own;
      assert InFlight(g.row, o) in b'.own;
    }
  }

  lemma OnePerKeyAlike(b: Backend, b': Backend)
    requires OnePerKey(b) && b'.own <= b.own
    ensures OnePerKey(b')
  {
  }

  function HandedOne(f: InFlight, from: nat, to: nat): InFlight {
    if f.owner == from then InFlight(f.row, to) else f
  }

  lemma ReleasedIsBacked(w: World, b: Backend, b': Backend, g: InFlight)
    requires Good(w, b) && Acts(w, b, ReleaseSub, b') && g in b.stagings
    ensures Backed(w, b', HandedOne(g, Top(b), b.stack[|b.stack| - 2]))
  {
    hide Enclosing, Marks, OnePerKey;
    var n := |b.stack| - 1;
    StagingOnStack(w, b, g);
    assert Backed(w, b, g);
    if g.row !in w.committed {
      var o: nat :| o <= g.owner && InFlight(g.row, o) in b.own;
      var f := InFlight(g.row, o);
      assert o in b.stack;
      assert HandedOne(f, Top(b), b.stack[n - 1]) in b'.own;
      BelowTop(b, o);
    }
  }

  lemma BelowTop(b: Backend, o: nat)
    requires Nested(b) && o in b.stack && |b.stack| > 1
    ensures o == Top(b) || o <= b.stack[|b.stack| - 2] < Top(b)
  {
    var i :| 0 <= i < |b.stack| && b.stack[i] == o;
  }

  lemma ReleaseSubGood(w: World, b: Backend, b': Backend)
    requires Good(w, b) && Acts(w, b, ReleaseSub, b')
    ensures Good(w, b')
  {
    hide Backed, Enclosing, Marks;
    var parent := b.stack[|b.stack| - 2];
    MarksReleased(b);
    forall g' | g' in b'.stagings ensures Backed(w, b', g') {
      var g :| g in b.stagings && g' == HandedOne(g, Top(b), parent);
      ReleasedIsBacked(w, b, b', g);
    }
    forall f' | f' in b'.own ensures f'.owner in b'.stack {
      var f :| f in b.own && f' == HandedOne(f, Top(b), parent);
      OwnerPopped(b, f.owner);
    }
  }

  lemma OwnerPopped(b: Backend, o: nat)
    requires Nested(b) && o in b.stack && |b.stack| > 1
    ensures o == Top(b) || o in Popped(b)
    ensures b.stack[|b.stack| - 2] in Popped(b) && Top(b) !in Popped(b)
  {
    var i :| 0 <= i < |b.stack| && b.stack[i] == o;
    assert Popped(b)[|b.stack| - 2] == b.stack[|b.stack| - 2];
    assert i < |b.stack| - 1 ==> Popped(b)[i] == o;
  }

  /** The filter undoes exactly the stagings whose subtransaction aborts: nothing dangles and nothing is
      lost. */
  lemma AbortSubGood(w: World, b: Backend, b': Backend)
    requires Good(w, b) && Acts(w, b, AbortSub, b')
    ensures Good(w, b')
  {
    hide Enclosing, Marks;
    MarksAborted(b);
    forall g | g in b'.stagings ensures Backed(w, b', g) {
      StagingOnStack(w, b, g);
      assert Backed(w, b, g);
      if g.row !in w.committed {
        var o: nat :| o <= g.owner && InFlight(g.row, o) in b.own;
        assert InFlight(g.row, o) in b'.own;
      }
    }
    forall f | f in b'.own ensures f.owner in b'.stack { OwnerPopped(b, f.owner); }
    assert forall e :: e in b'.pending ==> e in b.pending;
  }

  lemma InsertedGood(w: World, b: Backend, r: Row)
    requires Good(w, b) && b.stack != [] && Unknown(w, b, r.key)
    ensures Good(w, Inserted(b, r))
  {
    hide Backed, Marks;
    var b' := Inserted(b, r);
    forall g | g in b'.stagings ensures Backed(w, b', g) { assert Backed(w, b, g); BackedAlike(w, b, b', g); }
    forall f | f in b.own ensures f.row.key != r.key { assert f.row in Visible(w, b); }
  }

  lemma MarksAppended(stack: seq<nat>, pending: seq<Entry>, e: Entry)
    ensures Marks(stack, pending + [e]) == Marks(stack, pending) + {Mark(stack, e)}
  {
    hide Enclosing;
    assert forall x :: x in pending + [e] <==> x in pending || x == e;
  }

  lemma ListedGood(w: World, b: Backend, r: Row)
    requires Good(w, b) && b.stack != [] && r in Visible(w, b)
    ensures Good(w, Listed(b, r))
  {
    var b', g := Listed(b, r), InFlight(r, Top(b));
    hide OnePerKey;
    assert Enclosing(b.stack, Top(b)) == Top(b);
    hide Enclosing;
    assert Backed(w, b, g) by {
      if r !in w.committed {
        var f :| f in b.own && f.row == r;
        OwnerAtMostTop(b, f.owner);
        assert f == InFlight(r, f.owner);
      }
    }
    MarksAppended(b.stack, b.pending, Entry(r.key, r.id, Top(b)));
    hide Backed, Marks;
    forall x | x in b'.stagings ensures Backed(w, b', x) { assert Backed(w, b, x); BackedAlike(w, b, b', x); }
    OnePerKeyAlike(b, b');
    assert b.stack[|b.stack| - 1] < b.nextSub;
  }

  lemma OwnerAtMostTop(b: Backend, o: nat)
    requires Nested(b) && o in b.stack
    ensures o <= Top(b)
  {
    var i :| 0 <= i < |b.stack| && b.stack[i] == o;
  }

  lemma InternGood(w: World, b: Backend, b': Backend, key: Print, id: int)
    requires Good(w, b) && Acts(w, b, Intern(key, id), b')
    ensures Good(w, b')
  {
    hide Good, Get;
    var r := Row(key, id);
    if Get(w.slots, w.gen, key).None? {
      if r in Visible(w, b) {
        ListedGood(w, b, r);
      } else {
        InsertedGood(w, b, r);
        assert InFlight(r, Top(b)) in Inserted(b, r).own;
        ListedGood(w, Inserted(b, r), r);
      }
    }
  }

  lemma FreshGood(w: World, b: Backend)
    requires b == IDLE || b == STARTED
    ensures Good(w, b)
  {
  }

  lemma CommitGood(w: World, b: Backend, b': Backend, w': World)
    requires Good(w, b) && Acts(w, b, Commit, b') && w'.committed == Visible(w, b)
    ensures Good(w', b')
  {
    hide Nested, Visible;
    forall e | e in b'.draining ensures Row(e.key, e.id) in w'.committed { ListedIsVisible(w, b, e); }
    IdleNested(b');
    hide Backed;
  }

  lemma IdleNested(b: Backend)
    requires b.stack == [] && b.own == {} && b.pending == []
    ensures Nested(b)
  {
  }

  lemma {:induction false} ActsGood(w: World, b: Backend, a: Action, b': Backend)
    requires Good(w, b) && Acts(w, b, a, b') && !a.Commit?
    ensures Good(w, b')
  {
    hide Good, Interns;
    match a
    case BeginSub => BeginSubGood(w, b, b');
    case ReleaseSub => ReleaseSubGood(w, b, b');
    case AbortSub => AbortSubGood(w, b, b');
    case Intern(key, id) => InternGood(w, b, b', key, id);
    case InsertRow(key, id) => InsertedGood(w, b, Row(key, id));
    case StageRow(key, id) => ListedGood(w, b, Row(key, id));
    case Begin => FreshGood(w, b');
    case Abort => FreshGood(w, b');
    case Publish => PublishGood(w, b, b');
    case Reset =>
  }

  lemma PublishGood(w: World, b: Backend, b': Backend)
    requires Good(w, b) && Acts(w, b, Publish, b')
    ensures Good(w, b')
  {
    hide Backed, Marks;
    forall g | g in b'.stagings ensures Backed(w, b', g) { assert Backed(w, b, g); BackedAlike(w, b, b', g); }
  }

  /** More committed rows leave every backend good. */
  lemma GoodStays(w: World, w': World, b: Backend)
    requires Good(w, b) && w.committed <= w'.committed
    ensures Good(w', b)
  {
    hide Nested, OnePerKey, Marks;
    forall g | g in b.stagings ensures Backed(w', b, g) { assert Backed(w, b, g); }
  }

  lemma PublishSound(w: World, b: Backend, w': World)
    requires CacheSound(w) && Good(w, b) && b.draining != [] && Shares(w, b, Publish, w')
    ensures CacheSound(w')
  {
    var e := b.draining[0];
    InsertIntoPuts(w.slots, w.gen, e.key, e.id);
    hide WellPlaced, InsertInto, Get, Evicts, Good;
    assert Row(e.key, e.id) in w.committed by { DrainingCommitted(w, b, e); }
  }

  lemma DrainingCommitted(w: World, b: Backend, e: Entry)
    requires Good(w, b) && e in b.draining
    ensures Row(e.key, e.id) in w.committed
  {
  }

  lemma SharesSound(w: World, b: Backend, a: Action, b': Backend, w': World)
    requires CacheSound(w) && Good(w, b) && Acts(w, b, a, b') && Shares(w, b, a, w')
    ensures CacheSound(w') && w.committed <= w'.committed
  {
    hide Good, Interns, InsertInto, WellPlaced, Get;
    if a.Publish? { PublishSound(w, b, w'); }
    if a.Reset? { NewGenerationEmpty(w.slots, w.gen, w'.gen); }
  }

  lemma StepSafe(w: World, i: nat, a: Action, w': World)
    requires Safe(w) && Step(w, i, a, w')
    ensures Safe(w')
  {
    var b, b' := w.backends[i], w'.backends[i];
    hide Good, Acts, CacheSound;
    assert CacheSound(w);
    SharesSound(w, b, a, b', w');
    if a.Commit? { CommitGood(w, b, b', w'); } else { ActsGood(w, b, a, b'); GoodStays(w, w', b'); }
    forall j | 0 <= j < |w'.backends| ensures Good(w', w'.backends[j]) {
      if j != i { GoodStays(w, w', w.backends[j]); }
    }
  }

  /** Over every run of every interleaving, the cache holds only ids of committed rows. */
  lemma {:induction false} RunSafe(ws: seq<World>)
    requires Run(ws)
    ensures Safe(ws[|ws| - 1])
    decreases |ws|
  {
    var n := |ws| - 1;
    if n == 0 {
      hide Good;
      forall j | 0 <= j < |ws[0].backends| ensures Good(ws[0], ws[0].backends[j]) { FreshGood(ws[0], ws[0].backends[j]); }
    } else {
      RunPrefix(ws);
      hide Run, Safe;
      RunSafe(ws[..n]);
      var i, a :| Step(ws[n - 1], i, a, ws[n]);
      StepSafe(ws[n - 1], i, a, ws[n]);
    }
  }

  // ----- what a commit publishes -----

  predicate OnList(b: Backend, r: Row) {
    exists e :: e in b.pending && Row(e.key, e.id) == r
  }

  predicate InOwn(b: Backend, r: Row) {
    exists f :: f in b.own && f.row == r
  }

  /** Some staging of the row has not been undone. */
  predicate StagingSurvives(b: Backend, r: Row) {
    exists g :: g in b.stagings && g.row == r
  }

  /** The row was staged in the subtransaction that owns it, or in one since released into that one. */
  predicate Announced(b: Backend, r: Row) {
    exists f :: f in b.own && f in b.stagings && f.row == r
  }

  lemma ListIsStagings(w: World, b: Backend, r: Row)
    requires Good(w, b)
    ensures OnList(b, r) <==> StagingSurvives(b, r)
  {
    hide Enclosing, Backed, Nested, OnePerKey;
    if e :| e in b.pending && Row(e.key, e.id) == r { assert Mark(b.stack, e) in b.stagings; }
    if g :| g in b.stagings && g.row == r {
      var e :| e in b.pending && g == Mark(b.stack, e);
    }
  }

  /** At any moment the list holds exactly the rows with a staging that no abort has undone. At a commit
      everything on it is a row that survives, and a row of the transaction is on it exactly when it was
      announced. Rows a batch inserted and nobody staged are not. */
  lemma CommitPublishesExactly(ws: seq<World>, i: nat, r: Row)
    requires Run(ws) && i < |ws[|ws| - 1].backends|
    ensures var w := ws[|ws| - 1]; var b := w.backends[i];
      && (OnList(b, r) <==> StagingSurvives(b, r))
      && (OnList(b, r) ==> r in Visible(w, b))
      && (|b.stack| == 1 && InOwn(b, r) ==> (OnList(b, r) <==> Announced(b, r)))
  {
    RunSafe(ws);
    var w := ws[|ws| - 1];
    var b := w.backends[i];
    assert Good(w, b);
    ListIsStagings(w, b, r);
    if OnList(b, r) {
      var e :| e in b.pending && Row(e.key, e.id) == r;
      ListedIsVisible(w, b, e);
      if |b.stack| == 1 && InOwn(b, r) {
        var f :| f in b.own && f.row == r;
        var g :| g in b.stagings && g.row == r;
        StagingOnStack(w, b, g);
        assert f.owner in b.stack && f.owner == g.owner;
        assert f == g;
      }
    }
  }

  /** An announced row stays announced until it dies. */
  lemma AnnouncedStep(w: World, b: Backend, a: Action, b': Backend, r: Row)
    requires Good(w, b) && Acts(w, b, a, b') && Announced(b, r) && InOwn(b', r)
    ensures Announced(b', r)
  {
    hide Backed, Enclosing, Nested, Marks, Interns;
    var f :| f in b.own && f in b.stagings && f.row == r;
    match a
    case ReleaseSub =>
      var f' := HandedOne(f, Top(b), b.stack[|b.stack| - 2]);
      assert f' in b'.own && f' in b'.stagings;
    case AbortSub =>
      var f' :| f' in b'.own && f'.row == r;
      assert f' == f;
    case Intern(key, id) => InternKeeps(w, b, b', key, id);
    case _ =>
  }

  lemma InternKeeps(w: World, b: Backend, b': Backend, key: Print, id: int)
    requires Interns(w, b, b', key, id)
    ensures b.own <= b'.own && b.stagings <= b'.stagings
  {
  }

  /** What the per-term route inserts is announced, and so is what a flush inserts and then stages. */
  lemma InsertionsAnnounce(w: World, b: Backend, b': Backend, key: Print, id: int)
    requires b.stack != []
    ensures Acts(w, b, Intern(key, id), b') && b'.own != b.own ==> Announced(b', Row(key, id))
    ensures Announced(Listed(Inserted(b, Row(key, id)), Row(key, id)), Row(key, id))
  {
    hide Get;
    var r := Row(key, id);
    var both := Listed(Inserted(b, r), r);
    assert InFlight(r, Top(b)) in both.own && InFlight(r, Top(b)) in both.stagings;
  }

  ghost predicate SurvivesFrom(ws: seq<World>, n: nat, i: nat, r: Row) {
    forall m :: n <= m < |ws| ==> i < |ws[m].backends| && InOwn(ws[m].backends[i], r)
  }

  lemma {:induction false} AnnouncedStays(ws: seq<World>, n: nat, i: nat, r: Row)
    requires Run(ws) && n < |ws| && SurvivesFrom(ws, n, i, r) && Announced(ws[n].backends[i], r)
    ensures Announced(ws[|ws| - 1].backends[i], r)
    decreases |ws|
  {
    hide Announced, InOwn, Run, Advances, Safe;
    if n < |ws| - 1 {
      RunPrefix(ws);
      SurvivesPrefix(ws, n, i, r);
      hide SurvivesFrom;
      var before := ws[..|ws| - 1];
      assert before[|before| - 1] == ws[|ws| - 2];
      AnnouncedStays(before, n, i, r);
      RunSafe(before);
      AnnouncedAdvance(ws[|ws| - 2], ws[|ws| - 1], i, r);
    }
  }

  lemma SurvivesPrefix(ws: seq<World>, n: nat, i: nat, r: Row)
    requires n < |ws| - 1 && SurvivesFrom(ws, n, i, r)
    ensures SurvivesFrom(ws[..|ws| - 1], n, i, r)
    ensures forall m :: n <= m < |ws| ==> i < |ws[m].backends| && InOwn(ws[m].backends[i], r)
  {
    hide InOwn;
  }

  lemma AnnouncedAdvance(w: World, w': World, i: nat, r: Row)
    requires Safe(w) && Advances(w, w') && i < |w.backends| && i < |w'.backends|
    requires Announced(w.backends[i], r) && InOwn(w'.backends[i], r)
    ensures Announced(w'.backends[i], r)
  {
    hide Good, Acts, Shares, Announced, InOwn, CacheSound;
    var j, a :| Step(w, j, a, w');
    if j == i { AnnouncedStep(w, w.backends[i], a, w'.backends[i], r); }
  }

  /** A row announced at some point of a run, and alive ever since, is published by the commit. */
  lemma AnnouncedIsPublished(ws: seq<World>, n: nat, i: nat, r: Row)
    requires Run(ws) && n < |ws| && SurvivesFrom(ws, n, i, r) && Announced(ws[n].backends[i], r)
    ensures OnList(ws[|ws| - 1].backends[i], r)
  {
    AnnouncedStays(ws, n, i, r);
    RunSafe(ws);
    assert Good(ws[|ws| - 1], ws[|ws| - 1].backends[i]);
    ListIsStagings(ws[|ws| - 1], ws[|ws| - 1].backends[i], r);
  }

  // ----- the published id in the cache -----

  /** The step changes what the cache says of a key: a reset, or a publication that sets or evicts it. */
  ghost predicate Displaces(w: World, i: nat, a: Action, k: Print)
    requires |w.slots| == SLOTS && i < |w.backends|
  {
    || a.Reset?
    || (a.Publish? && w.backends[i].draining != []
        && (w.backends[i].draining[0].key == k || Evicts(w.slots, w.gen, w.backends[i].draining[0].key, k)))
  }

  /** A publication caches its pair, and a step changes what the cache says of a key only so. */
  lemma StepGets(w: World, i: nat, a: Action, w': World, k: Print)
    requires Safe(w) && Step(w, i, a, w')
    ensures !Displaces(w, i, a, k) ==> Get(w'.slots, w'.gen, k) == Get(w.slots, w.gen, k)
    ensures a.Publish? ==>
      var e := w.backends[i].draining[0]; Get(w'.slots, w'.gen, e.key) == Some(e.id)
  {
    hide Good;
    assert CacheSound(w);
    if a.Publish? {
      var e := w.backends[i].draining[0];
      InsertIntoPuts(w.slots, w.gen, e.key, e.id);
    }
    hide InsertInto, Get, Evicts, WellPlaced, CacheSound;
  }

  ghost predicate DisplacedBetween(w: World, w': World, k: Print) {
    exists i, a :: Step(w, i, a, w') && Displaces(w, i, a, k)
  }

  /** Once cached, an id stays cached under its key until a step displaces it. */
  lemma {:induction false} CachedUntilDisplaced(ws: seq<World>, n: nat, k: Print)
    requires Run(ws) && n < |ws|
    ensures UndisplacedFrom(ws, n, k) ==>
      Get(ws[|ws| - 1].slots, ws[|ws| - 1].gen, k) == Get(ws[n].slots, ws[n].gen, k)
    decreases |ws|
  {
    hide Get, DisplacedBetween, Run, Advances, Safe;
    if n < |ws| - 1 {
      RunPrefix(ws);
      UndisplacedPrefix(ws, n, k);
      hide UndisplacedFrom;
      var before := ws[..|ws| - 1];
      assert before[|before| - 1] == ws[|ws| - 2];
      CachedUntilDisplaced(before, n, k);
      RunSafe(before);
      NotDisplacedGets(ws[|ws| - 2], ws[|ws| - 1], k);
    }
  }

  ghost predicate UndisplacedFrom(ws: seq<World>, n: nat, k: Print) {
    forall m :: n <= m < |ws| - 1 ==> !DisplacedBetween(ws[m], ws[m + 1], k)
  }

  lemma UndisplacedPrefix(ws: seq<World>, n: nat, k: Print)
    requires n < |ws| - 1
    ensures UndisplacedFrom(ws, n, k) ==> UndisplacedFrom(ws[..|ws| - 1], n, k) && !DisplacedBetween(ws[|ws| - 2], ws[|ws| - 1], k)
  {
    hide DisplacedBetween;
    var last := |ws| - 2;
    assert UndisplacedFrom(ws, n, k) ==> !DisplacedBetween(ws[last], ws[last + 1], k);
    var before := ws[..|ws| - 1];
    forall m | n <= m < |before| - 1 ensures UndisplacedFrom(ws, n, k) ==> !DisplacedBetween(before[m], before[m + 1], k) {
      assert UndisplacedFrom(ws, n, k) ==> !DisplacedBetween(ws[m], ws[m + 1], k);
    }
  }

  lemma NotDisplacedGets(w: World, w': World, k: Print)
    requires Safe(w) && Advances(w, w')
    ensures !DisplacedBetween(w, w', k) ==> Get(w'.slots, w'.gen, k) == Get(w.slots, w.gen, k)
  {
    hide Get, Safe, Acts, Shares;
    var i, a :| Step(w, i, a, w');
    StepGets(w, i, a, w', k);
    assert Displaces(w, i, a, k) ==> DisplacedBetween(w, w', k);
  }

  /** Interning with the cache answers like the dictionary alone: with the id of a row the transaction
      sees, and a row is added exactly when it sees none and the cache knows none. */
  lemma InternAgrees(ws: seq<World>, i: nat, key: Print, id: int, b': Backend)
    requires Run(ws) && i < |ws[|ws| - 1].backends|
    requires Acts(ws[|ws| - 1], ws[|ws| - 1].backends[i], Intern(key, id), b')
    ensures var w := ws[|ws| - 1]; var b := w.backends[i];
      && Row(key, id) in Visible(w, b')
      && (b'.own != b.own <==> Unknown(w, b, key))
      && (!Unknown(w, b, key) ==> Row(key, id) in Visible(w, b))
  {
    RunSafe(ws);
    var w := ws[|ws| - 1];
    var b := w.backends[i];
    hide Good, Get;
    if Get(w.slots, w.gen, key).Some? {
      assert Row(key, id) in w.committed;
    } else if Row(key, id) !in Visible(w, b) {
      var added := InFlight(Row(key, id), Top(b));
      assert added in b'.own;
      assert added in b.own ==> added.row in Visible(w, b);
    }
  }

  // ----- concrete runs -----

  function Cold(): World {
    World({}, seq(SLOTS, i => Slot(Print(0, 0), 0, 0, false)), 1, [IDLE])
  }

  lemma ColdIsInitial()
    ensures Initial(Cold())
  {
  }

  /** A row that a batch inserts and nobody stages is committed and never published. */
  lemma BatchRowUnpublished(key: Print, id: int) returns (ws: seq<World>)
    ensures Run(ws)
    ensures var w := ws[|ws| - 1]; Row(key, id) in w.committed && w.backends == [IDLE] && Get(w.slots, w.gen, key) == None
  {
    var w0 := Cold();
    var w1 := w0.(backends := [STARTED]);
    var w2 := w0.(backends := [Inserted(STARTED, Row(key, id))]);
    var w3 := w0.(committed := {Row(key, id)}, backends := [IDLE]);
    ws := [w0, w1, w2, w3];
    ColdIsInitial();
    hide Get, Initial, Cold;
    assert Visible(w2, w2.backends[0]) == {Row(key, id)} by {
      assert InFlight(Row(key, id), 1) in w2.backends[0].own;
    }
    assert Step(w0, 0, Begin, w1);
    assert Step(w1, 0, InsertRow(key, id), w2);
    assert Step(w2, 0, Commit, w3);
    assert Advances(w0, w1) && Advances(w1, w2) && Advances(w2, w3);
  }

  /** A backend with a staged pair is reachable. */
  lemma StagedRun(key: Print, id: int) returns (ws: seq<World>)
    ensures Run(ws)
    ensures var w := ws[|ws| - 1]; |w.backends| == 1 && |w.backends[0].stack| == 1 && w.backends[0].pending == [Entry(key, id, 1)]
  {
    var r := Row(key, id);
    var w0 := Cold();
    var w1 := w0.(backends := [STARTED]);
    var w2 := w0.(backends := [Listed(Inserted(STARTED, r), r)]);
    ws := [w0, w1, w2];
    ColdIsInitial();
    assert Get(w1.slots, w1.gen, key) == None;
    hide Get, Initial, Cold;
    assert Step(w0, 0, Begin, w1);
    assert Step(w1, 0, Intern(key, id), w2);
    assert Advances(w0, w1) && Advances(w1, w2);
  }

  // ----- recreating the extension -----

  /** DROP EXTENSION and CREATE EXTENSION empty the dictionary, and the documented reset empties the
      cache. The pending lists stay as they are. */
  function Recreated(w: World): World {
    World({}, w.slots, w.gen + 1,
          seq(|w.backends|, j requires 0 <= j < |w.backends| => w.backends[j].(own := {})))
  }

  ghost predicate NothingStaged(w: World) {
    forall j :: 0 <= j < |w.backends| ==> w.backends[j].pending == [] && w.backends[j].draining == []
  }

  lemma SomeEntry(entries: seq<Entry>)
    ensures entries != [] ==> exists e :: e in entries
  {
    if entries != [] { assert entries[0] in entries; }
  }

  lemma NothingBacked(w: World, b: Backend)
    requires w.committed == {} && b.own == {} && Good(w, b)
    ensures b.pending == [] && b.draining == []
  {
    hide Nested, OnePerKey, Enclosing;
    SomeEntry(b.draining);
    forall g ensures g !in b.stagings { assert g in b.stagings ==> Backed(w, b, g); }
    SomeEntry(b.pending);
    assert forall e :: e in b.pending ==> Mark(b.stack, e) in Marks(b.stack, b.pending);
  }

  lemma EmptiedGood(w: World, w': World, b: Backend)
    requires Good(w, b) && b.pending == [] && b.draining == []
    ensures Good(w', b.(own := {}))
  {
  }

  /** Harmless exactly when no backend has staged anything, or still has something to publish. */
  lemma RecreateSafeExactly(w: World)
    requires Safe(w)
    ensures Safe(Recreated(w)) <==> NothingStaged(w)
  {
    var w' := Recreated(w);
    hide Good;
    assert CacheSound(w);
    NewGenerationEmpty(w.slots, w.gen, w.gen + 1);
    if Safe(w') {
      forall j | 0 <= j < |w.backends| ensures w.backends[j].pending == [] && w.backends[j].draining == [] {
        assert Good(w', w'.backends[j]);
        NothingBacked(w', w'.backends[j]);
      }
    }
    if NothingStaged(w) {
      forall j | 0 <= j < |w'.backends| ensures Good(w', w'.backends[j]) {
        assert Good(w, w.backends[j]);
        EmptiedGood(w, w', w.backends[j]);
      }
    }
  }

  /** Otherwise the next commit of such a backend publishes an id that no row has. */
  lemma RecreateThenCommitDangles(w: World, i: nat, w1: World, w2: World)
    requires Safe(w) && i < |w.backends| && w.backends[i].pending != []
    requires Step(Recreated(w), i, Commit, w1) && Step(w1, i, Publish, w2)
    ensures !CacheSound(w2)
  {
    var e := w.backends[i].pending[0];
    NewGenerationEmpty(w.slots, w.gen, w.gen + 1);
    InsertIntoPuts(w1.slots, w1.gen, e.key, e.id);
    hide WellPlaced, InsertInto, Get, Evicts, Good;
    assert w2.committed == {};
  }

  /** And it happens: from a reachable world, recreating, committing and publishing once. */
  lemma DanglingIsReachable(key: Print, id: int) returns (ws: seq<World>, w1: World, w2: World)
    ensures Run(ws) && Step(Recreated(ws[|ws| - 1]), 0, Commit, w1) && Step(w1, 0, Publish, w2)
    ensures !CacheSound(w2)
  {
    ws := StagedRun(key, id);
    RunSafe(ws);
    var w := ws[|ws| - 1];
    var w0 := Recreated(w);
    assert |w.slots| == SLOTS;
    w1 := w0.(backends := [IDLE.(draining := [Entry(key, id, 1)])]);
    w2 := w1.(slots := InsertInto(w1.slots, w1.gen, key, id), backends := [IDLE]);
    hide InsertInto, WellPlaced, Run, Good, CacheSound;
    assert Visible(w0, w0.backends[0]) == {};
    assert Step(w0, 0, Commit, w1);
    assert Step(w1, 0, Publish, w2);
    RecreateThenCommitDangles(w, 0, w1, w2);
  }
}
