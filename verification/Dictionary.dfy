/**
 The term dictionary and the quad table, and what it means for a stored id to stand for a term.

 Nothing in the table forbids two rows with one key (NULL columns escape its unique constraint), so
 "one row per key" is an invariant the writers have to keep.
 */
module Dictionary {
  import opened Sequences
  import opened Terms

  const URI := 1
  const BLANK_NODE := 2
  const LITERAL := 3

  /** A dictionary key: kind, lexical value, datatype id, language tag. */
  datatype Key = Key(kind: int, lex: string, dt: Option<int>, lang: Option<string>)

  datatype DictRow = DictRow(key: Key, id: int)

  datatype QuadRow = QuadRow(s: int, p: int, o: int, g: int, inferred: bool)

  function IriKey(iri: string): Key {
    Key(URI, iri, None, None)
  }

  function BlankKey(name: string): Key {
    Key(BLANK_NODE, name, None, None)
  }

  predicate HasKey(rows: seq<DictRow>, key: Key) {
    exists r :: r in rows && r.key == key
  }

  predicate OneRowPerKey(rows: seq<DictRow>) {
    forall i, j :: 0 <= i < j < |rows| ==> rows[i].key != rows[j].key
  }

  predicate DistinctIds(rows: seq<DictRow>, next: int) {
    && (forall i, j :: 0 <= i < j < |rows| ==> rows[i].id != rows[j].id)
    && forall i :: 0 <= i < |rows| ==> rows[i].id < next
  }

  // ----- what ids stand for -----

  /** A literal from the parser has a datatype or a language tag, never both. */
  predicate Parsed(t: Term) {
    t.Lit? ==> (t.dt.Some? <==> t.lang.None?)
  }

  predicate ParsedTriple(t: Triple) {
    Parsed(t.s) && Parsed(t.o) && !t.s.Lit? && t.p.Iri?
  }

  /** The key under which a term is stored; a typed literal's refers to the row of its datatype. */
  predicate KeyStandsFor(rows: seq<DictRow>, key: Key, t: Term) {
    match t
    case Iri(i) => key == IriKey(i)
    case BNode(b) => key == BlankKey(b)
    case Lit(val, dt, lang) =>
      && key.kind == LITERAL && key.lex == val && key.lang == lang
      && (key.dt.Some? <==> dt.Some?)
      && (dt.Some? && key.dt.Some? ==> DictRow(IriKey(dt.value), key.dt.value) in rows)
  }

  /** The kinds as the schema numbers them. */
  lemma KindNumbers(rows: seq<DictRow>, key: Key, t: Term)
    requires KeyStandsFor(rows, key, t)
    ensures key.kind == if t.Iri? then 1 else if t.BNode? then 2 else 3
  {
  }

  ghost predicate Decodes(rows: seq<DictRow>, id: int, t: Term) {
    exists key :: DictRow(key, id) in rows && KeyStandsFor(rows, key, t)
  }

  ghost predicate QuadDecodes(rows: seq<DictRow>, q: QuadRow, t: Triple) {
    Decodes(rows, q.s, t.s) && Decodes(rows, q.p, t.p) && Decodes(rows, q.o, t.o)
  }

  lemma RowById(rows: seq<DictRow>, next: int, a: DictRow, b: DictRow)
    requires DistinctIds(rows, next) && a in rows && b in rows && a.id == b.id
    ensures a == b
  {
  }

  lemma RowByKey(rows: seq<DictRow>, a: DictRow, b: DictRow)
    requires OneRowPerKey(rows) && a in rows && b in rows && a.key == b.key
    ensures a == b
  {
  }

  /** An id stands for at most one term. */
  lemma DecodesOneTerm(rows: seq<DictRow>, next: int, id: int, t: Term, u: Term)
    requires DistinctIds(rows, next) && Decodes(rows, id, t) && Decodes(rows, id, u)
    ensures t == u
  {
    var k :| DictRow(k, id) in rows && KeyStandsFor(rows, k, t);
    var l :| DictRow(l, id) in rows && KeyStandsFor(rows, l, u);
    RowById(rows, next, DictRow(k, id), DictRow(l, id));
    if t.Lit? && t.dt.Some? {
      RowById(rows, next, DictRow(IriKey(t.dt.value), k.dt.value), DictRow(IriKey(u.dt.value), k.dt.value));
    }
  }

  /** With one row per key, a term has at most one id: joins on ids are joins on terms. */
  lemma OneIdPerTerm(rows: seq<DictRow>, id: int, other: int, t: Term)
    requires OneRowPerKey(rows) && Decodes(rows, id, t) && Decodes(rows, other, t)
    ensures id == other
  {
    var k :| DictRow(k, id) in rows && KeyStandsFor(rows, k, t);
    var l :| DictRow(l, other) in rows && KeyStandsFor(rows, l, t);
    if t.Lit? && t.dt.Some? {
      RowByKey(rows, DictRow(IriKey(t.dt.value), k.dt.value), DictRow(IriKey(t.dt.value), l.dt.value));
    }
    RowByKey(rows, DictRow(k, id), DictRow(l, other));
  }

  /** More rows leave what is stored as it was. */
  lemma DecodesGrows(rows: seq<DictRow>, more: seq<DictRow>, id: int, t: Term)
    requires Decodes(rows, id, t) && rows <= more
    ensures Decodes(more, id, t)
  {
    var k :| DictRow(k, id) in rows && KeyStandsFor(rows, k, t);
    PrefixMember(rows, more, DictRow(k, id));
    KeyGrows(rows, more, k, t);
  }

  lemma KeyGrows(rows: seq<DictRow>, more: seq<DictRow>, k: Key, t: Term)
    requires KeyStandsFor(rows, k, t) && rows <= more
    ensures KeyStandsFor(more, k, t)
  {
    if t.Lit? && t.dt.Some? { PrefixMember(rows, more, DictRow(IriKey(t.dt.value), k.dt.value)); }
  }

  lemma PrefixMember<T>(a: seq<T>, b: seq<T>, x: T)
    requires a <= b && x in a
    ensures x in b
  {
    var i :| 0 <= i < |a| && a[i] == x;
    assert b[i] == x;
  }

  // ----- writing -----

  /** Rows for the keys of a batch that the table lacked when the statement began, in order. */
  function Missing(rows: seq<DictRow>, keys: seq<Key>): seq<Key> {
    Filter(Lacks(rows), keys)
  }

  function Lacks(rows: seq<DictRow>): Key -> bool {
    key => !HasKey(rows, key)
  }

  function Numbered(keys: seq<Key>, next: int): seq<DictRow> {
    seq(|keys|, i requires 0 <= i < |keys| => DictRow(keys[i], next + i))
  }

  /** The table after a batch: every missing occurrence gets a row, repeated or not. */
  function AfterBatch(rows: seq<DictRow>, next: int, keys: seq<Key>): seq<DictRow> {
    rows + Numbered(Missing(rows, keys), next)
  }

  lemma NumberedIds(rows: seq<DictRow>, next: int, keys: seq<Key>)
    requires DistinctIds(rows, next)
    ensures DistinctIds(AfterBatch(rows, next, keys), next + |Missing(rows, keys)|)
  {
    hide Missing;
  }

  lemma BatchHasKeys(rows: seq<DictRow>, next: int, keys: seq<Key>, key: Key)
    requires key in keys
    ensures HasKey(AfterBatch(rows, next, keys), key)
  {
    var all := AfterBatch(rows, next, keys);
    if HasKey(rows, key) {
      var r :| r in rows && r.key == key;
      PrefixMember(rows, all, r);
    } else {
      assert Lacks(rows)(key);
      var i := IndexOf(Missing(rows, keys), key);
      assert all[|rows| + i] == DictRow(key, next + i);
    }
  }

  /** A batch keeps one row per key exactly when its missing keys are pairwise distinct. */
  lemma BatchKeepsOneRow(rows: seq<DictRow>, next: int, keys: seq<Key>)
    requires OneRowPerKey(rows)
    ensures OneRowPerKey(AfterBatch(rows, next, keys)) <==> NoDuplicates(Missing(rows, keys))
  {
    var missing, all := Missing(rows, keys), AfterBatch(rows, next, keys);
    forall i | 0 <= i < |missing| ensures all[|rows| + i].key == missing[i] && !HasKey(rows, missing[i]) {
      assert missing[i] in missing;
      assert Lacks(rows)(missing[i]);
    }
    if OneRowPerKey(all) {
      forall i, j | 0 <= i < j < |missing| ensures missing[i] != missing[j] {
        assert all[|rows| + i].key != all[|rows| + j].key;
      }
    }
    if NoDuplicates(missing) {
      forall i, j | 0 <= i < j < |all| ensures all[i].key != all[j].key {
        if i < |rows| <= j { assert rows[i] in rows; }
      }
    }
  }

  lemma {:induction false} MissingDistinct(rows: seq<DictRow>, keys: seq<Key>)
    requires NoDuplicates(keys)
    ensures NoDuplicates(Missing(rows, keys))
  {
    if keys != [] {
      MissingDistinct(rows, keys[1..]);
      assert keys[0] !in keys[1..];
    }
  }

  /** A batch that names one new term twice stores it twice; every later lookup of the term may then
      pick either id. */
  lemma RepeatedKeyStoredTwice(key: Key, next: int)
    ensures AfterBatch([], next, [key, key]) == [DictRow(key, next), DictRow(key, next + 1)]
    ensures !OneRowPerKey(AfterBatch([], next, [key, key]))
  {
    FilterAll(Lacks([]), [key, key]);
    var all := AfterBatch([], next, [key, key]);
    assert all == [DictRow(key, next), DictRow(key, next + 1)];
    assert all[0].key == all[1].key;
  }

  /** Dictionary, quads, the shared cache as this statement sees it, and what was staged for it. */
  class Store {
    var rows: seq<DictRow>
    var next: int
    var quads: seq<QuadRow>
    var staged: seq<DictRow>
    const shared: map<Key, int>

    /** Ids are distinct, keys too; cached and staged pairs are rows. */
    ghost predicate Valid()
      reads this
    {
      && DistinctIds(rows, next) && OneRowPerKey(rows)
      && (forall k :: k in shared ==> DictRow(k, shared[k]) in rows)
      && (forall r :: r in staged ==> r in rows)
    }

    constructor (rows: seq<DictRow>, next: int, quads: seq<QuadRow>, shared: map<Key, int>)
      requires DistinctIds(rows, next) && OneRowPerKey(rows)
      requires forall k :: k in shared ==> DictRow(k, shared[k]) in rows
      ensures Valid()
      ensures this.rows == rows && this.next == next && this.quads == quads && this.staged == [] && this.shared == shared
    {
      this.rows, this.next, this.quads, this.staged, this.shared := rows, next, quads, [], shared;
    }

    /** The SELECT: the id of a row with this key, if any. */
    method Find(key: Key) returns (r: Option<int>)
      ensures r.Some? ==> DictRow(key, r.value) in rows
      ensures r.None? <==> !HasKey(rows, key)
    {
      for i := 0 to |rows|
        invariant forall j :: 0 <= j < i ==> rows[j].key != key
      {
        if rows[i].key == key {
          assert rows[i] == DictRow(key, rows[i].id);
          return Some(rows[i].id);
        }
      }
      r := None;
    }

    /** `put_term_full`: shared cache, then SELECT, then INSERT; what the table answers is staged. */
    method PutTerm(key: Key) returns (id: int)
      requires Valid()
      modifies this
      ensures Valid() && quads == old(quads) && old(rows) <= rows
      ensures DictRow(key, id) in rows
      ensures rows == if HasKey(old(rows), key) then old(rows) else old(rows) + [DictRow(key, old(next))]
      ensures staged == if key in shared then old(staged) else old(staged) + [DictRow(key, id)]
      ensures key in shared ==> id == shared[key]
    {
      if key in shared {
        CachedHasKey(rows, key, shared[key]);
        return shared[key];
      }
      var found := Find(key);
      if found.Some? {
        staged := staged + [DictRow(key, found.value)];
        return found.value;
      }
      id := next;
      rows := rows + [DictRow(key, next)];
      next := next + 1;
      staged := staged + [DictRow(key, id)];
    }

    /** The join-back: for each position the id of a row with its key. Several matching rows would
        overwrite one another. */
    method LookupAll(keys: seq<Key>) returns (ids: seq<int>)
      requires forall k :: k in keys ==> HasKey(rows, k)
      ensures |ids| == |keys| && forall i :: 0 <= i < |keys| ==> DictRow(keys[i], ids[i]) in rows
    {
      ids := [];
      for i := 0 to |keys|
        invariant |ids| == i && forall j :: 0 <= j < i ==> DictRow(keys[j], ids[j]) in rows
      {
        var r := Find(keys[i]);
        assert keys[i] in keys;
        ids := ids + [if r.Some? then r.value else 0];
      }
    }

    /** `put_terms_batch`: one insert of the rows missing at its start, one join back to the ids. */
    method PutTermsBatch(keys: seq<Key>) returns (ids: seq<int>)
      requires Valid()
      modifies this`rows, this`next
      ensures Valid() <==> NoDuplicates(Missing(old(rows), keys))
      ensures NoDuplicates(keys) ==> Valid()
      ensures old(rows) <= rows
      ensures |ids| == |keys| && forall i :: 0 <= i < |keys| ==> DictRow(keys[i], ids[i]) in rows
      ensures rows == AfterBatch(old(rows), old(next), keys)
    {
      if keys == [] {
        assert Missing(rows, keys) == [];
        assert rows == AfterBatch(rows, next, keys);
        return [];
      }
      ghost var before := rows;
      BatchKeepsOneRow(rows, next, keys);
      if NoDuplicates(keys) { MissingDistinct(rows, keys); }
      NumberedIds(rows, next, keys);
      forall k | k in keys ensures HasKey(AfterBatch(rows, next, keys), k) { BatchHasKeys(rows, next, keys, k); }
      var all := AfterBatch(rows, next, keys);
      forall r | r in rows ensures r in all { PrefixMember(rows, all, r); }
      next := next + |Missing(rows, keys)|;
      rows := all;
      ids := LookupAll(keys);
    }

    /** One unnest-array insert: a batch of rows into one graph; the buffers are left empty. */
    method FlushBatch(bs: seq<int>, bp: seq<int>, bo: seq<int>, g: int, inferred: bool)
      requires |bs| == |bp| == |bo|
      modifies this`quads
      ensures quads == old(quads) + RowsOf(bs, bp, bo, g, inferred)
    {
      quads := quads + RowsOf(bs, bp, bo, g, inferred);
    }

    /** Stage what a batch resolved for publication on commit. */
    method Stage(resolved: seq<DictRow>)
      requires Valid() && forall r :: r in resolved ==> r in rows
      modifies this`staged
      ensures Valid() && staged == old(staged) + resolved
    {
      staged := staged + resolved;
    }
  }

  lemma CachedHasKey(rows: seq<DictRow>, key: Key, id: int)
    requires DictRow(key, id) in rows
    ensures HasKey(rows, key)
  {
  }

  function RowsOf(bs: seq<int>, bp: seq<int>, bo: seq<int>, g: int, inferred: bool): (qs: seq<QuadRow>)
    requires |bs| == |bp| == |bo|
    ensures |qs| == |bs|
  {
    seq(|bs|, i requires 0 <= i < |bs| => QuadRow(bs[i], bp[i], bo[i], g, inferred))
  }
}
