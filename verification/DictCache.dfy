/**
 The shared dictionary cache: a fixed array of slots, open addressing with a bounded probe, slots
 stamped with the generation that wrote them. It is proved to behave as a finite map that an insertion
 may make forget one other key.

 Keys are the 128-bit fingerprints of (database, kind, value, datatype, language).
 */
module DictCache {
  import opened Terms

  const SLOTS: nat := 16384
  const PROBE_DEPTH: nat := 8

  datatype Print = Print(h1: nat, h2: nat)

  datatype Slot = Slot(key: Print, generation: nat, id: int, occupied: bool)

  /** The j-th slot a key is looked for in. */
  function Probe(k: Print, j: nat): (i: nat)
    ensures i < SLOTS
  {
    (k.h1 % SLOTS + j) % SLOTS
  }

  predicate Live(slots: seq<Slot>, gen: nat, i: nat)
    requires i < |slots|
  {
    slots[i].occupied && slots[i].generation == gen
  }

  /** A live slot sits in its key's probe window, behind live slots only. */
  ghost predicate Placed(slots: seq<Slot>, gen: nat, i: nat)
    requires |slots| == SLOTS && i < SLOTS
  {
    exists j :: PlacedAt(slots, gen, i, j)
  }

  ghost predicate PlacedAt(slots: seq<Slot>, gen: nat, i: nat, j: nat)
    requires |slots| == SLOTS && i < SLOTS
  {
    && j < PROBE_DEPTH && i == Probe(slots[i].key, j)
    && forall m :: 0 <= m < j ==> Live(slots, gen, Probe(slots[i].key, m))
  }

  ghost predicate WellPlaced(slots: seq<Slot>, gen: nat) {
    && |slots| == SLOTS
    && (forall i :: 0 <= i < SLOTS ==> slots[i].generation <= gen)
    && (forall i :: 0 <= i < SLOTS && Live(slots, gen, i) ==> Placed(slots, gen, i))
    && forall i, k :: 0 <= i < k < SLOTS && Live(slots, gen, i) && Live(slots, gen, k) ==> slots[i].key != slots[k].key
  }

  /** The cache as a map: the current generation's keys. */
  ghost predicate Holds(slots: seq<Slot>, gen: nat, k: Print) {
    exists i :: 0 <= i < |slots| && HoldsAt(slots, gen, k, i)
  }

  ghost predicate HoldsAt(slots: seq<Slot>, gen: nat, k: Print, i: nat)
    requires i < |slots|
  {
    Live(slots, gen, i) && slots[i].key == k
  }

  ghost function Get(slots: seq<Slot>, gen: nat, k: Print): Option<int> {
    if Holds(slots, gen, k)
    then var i :| 0 <= i < |slots| && HoldsAt(slots, gen, k, i); Some(slots[i].id)
    else None
  }

  lemma GetIs(slots: seq<Slot>, gen: nat, k: Print, i: nat)
    requires WellPlaced(slots, gen) && i < SLOTS && HoldsAt(slots, gen, k, i)
    ensures Get(slots, gen, k) == Some(slots[i].id)
  {
    hide Placed;
    assert Holds(slots, gen, k);
    var j :| 0 <= j < |slots| && HoldsAt(slots, gen, k, j) && Get(slots, gen, k) == Some(slots[j].id);
    assert i == j;
  }

  /** What a probe of the first n slots of k's window found nothing in. */
  predicate Passed(slots: seq<Slot>, gen: nat, k: Print, n: nat)
    requires |slots| == SLOTS
  {
    forall j :: 0 <= j < n ==> !(Live(slots, gen, Probe(k, j)) && slots[Probe(k, j)].key == k)
  }

  /** A key can only be inside its window, and not behind a slot that is free. */
  lemma OnlyInWindow(slots: seq<Slot>, gen: nat, k: Print, n: nat)
    requires WellPlaced(slots, gen) && Passed(slots, gen, k, n)
    requires n >= PROBE_DEPTH || !Live(slots, gen, Probe(k, n))
    ensures !Holds(slots, gen, k)
  {
    if Holds(slots, gen, k) { HeldInWindow(slots, gen, k); }
  }

  lemma HeldInWindow(slots: seq<Slot>, gen: nat, k: Print)
    requires WellPlaced(slots, gen) && Holds(slots, gen, k)
    ensures exists j :: 0 <= j < PROBE_DEPTH && HoldsAt(slots, gen, k, Probe(k, j)) && forall m :: 0 <= m < j ==> Live(slots, gen, Probe(k, m))
  {
    var i :| 0 <= i < |slots| && HoldsAt(slots, gen, k, i);
    assert Placed(slots, gen, i);
    var j :| PlacedAt(slots, gen, i, j);
    assert i == Probe(k, j);
  }

  /** The insertion writes k into the slot at offset j of its window. */
  function Written(slots: seq<Slot>, gen: nat, k: Print, id: int, j: nat): seq<Slot>
    requires |slots| == SLOTS
  {
    slots[Probe(k, j) := Slot(k, gen, id, true)]
  }

  /** Writing over a slot that is free, holds k already, or is k's home, with live slots before it,
      keeps every slot well placed. */
  lemma WrittenWellPlaced(slots: seq<Slot>, gen: nat, k: Print, id: int, j: nat)
    requires WellPlaced(slots, gen) && j < PROBE_DEPTH
    requires forall m :: 0 <= m < j ==> Live(slots, gen, Probe(k, m))
    requires forall i :: 0 <= i < SLOTS && HoldsAt(slots, gen, k, i) ==> i == Probe(k, j)
    ensures WellPlaced(Written(slots, gen, k, id, j), gen)
  {
    hide Probe;
    var p, after := Probe(k, j), Written(slots, gen, k, id, j);
    forall m | 0 <= m < j ensures Live(after, gen, Probe(k, m)) {}
    forall i | 0 <= i < SLOTS && Live(after, gen, i) ensures Placed(after, gen, i) {
      if i == p {
        assert PlacedAt(after, gen, i, j);
      } else {
        assert Live(slots, gen, i) && Placed(slots, gen, i);
        var m :| PlacedAt(slots, gen, i, m);
        assert PlacedAt(after, gen, i, m);
      }
    }
    forall i, l | 0 <= i < l < SLOTS && Live(after, gen, i) && Live(after, gen, l) ensures after[i].key != after[l].key {
      if i == p { assert Live(slots, gen, l) && !HoldsAt(slots, gen, k, l); }
      if l == p { assert Live(slots, gen, i) && !HoldsAt(slots, gen, k, i); }
    }
  }

  /** Every other key keeps its id, except the one whose slot was overwritten. */
  lemma WrittenGets(slots: seq<Slot>, gen: nat, k: Print, id: int, j: nat, other: Print)
    requires |slots| == SLOTS && WellPlaced(slots, gen) && j < PROBE_DEPTH && WellPlaced(Written(slots, gen, k, id, j), gen)
    ensures Get(Written(slots, gen, k, id, j), gen, k) == Some(id)
    ensures other != k && !HoldsAt(slots, gen, other, Probe(k, j)) ==> Get(Written(slots, gen, k, id, j), gen, other) == Get(slots, gen, other)
    ensures other != k && HoldsAt(slots, gen, other, Probe(k, j)) ==> Get(Written(slots, gen, k, id, j), gen, other) == None
  {
    hide Probe, WellPlaced;
    var p, after := Probe(k, j), Written(slots, gen, k, id, j);
    GetIs(after, gen, k, p);
    if other != k {
      forall i | 0 <= i < SLOTS ensures HoldsAt(after, gen, other, i) <==> HoldsAt(slots, gen, other, i) && i != p {}
      if !HoldsAt(slots, gen, other, p) {
        if i :| 0 <= i < |slots| && HoldsAt(slots, gen, other, i) {
          GetIs(slots, gen, other, i);
          GetIs(after, gen, other, i);
        }
      } else {
        AtMostOne(slots, gen, other, p);
      }
    }
  }

  lemma AtMostOne(slots: seq<Slot>, gen: nat, k: Print, p: nat)
    requires WellPlaced(slots, gen) && p < SLOTS && HoldsAt(slots, gen, k, p)
    ensures forall i :: 0 <= i < SLOTS && HoldsAt(slots, gen, k, i) ==> i == p
  {
    hide Placed;
  }

  /** What an insertion does to the map: it sets k, and loses the key in k's home slot exactly when every
      slot of k's window is taken by another live key. */
  ghost predicate Puts(before: seq<Slot>, after: seq<Slot>, gen: nat, k: Print, id: int) {
    && Get(after, gen, k) == Some(id)
    && forall other :: other != k ==>
         Get(after, gen, other) == if Evicts(before, gen, k, other) then None else Get(before, gen, other)
  }

  ghost predicate Evicts(slots: seq<Slot>, gen: nat, k: Print, other: Print) {
    && |slots| == SLOTS
    && HoldsAt(slots, gen, other, Probe(k, 0))
    && forall j :: 0 <= j < PROBE_DEPTH ==> Live(slots, gen, Probe(k, j)) && slots[Probe(k, j)].key != k
  }

  lemma PutsAt(slots: seq<Slot>, gen: nat, k: Print, id: int, j: nat)
    requires |slots| == SLOTS && WellPlaced(slots, gen) && j < PROBE_DEPTH && WellPlaced(Written(slots, gen, k, id, j), gen)
    requires forall other :: other != k ==> (HoldsAt(slots, gen, other, Probe(k, j)) <==> Evicts(slots, gen, k, other))
    ensures Puts(slots, Written(slots, gen, k, id, j), gen, k, id)
  {
    hide WellPlaced, Get, Written, Evicts;
    WrittenGets(slots, gen, k, id, j, k);
    forall other | other != k
      ensures Get(Written(slots, gen, k, id, j), gen, other) == if Evicts(slots, gen, k, other) then None else Get(slots, gen, other)
    {
      WrittenGets(slots, gen, k, id, j, other);
    }
  }

  /** The first offset from j on whose slot is free or holds k already; the window's length if there is
      none. */
  function Offset(slots: seq<Slot>, gen: nat, k: Print, j: nat): (o: nat)
    requires |slots| == SLOTS && j <= PROBE_DEPTH
    ensures j <= o <= PROBE_DEPTH
    decreases PROBE_DEPTH - j
  {
    if j == PROBE_DEPTH || !Live(slots, gen, Probe(k, j)) || slots[Probe(k, j)].key == k then j
    else Offset(slots, gen, k, j + 1)
  }

  /** The table after an insertion: at that offset, or else over the slot at home. */
  function InsertInto(slots: seq<Slot>, gen: nat, k: Print, id: int): (r: seq<Slot>)
    requires |slots| == SLOTS
    ensures |r| == SLOTS
  {
    var o := Offset(slots, gen, k, 0);
    Written(slots, gen, k, id, if o == PROBE_DEPTH then 0 else o)
  }

  lemma {:induction false} OffsetIs(slots: seq<Slot>, gen: nat, k: Print, j: nat)
    requires |slots| == SLOTS && j <= PROBE_DEPTH
    ensures var o := Offset(slots, gen, k, j);
      && (forall m :: j <= m < o ==> Live(slots, gen, Probe(k, m)) && slots[Probe(k, m)].key != k)
      && (o < PROBE_DEPTH ==> !Live(slots, gen, Probe(k, o)) || slots[Probe(k, o)].key == k)
    decreases PROBE_DEPTH - j
  {
    hide Probe;
    if Offset(slots, gen, k, j) != j { OffsetIs(slots, gen, k, j + 1); }
  }

  /** An insertion keeps every slot well placed and puts the key into the map. */
  lemma InsertIntoPuts(slots: seq<Slot>, gen: nat, k: Print, id: int)
    requires |slots| == SLOTS && WellPlaced(slots, gen)
    ensures WellPlaced(InsertInto(slots, gen, k, id), gen) && Puts(slots, InsertInto(slots, gen, k, id), gen, k, id)
  {
    hide WellPlaced, Probe, Puts, Written, Offset;
    OffsetIs(slots, gen, k, 0);
    var o := Offset(slots, gen, k, 0);
    if o == PROBE_DEPTH {
      OnlyInWindow(slots, gen, k, PROBE_DEPTH);
      HomeEvicted(slots, gen, k, id);
    } else if Live(slots, gen, Probe(k, o)) {
      OwnSlotWritten(slots, gen, k, id, o);
    } else {
      OnlyInWindow(slots, gen, k, o);
      FreeSlotWritten(slots, gen, k, id, o);
    }
  }

  /** The window of a key: eight different slots, one after the other around the table of 16384. */
  lemma WindowOfEight(k: Print, i: nat, j: nat)
    ensures Probe(k, j) == (k.h1 + j) % 16384
    ensures i < j < 8 ==> Probe(k, i) != Probe(k, j)
  {
    assert PROBE_DEPTH == 8;
  }

  /** A key is evicted only by one whose eight slots hold eight other live keys. */
  lemma EvictionFindsEight(slots: seq<Slot>, gen: nat, k: Print, other: Print) returns (keys: seq<Print>)
    requires WellPlaced(slots, gen) && Evicts(slots, gen, k, other)
    ensures |keys| == 8 && other in keys && k !in keys
    ensures forall i, j :: 0 <= i < j < 8 ==> keys[i] != keys[j]
    ensures forall i :: 0 <= i < 8 ==> Get(slots, gen, keys[i]).Some?
  {
    keys := seq(8, j requires 0 <= j < 8 => slots[Probe(k, j)].key);
    hide Probe, Get, Placed;
    forall i, j | 0 <= i < j < 8 ensures keys[i] != keys[j] { WindowOfEight(k, i, j); }
    forall i | 0 <= i < 8 ensures Get(slots, gen, keys[i]).Some? { GetIs(slots, gen, keys[i], Probe(k, i)); }
    assert keys[0] == other;
  }

  /** A new generation forgets everything. */
  lemma NewGenerationEmpty(slots: seq<Slot>, gen: nat, next: nat)
    requires WellPlaced(slots, gen) && next == gen + 1
    ensures WellPlaced(slots, next) && forall k :: Get(slots, next, k) == None
  {
    assert forall i :: 0 <= i < SLOTS ==> slots[i].generation != next;
  }

  class Cache {
    const table: array<Slot>
    var generation: nat
    var hits: nat
    var misses: nat
    var inserts: nat
    var evictions: nat

    ghost predicate Valid()
      reads this, table
    {
      WellPlaced(table[..], generation)
    }

    ghost function Lookups(k: Print): Option<int>
      reads this, table
    {
      Get(table[..], generation, k)
    }

    /** Generation one, so that the all-zero slots read as stale. */
    constructor ()
      ensures Valid() && fresh(table) && forall k :: Lookups(k) == None
    {
      table := new Slot[SLOTS](i => Slot(Print(0, 0), 0, 0, false));
      generation, hits, misses, inserts, evictions := 1, 0, 0, 0, 0;
    }

    /** `lookup`: probe the window. A hit is the id last put for the key. */
    method Lookup(k: Print) returns (r: Option<int>)
      requires Valid()
      modifies this`hits, this`misses
      ensures Valid() && r == Lookups(k)
      ensures hits + misses == old(hits + misses) + 1
    {
      hide WellPlaced, Probe;
      ghost var slots := table[..];
      TableLength();
      for j := 0 to PROBE_DEPTH
        invariant table[..] == slots && generation == old(generation) && |slots| == SLOTS == table.Length
        invariant hits == old(hits) && misses == old(misses)
        invariant Passed(slots, generation, k, j)
      {
        var slot := table[Probe(k, j)];
        assert slot == slots[Probe(k, j)];
        if slot.occupied && slot.generation == generation && slot.key == k {
          hits := hits + 1;
          GetIs(slots, generation, k, Probe(k, j));
          return Some(slot.id);
        }
      }
      misses := misses + 1;
      OnlyInWindow(slots, generation, k, PROBE_DEPTH);
      r := None;
    }

    lemma TableLength()
      requires Valid()
      ensures table.Length == SLOTS
    {
    }

    /** `insert_slot`: the first free slot of the window, or the key's own, or else its home. */
    method InsertSlot(k: Print, id: int)
      requires Valid()
      modifies this`inserts, this`evictions, table
      ensures Valid() && table.Length == SLOTS && Puts(old(table[..]), table[..], generation, k, id)
      ensures table[..] == InsertInto(old(table[..]), generation, k, id)
    {
      hide WellPlaced, Probe, Puts, Offset;
      ghost var slots, gen := table[..], generation;
      TableLength();
      InsertIntoPuts(slots, gen, k, id);
      for j := 0 to PROBE_DEPTH
        invariant table[..] == slots && generation == gen && |slots| == SLOTS == table.Length
        invariant Offset(slots, gen, k, 0) == Offset(slots, gen, k, j)
      {
        var slot := table[Probe(k, j)];
        assert slot == slots[Probe(k, j)];
        OffsetStep(slots, gen, k, j);
        var usable := slot.occupied && slot.generation == generation;
        if !usable {
          table[Probe(k, j)] := Slot(k, generation, id, true);
          inserts := inserts + 1;
          assert table[..] == Written(slots, gen, k, id, j);
          return;
        }
        if slot.key == k {
          table[Probe(k, j)] := slot.(id := id);
          assert table[..] == Written(slots, gen, k, id, j);
          return;
        }
      }
      OffsetIs(slots, gen, k, PROBE_DEPTH);
      table[Probe(k, 0)] := Slot(k, generation, id, true);
      evictions := evictions + 1;
      inserts := inserts + 1;
      assert table[..] == Written(slots, gen, k, id, 0);
    }

    /** `reset`: one increment invalidates every slot. */
    method Reset()
      requires Valid()
      modifies this`generation
      ensures Valid() && generation == old(generation) + 1 && forall k :: Lookups(k) == None
    {
      NewGenerationEmpty(table[..], generation, generation + 1);
      generation := generation + 1;
    }
  }

  lemma OffsetStep(slots: seq<Slot>, gen: nat, k: Print, j: nat)
    requires |slots| == SLOTS && j < PROBE_DEPTH
    ensures Offset(slots, gen, k, j)
      == if Live(slots, gen, Probe(k, j)) && slots[Probe(k, j)].key != k then Offset(slots, gen, k, j + 1) else j
  {
  }

  lemma FreeSlotWritten(slots: seq<Slot>, gen: nat, k: Print, id: int, j: nat)
    requires WellPlaced(slots, gen) && j < PROBE_DEPTH && !Live(slots, gen, Probe(k, j)) && !Holds(slots, gen, k)
    requires forall m :: 0 <= m < j ==> Live(slots, gen, Probe(k, m))
    ensures WellPlaced(Written(slots, gen, k, id, j), gen) && Puts(slots, Written(slots, gen, k, id, j), gen, k, id)
  {
    hide Placed, Puts, Probe;
    WrittenWellPlaced(slots, gen, k, id, j);
    PutsAt(slots, gen, k, id, j);
  }

  lemma OwnSlotWritten(slots: seq<Slot>, gen: nat, k: Print, id: int, j: nat)
    requires WellPlaced(slots, gen) && j < PROBE_DEPTH && HoldsAt(slots, gen, k, Probe(k, j))
    requires forall m :: 0 <= m < j ==> Live(slots, gen, Probe(k, m))
    ensures WellPlaced(Written(slots, gen, k, id, j), gen) && Puts(slots, Written(slots, gen, k, id, j), gen, k, id)
  {
    hide Placed, Puts, Probe;
    AtMostOne(slots, gen, k, Probe(k, j));
    WrittenWellPlaced(slots, gen, k, id, j);
    PutsAt(slots, gen, k, id, j);
  }

  lemma HomeEvicted(slots: seq<Slot>, gen: nat, k: Print, id: int)
    requires WellPlaced(slots, gen) && Passed(slots, gen, k, PROBE_DEPTH) && !Holds(slots, gen, k)
    requires forall m :: 0 <= m < PROBE_DEPTH ==> Live(slots, gen, Probe(k, m))
    ensures WellPlaced(Written(slots, gen, k, id, 0), gen) && Puts(slots, Written(slots, gen, k, id, 0), gen, k, id)
  {
    hide Placed, Puts, Probe;
    WrittenWellPlaced(slots, gen, k, id, 0);
    PutsAt(slots, gen, k, id, 0);
  }
}
