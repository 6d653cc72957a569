/**
 Graph locks and the digest cached under them: lock flag, reason, the two refusing triggers on the
 graph's partition, and the cached digest.

 The cache is trusted only while the graph is locked and both triggers are there. Then nothing can
 have changed the content since the digest was stored. A trigger put back by hand, or switched off without
 being dropped, is outside this model.
 */
module LockedDigest {
  import opened Terms
  import opened CanonicalDigest
  import opened Canonicalizer

  datatype Refusal = EmptyReason | AlreadyLocked | NotLocked | Locked | Uncanonical(budget: Budget)

  datatype Answer<T> = Done(value: T) | Declined(why: Refusal)

  /** White space by Unicode's property of that name. */
  predicate White(c: char) {
    '\t' <= c <= '\r' || c == ' ' || c == 0x85 as char || c == 0xA0 as char || c == 0x1680 as char
    || 0x2000 as char <= c <= 0x200A as char || c == 0x2028 as char || c == 0x2029 as char
    || c == 0x202F as char || c == 0x205F as char || c == 0x3000 as char
  }

  function TrimStart(s: string): string {
    if s != "" && White(s[0]) then TrimStart(s[1..]) else s
  }

  function TrimEnd(s: string): string {
    if s != "" && White(s[|s| - 1]) then TrimEnd(s[..|s| - 1]) else s
  }

  function Trim(s: string): string {
    TrimEnd(TrimStart(s))
  }

  /** Some character is not white space. */
  predicate SaysSomething(reason: string) {
    exists i :: 0 <= i < |reason| && !White(reason[i])
  }

  lemma {:induction false} TrimStartKeeps(s: string)
    ensures SaysSomething(TrimStart(s)) <==> SaysSomething(s)
    ensures TrimStart(s) != "" ==> SaysSomething(s)
  {
    if s != "" && White(s[0]) {
      TrimStartKeeps(s[1..]);
      if i :| 0 <= i < |s| && !White(s[i]) { assert s[1..][i - 1] == s[i]; }
      if i :| 0 <= i < |s[1..]| && !White(s[1..][i]) { assert s[i + 1] == s[1..][i]; }
    }
  }

  lemma {:induction false} TrimEndKeeps(s: string)
    ensures SaysSomething(TrimEnd(s)) <==> SaysSomething(s)
    ensures TrimEnd(s) != "" ==> SaysSomething(s)
  {
    if s != "" && White(s[|s| - 1]) {
      var rest := s[..|s| - 1];
      TrimEndKeeps(rest);
      if i :| 0 <= i < |s| && !White(s[i]) { assert rest[i] == s[i]; }
      if i :| 0 <= i < |rest| && !White(rest[i]) { assert s[i] == rest[i]; }
    }
  }

  /** A reason is empty after trimming exactly when it is white space throughout. */
  lemma TrimmedEmpty(reason: string)
    ensures Trim(reason) == "" <==> !SaysSomething(reason)
  {
    TrimStartKeeps(reason);
    TrimEndKeeps(TrimStart(reason));
  }

  /** Letters, digits and punctuation are no white space. */
  lemma PrintableIsNotWhite(c: char)
    ensures '!' <= c <= '~' ==> !White(c)
    ensures c in " \t\n\r" ==> White(c)
  {
    assert " \t\n\r"[0] == ' ' && " \t\n\r"[1] == '\t' && " \t\n\r"[2] == '\n' && " \t\n\r"[3] == '\r';
  }

  /** One registered graph: its rows, its lock, its partition's triggers and its cached digest. */
  class Graph {
    const sha: string -> string
    const partitioned: bool
    var content: seq<Triple>
    var locked: bool
    var reason: string
    var rowTrigger: bool
    var truncateTrigger: bool
    var cached: Option<string>

    /** Triggers stand only on a locked graph's own partition; a cached digest that would be trusted
        is the digest of the rows. */
    ghost predicate Valid()
      reads this
    {
      && (rowTrigger || truncateTrigger ==> locked && partitioned)
      && (!locked ==> cached == None)
      && (Custody() && cached.Some? ==> cached.value == Digest(sha, content))
    }

    predicate Custody()
      reads this
    {
      locked && rowTrigger && truncateTrigger
    }

    constructor (sha: string -> string, partitioned: bool, content: seq<Triple>)
      ensures Valid() && this.content == content && !locked && this.sha == sha
    {
      this.sha, this.partitioned, this.content := sha, partitioned, content;
      locked, reason, rowTrigger, truncateTrigger, cached := false, "", false, false, None;
    }

    /** `lock_graph`: never over a standing lock; clears the cache, then installs both triggers. */
    method Lock(why: string) returns (r: Answer<bool>)
      requires Valid()
      modifies this
      ensures Valid() && content == old(content)
      ensures r.Done? <==> SaysSomething(why) && !old(locked)
      ensures r.Done? ==> locked && reason == why && cached == None && (Custody() <==> partitioned)
      ensures r.Declined? ==> unchanged(this)
    {
      TrimmedEmpty(why);
      if Trim(why) == "" { return Declined(EmptyReason); }
      if locked { return Declined(AlreadyLocked); }
      locked, reason, cached := true, why, None;
      if partitioned {
        rowTrigger, truncateTrigger := true, true;
      }
      r := Done(true);
    }

    /** `unlock_graph`: clears flag, reason and cache, then drops whatever triggers are left. */
    method Unlock(why: string) returns (r: Answer<bool>)
      requires Valid()
      modifies this
      ensures Valid() && content == old(content)
      ensures r.Done? <==> SaysSomething(why) && old(locked)
      ensures r.Done? ==> !locked && cached == None && !rowTrigger && !truncateTrigger
      ensures r.Declined? ==> unchanged(this)
    {
      TrimmedEmpty(why);
      if Trim(why) == "" { return Declined(EmptyReason); }
      if !locked { return Declined(NotLocked); }
      locked, reason, cached := false, "", None;
      if partitioned {
        rowTrigger, truncateTrigger := false, false;
      }
      r := Done(true);
    }

    /** Any engine write path: `require_unlocked` comes first. */
    method EngineWrite(rows: seq<Triple>) returns (r: Answer<bool>)
      requires Valid()
      modifies this
      ensures Valid() && (r.Done? <==> !old(locked))
      ensures if r.Done? then content == rows else unchanged(this)
    {
      if locked { return Declined(Locked); }
      content := rows;
      r := Done(true);
    }

    /** Direct SQL on the rows, below the engine: only the row trigger stands in the way. */
    method DirectWrite(rows: seq<Triple>) returns (r: Answer<bool>)
      requires Valid()
      modifies this
      ensures Valid() && (r.Done? <==> !old(rowTrigger))
      ensures if r.Done? then content == rows else unchanged(this)
    {
      if rowTrigger { return Declined(Locked); }
      content := rows;
      r := Done(true);
    }

    method DirectTruncate() returns (r: Answer<bool>)
      requires Valid()
      modifies this
      ensures Valid() && (r.Done? <==> !old(truncateTrigger))
      ensures if r.Done? then content == [] else unchanged(this)
    {
      if truncateTrigger { return Declined(Locked); }
      content := [];
      r := Done(true);
    }

    /** A trigger dropped by hand: custody drifts and does not come back under this lock. */
    method DropByHand(row: bool, truncate: bool)
      requires Valid()
      modifies this`rowTrigger, this`truncateTrigger
      ensures Valid()
      ensures rowTrigger == (old(rowTrigger) && !row) && truncateTrigger == (old(truncateTrigger) && !truncate)
    {
      rowTrigger, truncateTrigger := rowTrigger && !row, truncateTrigger && !truncate;
    }

    /** `graph_digest`: from the cache under custody, else computed, and cached under custody when the
        caller may write. Either way it is the digest of the rows as they are. */
    method GraphDigest(canCache: bool) returns (r: Answer<string>)
      requires Valid()
      modifies this`cached
      ensures Valid()
      ensures r.Done? ==> r.value == Digest(sha, content)
      ensures r.Done? && Custody() && canCache ==> cached == Some(r.value)
      ensures old(Custody()) && old(cached.Some?) ==> r.Done?
      ensures r.Declined? || !old(Custody()) ==> cached == old(cached)
    {
      hide Digest, CanonicalLabels, CanonicalLines, TieFree;
      if Custody() && cached.Some? {
        return Done(cached.value);
      }
      var c := CanonicalizeLabeled(sha, content);
      if c.Refused? { return Declined(Uncanonical(c.budget)); }
      if Custody() && canCache {
        cached := Some(c.value.1);
      }
      r := Done(c.value.1);
    }
  }
}
