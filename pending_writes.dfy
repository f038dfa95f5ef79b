/**
 * `PendingFileWriteStore` (PendingFileWriteStore.java): the in-memory table
 * of file writes waiting for confirmation, keyed by token, each entry
 * valid until its expiry instant.
 *
 * Instants are whole milliseconds; the clock and the random token are
 * parameters of the operations that read them.
 */
module PendingWrites {
  import opened JavaText

  type Instant = int

  /** `PendingFileWrite`: what a confirmed write will do. */
  datatype PendingWrite = PendingWrite(
    token: JString,
    rootId: JString,
    displayPath: JString,
    targetFile: JString,
    bytes: seq<bv8>,
    overwrite: bool,
    createParents: bool,
    expectExists: bool,
    expectedSha256: Option<JString>,
    newSha256: Option<JString>,
    createdAt: Instant,
    expiresAt: Instant)
  {
    /** `isExpired`: the expiry instant has passed. */
    predicate IsExpired(now: Instant) {
      now > expiresAt
    }
  }

  /** The entries `cleanupExpired` keeps at `now`: those not yet expired. */
  function Live(store: map<JString, PendingWrite>, now: Instant): (r: map<JString, PendingWrite>)
    ensures r.Keys <= store.Keys
    ensures forall k | k in r :: r[k] == store[k] && !store[k].IsExpired(now)
    ensures forall k | k in store && !store[k].IsExpired(now) :: k in r
  {
    map k | k in store && !store[k].IsExpired(now) :: store[k]
  }

  /** Dropping the expired entries twice at the same instant drops nothing more. */
  lemma LiveIdempotent(store: map<JString, PendingWrite>, now: Instant)
    ensures Live(Live(store, now), now) == Live(store, now)
  {
  }

  /** An entry kept at a later instant was kept at every earlier one. */
  lemma LiveShrinks(store: map<JString, PendingWrite>, earlier: Instant, later: Instant)
    requires earlier <= later
    ensures Live(store, later).Keys <= Live(store, earlier).Keys
  {
  }

  class PendingWriteStore {
    const ttl: int
    const maxBytesPerItem: int
    var store: map<JString, PendingWrite>

    constructor (ttl: int, maxBytesPerItem: int)
      ensures this.ttl == ttl && this.maxBytesPerItem == maxBytesPerItem && store == map[]
    {
      this.ttl := ttl;
      this.maxBytesPerItem := maxBytesPerItem;
      store := map[];
    }

    /** `cleanupExpired`: removes, one key at a time, every entry expired at `now`. */
    method CleanupExpired(now: Instant)
      modifies this
      ensures store == Live(old(store), now)
    {
      var keys := store.Keys;
      ghost var original := store;
      while keys != {}
        invariant keys <= original.Keys
        invariant store.Keys <= original.Keys
        invariant forall k | k in store :: store[k] == original[k]
        invariant forall k | k in original && k !in keys :: (k in store <==> !original[k].IsExpired(now))
        invariant forall k | k in keys :: k in store
        decreases keys
      {
        var k :| k in keys;
        if store[k].IsExpired(now) {
          store := store - {k};
        }
        keys := keys - {k};
      }
      assert store == Live(original, now);
    }

    /**
     * `create`: drops the expired entries, rejects content longer than
     * `maxBytesPerItem`, and otherwise stores a new entry under `token`
     * created at `now` and expiring `ttl` later.
     */
    method Create(rootId: JString, displayPath: JString, targetFile: JString, bytes: seq<bv8>,
                  overwrite: bool, createParents: bool, expectExists: bool,
                  expectedSha256: Option<JString>, newSha256: Option<JString>,
                  token: JString, now: Instant)
      returns (r: Option<PendingWrite>)
      modifies this
      ensures |bytes| > maxBytesPerItem ==> r.None? && store == Live(old(store), now)
      ensures |bytes| <= maxBytesPerItem ==>
        r == Some(PendingWrite(token, rootId, displayPath, targetFile, bytes, overwrite, createParents, expectExists,
                               expectedSha256, newSha256, now, now + ttl))
        && store == Live(old(store), now)[token := r.value]
      ensures r.Some? && ttl >= 0 ==> !r.value.IsExpired(now)
    {
      CleanupExpired(now);
      if |bytes| > maxBytesPerItem {
        return None;
      }
      var pending := PendingWrite(token, rootId, displayPath, targetFile, bytes, overwrite, createParents, expectExists,
                                  expectedSha256, newSha256, now, now + ttl);
      store := store[token := pending];
      r := Some(pending);
    }

    /**
     * `get`: nothing for a missing or blank token or an unknown one; an
     * entry expired at `now` is removed and nothing returned; otherwise the
     * entry, which stays.
     */
    method Get(lib: JavaLib, token: Option<JString>, now: Instant) returns (r: Option<PendingWrite>)
      modifies this
      ensures token.None? || IsBlank(lib, token.value) ==> r.None? && store == old(store)
      ensures token.Some? && !IsBlank(lib, token.value) ==>
        var t := token.value;
        if t !in old(store) then r.None? && store == old(store)
        else if old(store)[t].IsExpired(now) then r.None? && store == old(store) - {t}
        else r == Some(old(store)[t]) && store == old(store)
    {
      if token.None? || IsBlank(lib, token.value) {
        return None;
      }
      var t := token.value;
      if t !in store {
        return None;
      }
      var pending := store[t];
      if pending.IsExpired(now) {
        store := store - {t};
        return None;
      }
      r := Some(pending);
    }

    /** `remove`: the token is gone afterwards; the entry is returned only if it had not expired. */
    method Remove(token: JString, now: Instant) returns (r: Option<PendingWrite>)
      modifies this
      ensures store == old(store) - {token}
      ensures r.Some? <==> token in old(store) && !old(store)[token].IsExpired(now)
      ensures r.Some? ==> r.value == old(store)[token]
    {
      if token !in store {
        store := store - {token};
        return None;
      }
      var pending := store[token];
      store := store - {token};
      r := if pending.IsExpired(now) then None else Some(pending);
    }
  }

  /**
   * A write created at `now` with a non-negative time to live is still
   * there at `now`, and expires exactly after `now + ttl`.
   */
  lemma CreatedIsLive(p: PendingWrite, now: Instant, ttl: int, later: Instant)
    requires p.createdAt == now && p.expiresAt == now + ttl && ttl >= 0
    ensures !p.IsExpired(now)
    ensures p.IsExpired(later) <==> later > now + ttl
  {
  }
}
