/**
 * The in-memory message cache: a map from a generated key to the text of the
 * message a user asked to translate, stamped with its insertion time in
 * milliseconds. Entries are written by the context-menu action, read and
 * deleted by a language button, and swept once they are more than five
 * minutes old. The clock is a parameter.
 */
module MessageCache {
  import opened Wrappers

  datatype Entry = Entry(content: string, timestamp: int)

  type Cache = map<string, Entry>

  /** Five minutes, in milliseconds. */
  const MAX_AGE_MS: int := 5 * 60 * 1000

  /** An entry the sweep at time `now` removes: stamped strictly before `now` minus five minutes. */
  predicate IsExpired(e: Entry, now: int)
  {
    e.timestamp < now - MAX_AGE_MS
  }

  /** `messageCache.set(key, {content, timestamp: now})`: adds or overwrites `key`, touches nothing else. */
  function Put(cache: Cache, key: string, content: string, now: int): (c: Cache)
    ensures key in c && c[key] == Entry(content, now)
    ensures c.Keys == cache.Keys + {key}
    ensures forall k :: k in cache && k != key ==> c[k] == cache[k]
  {
    cache[key := Entry(content, now)]
  }

  /** `messageCache.get(key)`: the entry under `key`, or `None` (`undefined`) when there is none. */
  function Get(cache: Cache, key: string): (r: Option<Entry>)
    ensures r.Some? <==> key in cache
    ensures r.Some? ==> r.value == cache[key]
  {
    if key in cache then Some(cache[key]) else None
  }

  /** `messageCache.delete(key)`: removes `key` if present, touches nothing else. */
  function Delete(cache: Cache, key: string): (c: Cache)
    ensures c.Keys == cache.Keys - {key}
    ensures forall k :: k in c ==> c[k] == cache[k]
  {
    cache - {key}
  }

  /**
   * The effect of one sweep at time `now`: exactly the expired entries go,
   * every other entry (including one exactly five minutes old) stays with its
   * content and timestamp unchanged.
   */
  function Sweep(cache: Cache, now: int): (c: Cache)
    ensures forall k :: k in c <==> k in cache && !IsExpired(cache[k], now)
    ensures forall k :: k in c ==> c[k] == cache[k]
  {
    map k | k in cache && !IsExpired(cache[k], now) :: cache[k]
  }

  /**
   * `cleanMessageCache`: walks the entries and deletes each one stamped
   * before the cutoff, in whatever order the keys are visited.
   */
  method CleanMessageCache(cache: Cache, now: int) returns (c: Cache)
    ensures c == Sweep(cache, now)
  {
    var cutoff := now - MAX_AGE_MS;
    c := cache;
    var pending := cache.Keys;
    while pending != {}
      invariant pending <= cache.Keys
      invariant forall k :: k in c <==> k in cache && (k in pending || !IsExpired(cache[k], now))
      invariant forall k :: k in c ==> c[k] == cache[k]
      decreases pending
    {
      var k :| k in pending;
      if c[k].timestamp < cutoff {
        c := c - {k};
      }
      pending := pending - {k};
    }
  }

  /** After a sweep at `now` no entry is older than five minutes. */
  lemma SweepBoundsAge(cache: Cache, now: int)
    ensures forall k :: k in Sweep(cache, now) ==> now - Sweep(cache, now)[k].timestamp <= MAX_AGE_MS
  {
  }

  /** An entry inserted at `t` survives a sweep at `now` exactly when `now <= t + MAX_AGE_MS`. */
  lemma EntryLifetime(cache: Cache, key: string, content: string, t: int, now: int)
    ensures key in Sweep(Put(cache, key, content, t), now) <==> now <= t + MAX_AGE_MS
  {
  }

  /** Sweeping twice, at `t1` and then at a later `t2`, is the same as sweeping once at `t2`. */
  lemma SweepLaterAbsorbsEarlier(cache: Cache, t1: int, t2: int)
    requires t1 <= t2
    ensures Sweep(Sweep(cache, t1), t2) == Sweep(cache, t2)
  {
    var a := Sweep(Sweep(cache, t1), t2);
    var b := Sweep(cache, t2);
    assert a.Keys == b.Keys;
  }

  /**
   * A sweep and a button's delete on the same key commute: whichever runs
   * first, the cache ends in the same state.
   */
  lemma SweepDeleteCommute(cache: Cache, key: string, now: int)
    ensures Sweep(Delete(cache, key), now) == Delete(Sweep(cache, now), key)
  {
    var a := Sweep(Delete(cache, key), now);
    var b := Delete(Sweep(cache, now), key);
    assert a.Keys == b.Keys;
  }

  /** A read right after an insert returns what was inserted; a read right after a delete finds nothing. */
  lemma GetAfterPutAndDelete(cache: Cache, key: string, content: string, now: int)
    ensures Get(Put(cache, key, content, now), key) == Some(Entry(content, now))
    ensures Get(Delete(Put(cache, key, content, now), key), key) == None
    ensures Delete(Put(cache, key, content, now), key) == Delete(cache, key)
  {
    var a := Delete(Put(cache, key, content, now), key);
    assert a.Keys == Delete(cache, key).Keys;
  }
}
