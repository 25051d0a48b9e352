/** The request pipeline's shared state and the sections of the code that change it. */
module Server {
  import opened Wrappers
  import opened Answers
  import opened Recency
  import opened Lifespans
  import Lru
  import opened Caches
  import FailCache

  const MAX_IN_FLIGHT_QUERIES: nat := 512

  /** What a query finds before any upstream is asked. */
  datatype First =
    | FromCache(msg: Message)
    | FromStale(msg: Message, refresh: bool)
    | HeldDown
    | MustAsk

  /** The key's hold has not ended at `now`. */
  predicate OnHold(failures: FailCache.Table, key: Lru.CacheKey, now: nat) {
    key in failures && now < failures[key].until
  }

  /**
   What a look gives: an entry is served whatever is held down, stale ones with a refresh
   exactly for an unmarked key; only a miss is stopped by a hold, and without one it asks.
   */
  predicate Decided(r: First, found: Lookup, held: bool, marked: bool) {
    && (r.HeldDown? <==> found == Miss && held)
    && (r.MustAsk? <==> found == Miss && !held)
    && (r.FromCache? <==> found.Fresh?) && (found.Fresh? ==> r.msg == found.msg)
    && (r.FromStale? <==> found.Stale?) && (found.Stale? ==> r.msg == found.msg && r.refresh == !marked)
  }

  /** The lookup map once `key` is looked up: joined if a lookup is under way, else led on `channel`. */
  function Joined(lookups: map<Lru.CacheKey, nat>, key: Lru.CacheKey, channel: nat): map<Lru.CacheKey, nat> {
    if key in lookups then lookups else lookups[key := channel]
  }

  predicate Admits(inFlight: nat) {
    inFlight < MAX_IN_FLIGHT_QUERIES
  }

  class Pipeline {
    const cache: Cache
    const failures: FailCache.FailureCache
    var lookups: map<Lru.CacheKey, nat>
    var refreshing: set<Lru.CacheKey>
    var inFlight: nat

    constructor (cache: Cache, failures: FailCache.FailureCache)
      ensures this.cache == cache && this.failures == failures
      ensures lookups == map[] && refreshing == {} && inFlight == 0
    {
      this.cache, this.failures := cache, failures;
      lookups, refreshing, inFlight := map[], {}, 0;
    }

    /** Count the query in, shed ones included; admitted below the cap. */
    method Enter() returns (admitted: bool)
      modifies this`inFlight
      ensures inFlight == old(inFlight) + 1 && admitted == Admits(old(inFlight))
      ensures admitted <==> old(inFlight) < 512
    {
      var previously := inFlight;
      inFlight := inFlight + 1;
      return previously < MAX_IN_FLIGHT_QUERIES;
    }

    method Leave()
      requires inFlight > 0
      modifies this`inFlight
      ensures inFlight == old(inFlight) - 1
    {
      inFlight := inFlight - 1;
    }

    /** Cache, then hold-downs; a stale hit starts a refresh unless one runs. */
    method ResolveCached(key: Lru.CacheKey, now: nat) returns (r: First)
      requires cache.Valid()
      modifies cache, this`refreshing
      ensures cache.Valid()
      ensures cache.contents == Lru.AfterGet(old(cache.contents), cache.Bounds(), key, now)
      ensures Decided(r, Lru.Get(old(cache.contents), cache.Bounds(), key, now), OnHold(failures.inner, key, now),
                      key in old(refreshing))
      ensures refreshing == if r.FromStale? then old(refreshing) + {key} else old(refreshing)
    {
      var held := failures.Held(key, now);
      ghost var contents := cache.contents;
      var found := cache.Get(key, now);
      assert found == Lru.Get(contents, cache.Bounds(), key, now);
      r := Decide(found, held.Some?, key);
    }

    method Decide(found: Lookup, held: bool, key: Lru.CacheKey) returns (r: First)
      modifies this`refreshing
      ensures Decided(r, found, held, key in old(refreshing))
      ensures refreshing == if r.FromStale? then old(refreshing) + {key} else old(refreshing)
    {
      match found
      case Fresh(msg) => return FromCache(msg);
      case Stale(msg) =>
        var refresh := SpawnRefresh(key);
        return FromStale(msg, refresh);
      case Miss =>
        if held { return HeldDown; }
        return MustAsk;
    }

    /** Mark the key as being refreshed; false if it was already. */
    method SpawnRefresh(key: Lru.CacheKey) returns (spawn: bool)
      modifies this`refreshing
      ensures spawn == (key !in old(refreshing)) && refreshing == old(refreshing) + {key}
    {
      if key in refreshing {
        return false;
      }
      refreshing := refreshing + {key};
      return true;
    }

    /** What the guard of a refresh does. */
    method EndRefresh(key: Lru.CacheKey)
      modifies this`refreshing
      ensures refreshing == old(refreshing) - {key}
    {
      refreshing := refreshing - {key};
    }

    /** Join the lookup under way for `key`, or lead one on the new `channel`. */
    method JoinLookup(key: Lru.CacheKey, channel: nat) returns (joined: nat, leads: bool)
      modifies this`lookups
      ensures lookups == Joined(old(lookups), key, channel)
      ensures leads == (key !in old(lookups)) && key in lookups && joined == lookups[key]
    {
      if key in lookups {
        return lookups[key], false;
      }
      lookups := lookups[key := channel];
      return channel, true;
    }

    /** What the guard of a leader does. */
    method EndLookup(key: Lru.CacheKey)
      modifies this`lookups
      ensures lookups == old(lookups) - {key}
    {
      lookups := lookups - {key};
    }

    /**
     File an upstream answer: a SERVFAIL starts or extends a hold and leaves the cache
     alone; anything else clears the key's failures and is offered to the cache.
     */
    method Settle(key: Lru.CacheKey, answer: Message, now: nat)
      requires cache.Valid()
      modifies cache, failures
      ensures cache.Valid()
      ensures if answer.rcode == ServFail
              then cache.contents == old(cache.contents)
                   && FailCache.Recorded(old(failures.inner), key, now, failures.inner)
              else cache.contents == Lru.Insert(old(cache.contents), cache.Bounds(), key, answer, now)
                   && failures.inner == old(failures.inner) - {key}
    {
      if answer.rcode == ServFail {
        var _ := failures.Record(key, now);
      } else {
        failures.Clear(key);
        cache.Insert(key, answer, now);
      }
    }
  }

  // ---- What is filed decides the next look ----

  lemma FrontIsFound(s: seq<Lru.Item>, l: Lru.Limits, item: Lru.Item)
    requires l.capacity > 0 && Lru.DistinctKeys(s)
    ensures Lru.Place(Lru.InsertItem(s, l, item), item.key) == Some(0) && Lru.InsertItem(s, l, item)[0] == item
  {
    var fronted := Lru.Fronted(s, l.capacity, item);
    if Lru.Place(s, item.key).Some? { Lru.WithoutDistinct(s, Lru.Place(s, item.key).value); }
    Lru.FitBytesKeeps(fronted, l.maxBytes);
    Lru.PlaceUnique(Lru.InsertItem(s, l, item), 0);
  }

  /** The answer with every TTL counted down by these seconds. */
  ghost predicate AsPublished(served: Message, answer: Message, seconds: nat) {
    && served.rcode == answer.rcode
    && Counted(served.answers, answer.answers, seconds) && Counted(served.authorities, answer.authorities, seconds)
  }

  /** An answer that has just been filed is fresh until one of its records runs out, then stale for the window. */
  lemma FiledIsFound(s: seq<Lru.Item>, l: Lru.Limits, key: Lru.CacheKey, answer: Message, now: nat, later: nat)
    requires l.capacity > 0 && Lru.DistinctKeys(s) && Cacheable(answer)
    ensures var r := Lru.Get(Lru.Insert(s, l, key, answer, now), l, key, later);
            && (r.Fresh? <==> Live(answer, now, 0, later))
            && (r != Miss <==> Live(answer, now, l.serveStale, later))
            && (r.Fresh? ==> AsPublished(r.msg, answer, WholeSeconds(now, later)))
  {
    CacheableExactly(answer, now);
    ElapsedExactly(EntryOf(answer, now).value, later);
    FrontIsFound(s, l, Lru.Item(key, EntryOf(answer, now).value, SizeOf(answer)));
    LiveExactly(answer, now, l.serveStale, later);
    if Live(answer, now, 0, later) {
      LongerLives(answer, now, l.serveStale, later);
      FreshTtlsExact(answer, now, later);
    }
  }

  /**
   After an answer other than SERVFAIL its key is never held down. If the answer is kept it is
   served fresh until one of its records runs out, then stale for the window, then asked for again.
   */
  method LookAfterAnswer(p: Pipeline, key: Lru.CacheKey, answer: Message, now: nat, later: nat) returns (r: First)
    requires p.cache.Valid() && answer.rcode != ServFail
    modifies p.cache, p.failures, p`refreshing
    ensures !r.HeldDown?
    ensures Cacheable(answer) ==>
              && (r.FromCache? <==> Live(answer, now, 0, later))
              && (r.FromCache? ==> AsPublished(r.msg, answer, WholeSeconds(now, later)))
              && (r.FromStale? <==> Live(answer, now, p.cache.Bounds().serveStale, later) && !Live(answer, now, 0, later))
              && (r.MustAsk? <==> !Live(answer, now, p.cache.Bounds().serveStale, later))
  {
    ghost var contents := p.cache.contents;
    MappedKeysDistinct(p.cache.index, p.cache.slots, p.cache.order);
    p.Settle(key, answer, now);
    if Cacheable(answer) {
      FiledIsFound(contents, p.cache.Bounds(), key, answer, now, later);
      if Live(answer, now, 0, later) { LongerLives(answer, now, p.cache.Bounds().serveStale, later); }
    }
    r := p.ResolveCached(key, later);
  }

  /** After a SERVFAIL a key that is not in the cache is held down for at least five seconds and at most sixty. */
  method LookAfterFailure(p: Pipeline, key: Lru.CacheKey, answer: Message, now: nat, later: nat) returns (r: First)
    requires p.cache.Valid() && answer.rcode == ServFail && FailCache.Sound(p.failures.inner)
    requires Lru.Get(p.cache.contents, p.cache.Bounds(), key, later) == Miss
    modifies p.cache, p.failures, p`refreshing
    ensures later < now + 5_000_000_000 ==> r == HeldDown
    ensures later >= now + 60_000_000_000 ==> r == MustAsk
  {
    ghost var before := p.failures.inner;
    p.Settle(key, answer, now);
    FailCache.RecordKeeps(before, key, now, p.failures.inner);
    r := p.ResolveCached(key, later);
  }

  /** With nothing cached and no failures every key must be asked for. */
  method FirstLook(key: Lru.CacheKey, now: nat, capacity: nat, maxBytes: nat, serveStale: nat) returns (r: First)
    requires 0 < capacity < NONE && 0 < maxBytes
    ensures r == MustAsk
  {
    var cache := new Cache(capacity, maxBytes, serveStale);
    var failures := new FailCache.FailureCache();
    var p := new Pipeline(cache, failures);
    r := p.ResolveCached(key, now);
  }
}
