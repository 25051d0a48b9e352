/** When a lookup is answered and when it misses, in terms of what was filed and of the clock. */
module Lifespans {
  import opened Wrappers
  import opened Answers
  import opened Order
  import opened Lru
  import opened Recency

  // ---- Live answers ----

  /** `seconds` from `at` on are not over at `now`. */
  predicate Lasts(at: nat, seconds: nat, now: nat) {
    seconds > 0 && now < at + seconds * 1_000_000_000
  }

  /** A TTL with the stale window behind it, in 64 bits that do not wrap around. */
  function Extended(ttl: nat, stale: nat): nat {
    if ttl + stale < 0x1_0000_0000_0000_0000 then ttl + stale else 0xFFFF_FFFF_FFFF_FFFF
  }

  predicate RecordLasts(r: Record, at: nat, stale: nat, now: nat) {
    && Lasts(at, Extended(r.ttl, stale), now)
    && (r.soaMinimum.Some? ==> Lasts(at, Extended(r.soaMinimum.value, stale), now))
  }

  /** No record of an answer filed at `at`, nor the MINIMUM of an SOA, has run out by more than `stale` seconds. */
  predicate Live(msg: Message, at: nat, stale: nat, now: nat) {
    && (forall i :: 0 <= i < |msg.answers| ==> RecordLasts(msg.answers[i], at, stale, now))
    && (forall i :: 0 <= i < |msg.authorities| ==> RecordLasts(msg.authorities[i], at, stale, now))
  }

  /** Whole seconds from one instant to another, none if the clock went back. */
  function WholeSeconds(from: nat, to: nat): nat {
    if to <= from then 0 else (to - from) / 1_000_000_000
  }

  /** Elapsed time is whole seconds, none while the clock is behind. */
  lemma ElapsedExactly(e: Entry, now: nat)
    ensures Elapsed(e, now) == WholeSeconds(e.insertedAt, now)
    ensures now <= e.insertedAt ==> Elapsed(e, now) == 0
    ensures now >= e.insertedAt ==>
              e.insertedAt + Elapsed(e, now) * 1_000_000_000 <= now < e.insertedAt + (Elapsed(e, now) + 1) * 1_000_000_000
  {
  }

  lemma ElapsedBelow(e: Entry, now: nat, seconds: nat)
    ensures Elapsed(e, now) < seconds <==> Lasts(e.insertedAt, seconds, now)
  {
    ElapsedExactly(e, now);
    var k := Elapsed(e, now);
    if k < seconds {
      assert (k + 1) * 1_000_000_000 <= seconds * 1_000_000_000;
    } else {
      assert seconds * 1_000_000_000 <= k * 1_000_000_000;
    }
  }

  /** The least TTL decides. */
  lemma LeastLasts(e: Entry, least: nat, ttl: nat, stale: nat, now: nat)
    requires least <= ttl && Lasts(e.insertedAt, Extended(least, stale), now)
    ensures Lasts(e.insertedAt, Extended(ttl, stale), now)
  {
    assert Extended(least, stale) * 1_000_000_000 <= Extended(ttl, stale) * 1_000_000_000;
  }

  lemma LifetimeDecides(msg: Message, at: nat, stale: nat, now: nat)
    requires Cacheable(msg)
    ensures EntryOf(msg, at).Some?
    ensures Live(msg, at, stale, now) <==> Lasts(at, Extended(EntryOf(msg, at).value.lifetime, stale), now)
  {
    CacheableExactly(msg, at);
    var e := EntryOf(msg, at).value;
    LifetimeExact(msg, at);
    var n := |msg.answers|;
    var all := msg.answers + msg.authorities;
    if Lasts(at, Extended(e.lifetime, stale), now) {
      forall i | 0 <= i < |all| ensures RecordLasts(all[i], at, stale, now) {
        LeastLasts(e, e.lifetime, all[i].ttl, stale, now);
        if all[i].soaMinimum.Some? { LeastLasts(e, e.lifetime, all[i].soaMinimum.value, stale, now); }
      }
      assert forall i :: 0 <= i < |msg.answers| ==> msg.answers[i] == all[i];
      assert forall i :: 0 <= i < |msg.authorities| ==> msg.authorities[i] == all[n + i];
    }
    if Live(msg, at, stale, now) {
      var i :| 0 <= i < |all| && (e.lifetime == all[i].ttl || Some(e.lifetime) == all[i].soaMinimum);
      assert RecordLasts(if i < n then msg.answers[i] else msg.authorities[i - n], at, stale, now);
    }
  }

  /** An entry is expired exactly once some record has run out by more than the stale window. */
  lemma LiveExactly(msg: Message, at: nat, stale: nat, now: nat)
    requires Cacheable(msg)
    ensures EntryOf(msg, at).Some?
    ensures var e := EntryOf(msg, at).value;
            && (Expired(e, now, stale) <==> !Live(msg, at, stale, now))
            && (Elapsed(e, now) < e.lifetime <==> Live(msg, at, 0, now))
  {
    CacheableExactly(msg, at);
    LifetimeDecides(msg, at, stale, now);
    LifetimeDecides(msg, at, 0, now);
    var e := EntryOf(msg, at).value;
    ElapsedBelow(e, now, Extended(e.lifetime, stale));
    ElapsedBelow(e, now, e.lifetime);
  }

  // ---- Lookups after runs ----

  predicate Holds(s: seq<Item>, key: CacheKey) {
    exists i :: 0 <= i < |s| && s[i].key == key
  }

  predicate InCache(ops: seq<Op>, l: Limits, key: CacheKey) {
    Holds(Run(ops, l), key)
  }

  /**
   After every run a lookup misses exactly if the key is not in the cache or a record of its
   latest answer has run out by more than the stale window; it is answered fresh exactly if
   none has run out at all.
   */
  lemma FoundExactly(ops: seq<Op>, l: Limits, key: CacheKey, now: nat)
    requires Sane(l)
    ensures InCache(ops, l, key) ==> Latest(ops, key).Some? && Cacheable(Latest(ops, key).value.msg)
    ensures var r, f := Get(Run(ops, l), l, key, now), Latest(ops, key);
            && (r != Miss <==> InCache(ops, l, key) && Live(f.value.msg, f.value.now, l.serveStale, now))
            && (r.Fresh? <==> InCache(ops, l, key) && Live(f.value.msg, f.value.now, 0, now))
  {
    var s := Run(ops, l);
    var at := Place(s, key);
    if at.Some? {
      ItemsAreLatest(ops, l);
      assert FromLatest(s[at.value], ops);
      var f := Latest(ops, key).value;
      CacheableExactly(f.msg, f.now);
      LiveExactly(f.msg, f.now, l.serveStale, now);
      if Live(f.msg, f.now, 0, now) { LongerLives(f.msg, f.now, l.serveStale, now); }
      assert InCache(ops, l, key);
    }
  }

  lemma LongerLives(msg: Message, at: nat, stale: nat, now: nat)
    requires Cacheable(msg) && Live(msg, at, 0, now)
    ensures Live(msg, at, stale, now)
  {
    LifetimeDecides(msg, at, 0, now);
    LifetimeDecides(msg, at, stale, now);
    var lifetime := EntryOf(msg, at).value.lifetime;
    assert lifetime * 1_000_000_000 <= Extended(lifetime, stale) * 1_000_000_000;
  }

  // ---- Nothing is lost while there is room ----

  /** Every cacheable insert of the run finds room for its answer. */
  predicate Roomy(ops: seq<Op>, l: Limits) {
    ops == [] ||
    (var front, op := ops[..|ops| - 1], ops[|ops| - 1];
     && Roomy(front, l)
     && (op.OpInsert? && Cacheable(op.msg) ==> HasRoom(Run(front, l), l, op.key, op.msg)))
  }

  predicate HasRoom(s: seq<Item>, l: Limits, key: CacheKey, msg: Message) {
    (|s| < l.capacity || Place(s, key).Some?) && Total(s) + SizeOf(msg) <= l.maxBytes
  }

  predicate ClockRuns(ops: seq<Op>, now: nat) {
    ops == [] || (ops[|ops| - 1].now <= now && ClockRuns(ops[..|ops| - 1], ops[|ops| - 1].now))
  }

  /** The key's latest answer is in the cache, or dead. */
  predicate Accounted(ops: seq<Op>, l: Limits, key: CacheKey, now: nat) {
    var f := Latest(ops, key);
    f.Some? ==> InCache(ops, l, key) || (Cacheable(f.value.msg) && !Live(f.value.msg, f.value.now, l.serveStale, now))
  }

  /** What is dead stays dead. */
  lemma DeadStaysDead(msg: Message, at: nat, stale: nat, now: nat, later: nat)
    requires Cacheable(msg) && !Live(msg, at, stale, now) && now <= later
    ensures !Live(msg, at, stale, later)
  {
    LifetimeDecides(msg, at, stale, now);
    LifetimeDecides(msg, at, stale, later);
  }

  lemma LatestStep(ops: seq<Op>, op: Op, key: CacheKey)
    ensures Latest(ops + [op], key) ==
            if op.OpInsert? && op.key == key && Cacheable(op.msg) then Some(Filed(op.msg, op.now)) else Latest(ops, key)
  {
    assert (ops + [op])[..|ops|] == ops;
    if op.OpInsert? { CacheableExactly(op.msg, op.now); }
  }

  /** With room an insert leaves every other item where it is in the order. */
  lemma RoomyInsert(s: seq<Item>, l: Limits, item: Item)
    requires Sane(l) && Bounded(s, l)
    requires (|s| < l.capacity || Place(s, item.key).Some?) && Total(s) + item.bytes <= l.maxBytes
    ensures InsertItem(s, l, item) == [item] + Others(s, item.key)
  {
    OthersExactly(s, item.key);
    var others := Others(s, item.key);
    InsertFits(s, l, item);
    if Place(s, item.key).Some? { TotalWithout(s, Place(s, item.key).value); }
    TotalOne(item);
    TotalSplit([item], others);
    FitBytesKeeps([item] + others, l.maxBytes);
  }

  lemma StillThere(s: seq<Item>, item: Item, key: CacheKey)
    requires DistinctKeys(s) && (key == item.key || Holds(s, key))
    ensures Holds([item] + Others(s, item.key), key)
  {
    OthersExactly(s, item.key);
    var others := Others(s, item.key);
    if key == item.key {
      assert ([item] + others)[0].key == key;
    } else {
      var i :| 0 <= i < |s| && s[i].key == key;
      assert s[i] in others;
      var j :| 0 <= j < |others| && others[j] == s[i];
      assert ([item] + others)[j + 1].key == key;
    }
  }

  lemma HoldsAfterInsert(ops: seq<Op>, l: Limits, op: Op, key: CacheKey)
    requires Sane(l) && op.OpInsert? && Cacheable(op.msg) && HasRoom(Run(ops, l), l, op.key, op.msg)
    requires key == op.key || InCache(ops, l, key)
    ensures InCache(ops + [op], l, key)
  {
    RunStep(ops, l, op);
    RunKeeps(ops, l);
    CacheableExactly(op.msg, op.now);
    var item := Item(op.key, EntryOf(op.msg, op.now).value, SizeOf(op.msg));
    RoomyInsert(Run(ops, l), l, item);
    StillThere(Run(ops, l), item, key);
  }

  lemma InsertAccounts(ops: seq<Op>, l: Limits, op: Op, key: CacheKey, before: nat)
    requires Sane(l) && op.OpInsert? && before <= op.now && Accounted(ops, l, key, before)
    requires Cacheable(op.msg) ==> HasRoom(Run(ops, l), l, op.key, op.msg)
    ensures Accounted(ops + [op], l, key, op.now)
  {
    LatestStep(ops, op, key);
    if Cacheable(op.msg) {
      if key == op.key || InCache(ops, l, key) {
        HoldsAfterInsert(ops, l, op, key);
      } else if Latest(ops, key).Some? {
        var f := Latest(ops, key).value;
        DeadStaysDead(f.msg, f.now, l.serveStale, before, op.now);
      }
    } else {
      CacheableExactly(op.msg, op.now);
      RunStep(ops, l, op);
      UnchangedAccounts(ops, l, op, key, before);
    }
  }

  lemma UnchangedAccounts(ops: seq<Op>, l: Limits, op: Op, key: CacheKey, before: nat)
    requires before <= op.now && Accounted(ops, l, key, before) && Latest(ops + [op], key) == Latest(ops, key)
    requires InCache(ops, l, key) ==> InCache(ops + [op], l, key)
    ensures Accounted(ops + [op], l, key, op.now)
  {
    if Latest(ops, key).Some? && !InCache(ops, l, key) {
      var f := Latest(ops, key).value;
      DeadStaysDead(f.msg, f.now, l.serveStale, before, op.now);
    }
  }

  lemma GetAccounts(ops: seq<Op>, l: Limits, op: Op, key: CacheKey, before: nat)
    requires Sane(l) && op.OpGet? && before <= op.now && Accounted(ops, l, key, before)
    ensures Accounted(ops + [op], l, key, op.now)
  {
    LatestStep(ops, op, key);
    FoundExactly(ops, l, key, op.now);
    if InCache(ops, l, key) && (key != op.key || Get(Run(ops, l), l, key, op.now) != Miss) {
      var i :| 0 <= i < |Run(ops, l)| && Run(ops, l)[i].key == key;
      LookupKeepsItems(ops, l, op.key, op.now);
      assert Run(ops, l)[i] in Run(ops + [op], l);
      UnchangedAccounts(ops, l, op, key, before);
    } else if !InCache(ops, l, key) {
      UnchangedAccounts(ops, l, op, key, before);
    }
  }

  lemma {:induction false} RunAccounts(ops: seq<Op>, l: Limits, key: CacheKey, now: nat)
    requires Sane(l) && Roomy(ops, l) && ClockRuns(ops, now)
    ensures Accounted(ops, l, key, now)
  {
    if ops != [] {
      var front, op := ops[..|ops| - 1], ops[|ops| - 1];
      RunAccounts(front, l, key, op.now);
      assert front + [op] == ops;
      if op.OpInsert? { InsertAccounts(front, l, op, key, op.now); } else { GetAccounts(front, l, op, key, op.now); }
      if Latest(ops, key).Some? && !InCache(ops, l, key) {
        var f := Latest(ops, key).value;
        DeadStaysDead(f.msg, f.now, l.serveStale, op.now, now);
      }
    }
  }

  /**
   While there is room and the clock never goes back, a lookup is answered exactly if an
   answer for the key has been filed and its latest one is alive or within the stale window.
   */
  lemma AnsweredExactly(ops: seq<Op>, l: Limits, key: CacheKey, now: nat)
    requires Sane(l) && Roomy(ops, l) && ClockRuns(ops, now)
    ensures var r, f := Get(Run(ops, l), l, key, now), Latest(ops, key);
            && (r != Miss <==> f.Some? && Live(f.value.msg, f.value.now, l.serveStale, now))
            && (r.Fresh? <==> f.Some? && Live(f.value.msg, f.value.now, 0, now))
  {
    FoundExactly(ops, l, key, now);
    RunAccounts(ops, l, key, now);
    if Latest(ops, key).Some? && !InCache(ops, l, key) {
      var f := Latest(ops, key).value;
      if Live(f.msg, f.now, 0, now) { LongerLives(f.msg, f.now, l.serveStale, now); }
    }
  }
}
