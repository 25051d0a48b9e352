/**
 The cache as a plain recency sequence, most recently used first, and what holds
 of every run of it.
 */
module Lru {
  import opened Wrappers
  import opened Answers
  import opened Order

  /** Query name (case folded), record type and class. */
  datatype CacheKey = CacheKey(name: string, rtype: nat, rclass: nat)

  datatype Item = Item(key: CacheKey, entry: Entry, bytes: nat)

  datatype Limits = Limits(capacity: nat, maxBytes: nat, serveStale: nat)

  predicate Sane(l: Limits) {
    l.capacity > 0 && l.maxBytes > 0
  }

  function Total(s: seq<Item>): nat {
    if s == [] then 0 else Total(s[..|s| - 1]) + s[|s| - 1].bytes
  }

  function Place(s: seq<Item>, key: CacheKey): (at: Option<nat>)
    ensures at.Some? ==> at.value < |s| && s[at.value].key == key
    ensures at.None? ==> forall i :: 0 <= i < |s| ==> s[i].key != key
  {
    if s == [] then None
    else if s[|s| - 1].key == key then Some(|s| - 1)
    else
      var at := Place(s[..|s| - 1], key);
      assert at.None? ==> forall i :: 0 <= i < |s| - 1 ==> s[..|s| - 1][i] == s[i];
      at
  }

  /** Drop least recently used items until the bytes fit, but never the last item. */
  function FitBytes(s: seq<Item>, maxBytes: nat): seq<Item> {
    if Total(s) > maxBytes && |s| > 1 then FitBytes(s[..|s| - 1], maxBytes) else s
  }

  /** The sequence with `item` at the front, before bytes are considered. */
  function Fronted(s: seq<Item>, capacity: nat, item: Item): seq<Item> {
    var at := Place(s, item.key);
    if at.Some? then [item] + Without(s, at.value)
    else [item] + if |s| >= capacity && s != [] then s[..|s| - 1] else s
  }

  function InsertItem(s: seq<Item>, l: Limits, item: Item): seq<Item> {
    FitBytes(Fronted(s, l.capacity, item), l.maxBytes)
  }

  function Insert(s: seq<Item>, l: Limits, key: CacheKey, msg: Message, now: nat): seq<Item> {
    var e := EntryOf(msg, now);
    if e.None? then s else InsertItem(s, l, Item(key, e.value, SizeOf(msg)))
  }

  function AfterGet(s: seq<Item>, l: Limits, key: CacheKey, now: nat): seq<Item> {
    var at := Place(s, key);
    if at.None? then s
    else if Expired(s[at.value].entry, now, l.serveStale) then Without(s, at.value)
    else [s[at.value]] + Without(s, at.value)
  }

  function Get(s: seq<Item>, l: Limits, key: CacheKey, now: nat): Lookup {
    var at := Place(s, key);
    if at.None? || Expired(s[at.value].entry, now, l.serveStale) then Miss
    else Answer(s[at.value].entry, now)
  }

  // ---- One step ----

  ghost predicate DistinctKeys(s: seq<Item>) {
    forall i, j :: 0 <= i < j < |s| ==> s[i].key != s[j].key
  }

  /** What every operation keeps. */
  ghost predicate Bounded(s: seq<Item>, l: Limits) {
    && DistinctKeys(s)
    && |s| <= l.capacity
    && (Total(s) <= l.maxBytes || |s| <= 1)
  }

  lemma {:induction false} FitBytesKeeps(s: seq<Item>, maxBytes: nat)
    ensures FitBytes(s, maxBytes) <= s
    ensures Total(FitBytes(s, maxBytes)) <= maxBytes || |FitBytes(s, maxBytes)| <= 1
    ensures s != [] ==> FitBytes(s, maxBytes) != []
    ensures Total(s) <= maxBytes ==> FitBytes(s, maxBytes) == s
  {
    if Total(s) > maxBytes && |s| > 1 { FitBytesKeeps(s[..|s| - 1], maxBytes); }
  }

  /** An insert keeps the bounds, and the inserted item survives at the front. */
  lemma InsertKeeps(s: seq<Item>, l: Limits, item: Item)
    requires Sane(l) && Bounded(s, l)
    ensures Bounded(InsertItem(s, l, item), l)
    ensures InsertItem(s, l, item) != [] && InsertItem(s, l, item)[0] == item
  {
    FitBytesKeeps(Fronted(s, l.capacity, item), l.maxBytes);
  }

  lemma {:induction false} TotalSplit(a: seq<Item>, b: seq<Item>)
    ensures Total(a + b) == Total(a) + Total(b)
  {
    if b == [] {
      assert a + b == a;
    } else {
      TotalSplit(a, b[..|b| - 1]);
      assert (a + b)[..|a + b| - 1] == a + b[..|b| - 1];
    }
  }

  lemma TotalOne(item: Item)
    ensures Total([item]) == item.bytes
  {
    assert [item][..0] == [];
  }

  lemma TotalAround(a: seq<Item>, item: Item, b: seq<Item>)
    ensures Total(a + [item] + b) == Total(a) + item.bytes + Total(b)
    ensures Total(a + b) == Total(a) + Total(b)
    ensures Total([item] + (a + b)) == item.bytes + Total(a) + Total(b)
  {
    TotalSplit(a + [item], b);
    TotalSplit(a, [item]);
    TotalSplit(a, b);
    TotalSplit([item], a + b);
    TotalOne(item);
  }

  lemma TakenApart(s: seq<Item>, i: nat) returns (a: seq<Item>, b: seq<Item>)
    requires i < |s|
    ensures s == a + [s[i]] + b && Without(s, i) == a + b
  {
    a, b := s[..i], s[i + 1..];
  }

  lemma TotalWithout(s: seq<Item>, i: nat)
    requires i < |s|
    ensures Total(Without(s, i)) == Total(s) - s[i].bytes
    ensures Total([s[i]] + Without(s, i)) == Total(s)
  {
    var a, b := TakenApart(s, i);
    TotalAround(a, s[i], b);
  }

  lemma GetKeeps(s: seq<Item>, l: Limits, key: CacheKey, now: nat)
    requires Bounded(s, l)
    ensures Bounded(AfterGet(s, l, key, now), l)
  {
    var at := Place(s, key);
    if at.Some? { TotalWithout(s, at.value); }
  }

  // ---- Runs ----

  datatype Op =
    | OpInsert(key: CacheKey, msg: Message, now: nat)
    | OpGet(key: CacheKey, now: nat)

  function Step(s: seq<Item>, l: Limits, op: Op): seq<Item> {
    match op
    case OpInsert(key, msg, now) => Insert(s, l, key, msg, now)
    case OpGet(key, now) => AfterGet(s, l, key, now)
  }

  /** The cache after a run that starts empty. */
  function Run(ops: seq<Op>, l: Limits): seq<Item> {
    if ops == [] then [] else Step(Run(ops[..|ops| - 1], l), l, ops[|ops| - 1])
  }

  lemma {:induction false} RunKeeps(ops: seq<Op>, l: Limits)
    requires Sane(l)
    ensures Bounded(Run(ops, l), l)
  {
    if ops != [] {
      var before := Run(ops[..|ops| - 1], l);
      RunKeeps(ops[..|ops| - 1], l);
      match ops[|ops| - 1]
      case OpInsert(key, msg, now) =>
        if EntryOf(msg, now).Some? { InsertKeeps(before, l, Item(key, EntryOf(msg, now).value, SizeOf(msg))); }
      case OpGet(key, now) =>
        GetKeeps(before, l, key, now);
    }
  }

  // ---- TTLs over runs ----

  /** A cacheable insert of a run. */
  datatype Filed = Filed(msg: Message, now: nat)

  /** The latest cacheable insert for `key`. */
  function Latest(ops: seq<Op>, key: CacheKey): Option<Filed> {
    if ops == [] then None
    else
      match ops[|ops| - 1]
      case OpInsert(k, msg, now) =>
        if k == key && EntryOf(msg, now).Some? then Some(Filed(msg, now)) else Latest(ops[..|ops| - 1], key)
      case OpGet(_, _) => Latest(ops[..|ops| - 1], key)
  }

  ghost predicate FromLatest(item: Item, ops: seq<Op>) {
    var f := Latest(ops, item.key);
    f.Some? && EntryOf(f.value.msg, f.value.now) == Some(item.entry)
  }

  lemma {:induction false} ItemsAreLatest(ops: seq<Op>, l: Limits)
    requires Sane(l)
    ensures forall i :: 0 <= i < |Run(ops, l)| ==> FromLatest(Run(ops, l)[i], ops)
  {
    if ops != [] {
      var front, op := ops[..|ops| - 1], ops[|ops| - 1];
      var before, after := Run(front, l), Run(ops, l);
      ItemsAreLatest(front, l);
      RunKeeps(front, l);
      RunKeeps(ops, l);
      forall i | 0 <= i < |after| ensures FromLatest(after[i], ops) {
        StepOrigin(before, l, op, i);
        if after[i] in before {
          var j :| 0 <= j < |before| && before[j] == after[i];
          assert FromLatest(before[j], front);
        }
      }
    }
  }

  /** Each item after a step is the one just inserted, or was there before and not replaced. */
  lemma StepOrigin(s: seq<Item>, l: Limits, op: Op, i: nat)
    requires Sane(l) && Bounded(s, l) && i < |Step(s, l, op)|
    ensures var item := Step(s, l, op)[i];
            if op.OpInsert? && EntryOf(op.msg, op.now).Some? && item.key == op.key
            then item == Item(op.key, EntryOf(op.msg, op.now).value, SizeOf(op.msg))
            else item in s
  {
    if op.OpInsert? && EntryOf(op.msg, op.now).Some? {
      var item := Item(op.key, EntryOf(op.msg, op.now).value, SizeOf(op.msg));
      InsertKeeps(s, l, item);
      FitBytesKeeps(Fronted(s, l.capacity, item), l.maxBytes);
      FrontedOrigin(s, l.capacity, item, i);
    }
  }

  lemma FrontedOrigin(s: seq<Item>, capacity: nat, item: Item, i: nat)
    requires DistinctKeys(s) && i < |Fronted(s, capacity, item)|
    ensures var r := Fronted(s, capacity, item)[i]; if r.key == item.key then r == item else r in s
  {
  }

  /**
   TTLs after any run: a fresh answer is the key's latest cacheable insert with every
   TTL counted down exactly; past the lifetime only TTL 30 is served, and only within
   the stale window (section 4 of RFC 8767).
   */
  lemma ServedExactly(ops: seq<Op>, l: Limits, key: CacheKey, now: nat)
    requires Sane(l) && Get(Run(ops, l), l, key, now) != Miss
    ensures Latest(ops, key).Some? && EntryOf(Latest(ops, key).value.msg, Latest(ops, key).value.now).Some?
    ensures var f := Latest(ops, key).value; var e := EntryOf(f.msg, f.now).value;
            var elapsed := Elapsed(e, now); var r := Get(Run(ops, l), l, key, now);
            && r.msg.rcode == f.msg.rcode
            && elapsed < e.lifetime + l.serveStale
            && (r.Fresh? <==> elapsed < e.lifetime)
            && (r.Fresh? ==> Counted(r.msg.answers, f.msg.answers, elapsed)
                             && Counted(r.msg.authorities, f.msg.authorities, elapsed))
            && (r.Stale? ==> AllTtls(r.msg.answers, STALE_ANSWER_TTL) && AllTtls(r.msg.authorities, STALE_ANSWER_TTL)
                             && |r.msg.answers| == |f.msg.answers| && |r.msg.authorities| == |f.msg.authorities|)
  {
    var s := Run(ops, l);
    ItemsAreLatest(ops, l);
    var at := Place(s, key).value;
    assert FromLatest(s[at], ops);
    var f := Latest(ops, key).value;
    if Elapsed(s[at].entry, now) < s[at].entry.lifetime {
      FreshTtlsExact(f.msg, f.now, now);
    }
  }

  // ---- A larger capacity never loses a hit ----

  /** `small` is `large`, or `large` with one item taken out. */
  ghost predicate LacksAtMostOne(small: seq<Item>, large: seq<Item>) {
    small == large || exists i :: 0 <= i < |large| && small == Without(large, i)
  }

  lemma PlaceUnique(s: seq<Item>, i: nat)
    requires DistinctKeys(s) && i < |s|
    ensures Place(s, s[i].key) == Some(i)
  {
  }

  lemma PlaceAbsent(s: seq<Item>, key: CacheKey)
    requires forall i :: 0 <= i < |s| ==> s[i].key != key
    ensures Place(s, key) == None
  {
  }

  /** Where the item at `p` of `s` is once the item at `i` is gone. */
  function Shifted(i: nat, p: nat): nat
    requires p != i
  {
    if p < i then p else p - 1
  }

  lemma WithoutAt(s: seq<Item>, i: nat, j: nat)
    requires i < |s| && j < |s| - 1
    ensures |Without(s, i)| == |s| - 1 && Without(s, i)[j] == if j < i then s[j] else s[j + 1]
  {
  }

  lemma WithoutShift(s: seq<Item>, i: nat, p: nat)
    requires i < |s| && p < |s| && p != i
    ensures Shifted(i, p) < |s| - 1 && Shifted(p, i) < |s| - 1
    ensures Without(s, i)[Shifted(i, p)] == s[p]
    ensures Without(Without(s, i), Shifted(i, p)) == Without(Without(s, p), Shifted(p, i))
  {
    WithoutAt(s, i, Shifted(i, p));
    WithoutAt(s, p, Shifted(p, i));
    var a, b := Without(Without(s, i), Shifted(i, p)), Without(Without(s, p), Shifted(p, i));
    forall j | 0 <= j < |s| - 2 ensures a[j] == b[j] {
      WithoutAt(Without(s, i), Shifted(i, p), j);
      WithoutAt(s, i, if j < Shifted(i, p) then j else j + 1);
      WithoutAt(Without(s, p), Shifted(p, i), j);
      WithoutAt(s, p, if j < Shifted(p, i) then j else j + 1);
    }
  }

  lemma WithoutBehindFront(item: Item, s: seq<Item>, i: nat)
    requires i < |s|
    ensures Without([item] + s, i + 1) == [item] + Without(s, i)
  {
  }

  lemma WithoutDistinct(s: seq<Item>, i: nat)
    requires DistinctKeys(s) && i < |s|
    ensures DistinctKeys(Without(s, i))
    ensures forall j :: 0 <= j < |s| - 1 ==> Without(s, i)[j].key != s[i].key
  {
  }

  /** Where `key` is in `s` without its item at `i`. */
  lemma PlaceWithout(s: seq<Item>, i: nat, key: CacheKey)
    requires DistinctKeys(s) && i < |s|
    ensures Place(Without(s, i), key) ==
            match Place(s, key)
            case None => None
            case Some(p) => if p == i then None else Some(Shifted(i, p))
  {
    WithoutDistinct(s, i);
    var t := Without(s, i);
    var at := Place(s, key);
    if at.None? || at.value == i {
      PlaceAbsent(t, key);
    } else {
      WithoutShift(s, i, at.value);
      PlaceUnique(t, Shifted(i, at.value));
    }
  }

  /** A get step keeps the relation, and every hit of the smaller cache is one of the larger. */
  lemma GetKeepsInclusion(small: seq<Item>, large: seq<Item>, l1: Limits, l2: Limits, key: CacheKey, now: nat)
    requires DistinctKeys(large) && LacksAtMostOne(small, large) && l1.serveStale == l2.serveStale
    ensures LacksAtMostOne(AfterGet(small, l1, key, now), AfterGet(large, l2, key, now))
    ensures Get(small, l1, key, now) != Miss ==> Get(large, l2, key, now) == Get(small, l1, key, now)
  {
    if small != large {
      var i :| 0 <= i < |large| && small == Without(large, i);
      PlaceWithout(large, i, key);
      GetWithout(large, i, l1, l2, key, now);
    }
  }

  lemma GetWithout(large: seq<Item>, i: nat, l1: Limits, l2: Limits, key: CacheKey, now: nat)
    requires i < |large| && l1.serveStale == l2.serveStale
    requires Place(Without(large, i), key) ==
             match Place(large, key)
             case None => None
             case Some(p) => if p == i then None else Some(Shifted(i, p))
    ensures LacksAtMostOne(AfterGet(Without(large, i), l1, key, now), AfterGet(large, l2, key, now))
    ensures Get(Without(large, i), l1, key, now) != Miss ==>
              Get(large, l2, key, now) == Get(Without(large, i), l1, key, now)
  {
    var at := Place(large, key);
    if at.Some? && at.value != i {
      GetOfOther(large, i, at.value);
    } else if at.Some? {
      WithoutAtFront(large[i], Without(large, i));
    }
  }

  /** The item at `p` dropped or moved to the front: the sequence without `i` follows. */
  lemma GetOfOther(large: seq<Item>, i: nat, p: nat)
    requires i < |large| && p < |large| && p != i
    ensures Shifted(i, p) < |large| - 1 && Without(large, i)[Shifted(i, p)] == large[p]
    ensures LacksAtMostOne(Without(Without(large, i), Shifted(i, p)), Without(large, p))
    ensures LacksAtMostOne([large[p]] + Without(Without(large, i), Shifted(i, p)), [large[p]] + Without(large, p))
  {
    WithoutShift(large, i, p);
    WithoutBehindFront(large[p], Without(large, p), Shifted(p, i));
  }

  lemma WithoutAtFront(item: Item, s: seq<Item>)
    ensures Without([item] + s, 0) == s
  {
  }

  lemma WithoutLast(s: seq<Item>)
    requires s != []
    ensures Without(s, |s| - 1) == s[..|s| - 1]
  {
  }

  /** Bringing an item to the front keeps the relation between capacities `c` and `c + 1`. */
  lemma FrontedKeepsInclusion(small: seq<Item>, large: seq<Item>, c: nat, item: Item)
    requires DistinctKeys(large) && LacksAtMostOne(small, large) && 0 < c && |small| <= c && |large| <= c + 1
    ensures LacksAtMostOne(Fronted(small, c, item), Fronted(large, c + 1, item))
  {
    var a, b := Fronted(small, c, item), Fronted(large, c + 1, item);
    if small == large {
      if Place(small, item.key).None? && |small| >= c { WithoutLast(b); }
    } else {
      var i :| 0 <= i < |large| && small == Without(large, i);
      PlaceWithout(large, i, item.key);
      var at := Place(large, item.key);
      if at.Some? && at.value != i {
        WithoutShift(large, i, at.value);
        WithoutBehindFront(item, Without(large, at.value), Shifted(at.value, i));
      } else if at.Some? {
        if |small| >= c { WithoutLast(b); }
      } else {
        FrontedNew(small, large, c, item, i);
      }
    }
  }

  lemma FrontedNew(small: seq<Item>, large: seq<Item>, c: nat, item: Item, i: nat)
    requires i < |large| && small == Without(large, i) && 0 < c && |small| <= c
    requires Place(large, item.key).None? && Place(small, item.key).None?
    ensures LacksAtMostOne(Fronted(small, c, item), Fronted(large, c + 1, item))
  {
    if |small| < c {
      WithoutBehindFront(item, large, i);
    } else {
      EvictedBehind(item, small, large, i);
    }
  }

  /** When both evict, the one item the smaller lacks may be the very one the larger evicts. */
  lemma EvictedBehind(item: Item, small: seq<Item>, large: seq<Item>, i: nat)
    requires i < |large| && small == Without(large, i) && small != []
    ensures LacksAtMostOne([item] + small[..|small| - 1], [item] + large[..|large| - 1])
  {
    var kept := large[..|large| - 1];
    if i == |large| - 1 {
      WithoutLast(large);
      WithoutLast([item] + kept);
      FrontOfFronted(item, kept);
    } else {
      FrontOfWithout(large, i);
      WithoutBehindFront(item, kept, i);
    }
  }

  lemma FrontOfFronted(item: Item, s: seq<Item>)
    requires s != []
    ensures ([item] + s)[..|s|] == [item] + s[..|s| - 1]
  {
  }

  lemma FrontOfWithout(s: seq<Item>, i: nat)
    requires i < |s| - 1
    ensures Without(s, i)[..|s| - 2] == Without(s[..|s| - 1], i)
  {
  }

  lemma LackingTotals(small: seq<Item>, large: seq<Item>)
    requires LacksAtMostOne(small, large)
    ensures Total(small) <= Total(large)
  {
    if small != large {
      var i :| 0 <= i < |large| && small == Without(large, i);
      TotalWithout(large, i);
    }
  }

  /** The byte budget never evicts anything during the run. */
  ghost predicate BudgetIdle(ops: seq<Op>, l: Limits) {
    ops == [] ||
    (var front, op := ops[..|ops| - 1], ops[|ops| - 1];
     && BudgetIdle(front, l)
     && (op.OpInsert? && EntryOf(op.msg, op.now).Some? ==>
           Total(Fronted(Run(front, l), l.capacity, Item(op.key, EntryOf(op.msg, op.now).value, SizeOf(op.msg))))
           <= l.maxBytes))
  }

  /**
   LRU inclusion: replaying a run on capacities `c` and `c + 1`, the smaller cache is at
   every point the larger one minus at most one item.
   */
  lemma {:induction false} Inclusion(ops: seq<Op>, small: Limits, large: Limits)
    requires Sane(small) && large == small.(capacity := small.capacity + 1)
    requires BudgetIdle(ops, large)
    ensures BudgetIdle(ops, small)
    ensures LacksAtMostOne(Run(ops, small), Run(ops, large))
  {
    if ops != [] {
      var front, op := ops[..|ops| - 1], ops[|ops| - 1];
      Inclusion(front, small, large);
      RunKeeps(front, small);
      RunKeeps(front, large);
      var a, b := Run(front, small), Run(front, large);
      match op
      case OpInsert(key, msg, now) =>
        if EntryOf(msg, now).Some? {
          var item := Item(key, EntryOf(msg, now).value, SizeOf(msg));
          FrontedKeepsInclusion(a, b, small.capacity, item);
          var a', b' := Fronted(a, small.capacity, item), Fronted(b, large.capacity, item);
          LackingTotals(a', b');
          FitBytesKeeps(a', small.maxBytes);
          FitBytesKeeps(b', large.maxBytes);
        }
      case OpGet(key, now) =>
        GetKeepsInclusion(a, b, small, large, key, now);
    }
  }

  /** Whatever a cache holds after a run, every cache of larger capacity holds too. */
  lemma {:induction false} LargerHoldsMore(ops: seq<Op>, small: Limits, large: Limits)
    requires Sane(small) && small.capacity <= large.capacity && large == small.(capacity := large.capacity)
    requires BudgetIdle(ops, large)
    ensures forall item :: item in Run(ops, small) ==> item in Run(ops, large)
    decreases large.capacity - small.capacity
  {
    if small.capacity < large.capacity {
      var between := large.(capacity := large.capacity - 1);
      Inclusion(ops, between, large);
      LargerHoldsMore(ops, small, between);
      forall item | item in Run(ops, between) ensures item in Run(ops, large) {
      }
    } else {
      assert small == large;
    }
  }

  /** A larger capacity never loses a hit, and serves the same answer. */
  lemma LargerNeverLosesAHit(ops: seq<Op>, small: Limits, large: Limits, key: CacheKey, now: nat)
    requires Sane(small) && small.capacity <= large.capacity && large == small.(capacity := large.capacity)
    requires BudgetIdle(ops, large)
    requires Get(Run(ops, small), small, key, now) != Miss
    ensures Get(Run(ops, large), large, key, now) == Get(Run(ops, small), small, key, now)
  {
    LargerHoldsMore(ops, small, large);
    RunKeeps(ops, large);
    var a, b := Run(ops, small), Run(ops, large);
    var item := a[Place(a, key).value];
    assert item in b;
    var j :| 0 <= j < |b| && b[j] == item;
    PlaceUnique(b, j);
  }
}
