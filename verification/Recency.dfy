/**
 What "least recently used" means on runs of the cache, from the operations alone: when a
 key was last used, what an insert evicts, and when a lookup misses.
 */
module Recency {
  import opened Wrappers
  import opened Answers
  import opened Order
  import opened Lru

  // ---- Last uses ----

  /** Answers that are kept: NOERROR or NXDOMAIN, with a record in either section. */
  predicate Cacheable(msg: Message) {
    (msg.rcode == NoError || msg.rcode == NXDomain) && (msg.answers != [] || msg.authorities != [])
  }

  lemma CacheableExactly(msg: Message, now: nat)
    ensures EntryOf(msg, now).Some? <==> Cacheable(msg)
    ensures Cacheable(msg) ==>
              var e := EntryOf(msg, now).value;
              e.answers == msg.answers && e.authorities == msg.authorities && e.rcode == msg.rcode && e.insertedAt == now
  {
  }

  /** After `ops`, this operation uses the key: it files an answer for it, or finds one. */
  predicate Uses(ops: seq<Op>, l: Limits, op: Op, key: CacheKey) {
    op.key == key && if op.OpInsert? then Cacheable(op.msg) else Get(Run(ops, l), l, key, op.now) != Miss
  }

  /** The number of the operation that used the key last, counted from 1; 0 if none has. */
  function LastUse(ops: seq<Op>, l: Limits, key: CacheKey): (n: nat)
    ensures n <= |ops|
  {
    if ops == [] then 0
    else if Uses(ops[..|ops| - 1], l, ops[|ops| - 1], key) then |ops|
    else LastUse(ops[..|ops| - 1], l, key)
  }

  /** Latest use first, and every key in it has been used. */
  ghost predicate ByLastUse(s: seq<Item>, ops: seq<Op>, l: Limits) {
    && (forall i :: 0 <= i < |s| ==> LastUse(ops, l, s[i].key) > 0)
    && (forall i, j :: 0 <= i < j < |s| ==> LastUse(ops, l, s[i].key) > LastUse(ops, l, s[j].key))
  }

  lemma LastUseStep(ops: seq<Op>, l: Limits, op: Op, key: CacheKey)
    ensures LastUse(ops + [op], l, key) == if Uses(ops, l, op, key) then |ops| + 1 else LastUse(ops, l, key)
  {
    assert (ops + [op])[..|ops|] == ops;
  }

  lemma RunStep(ops: seq<Op>, l: Limits, op: Op)
    ensures Run(ops + [op], l) == Step(Run(ops, l), l, op)
  {
    assert (ops + [op])[..|ops|] == ops;
  }

  /** Without a use nothing changes places. */
  lemma UnusedKeeps(s: seq<Item>, ops: seq<Op>, l: Limits, op: Op)
    requires ByLastUse(s, ops, l) && !Uses(ops, l, op, op.key)
    ensures ByLastUse(s, ops + [op], l)
  {
    forall i | 0 <= i < |s| ensures LastUse(ops + [op], l, s[i].key) == LastUse(ops, l, s[i].key) {
      LastUseStep(ops, l, op, s[i].key);
    }
  }

  /** The key just used, followed by others in their order, is ordered again. */
  lemma UsedLeads(first: Item, rest: seq<Item>, ops: seq<Op>, l: Limits, op: Op)
    requires ByLastUse(rest, ops, l) && Uses(ops, l, op, first.key)
    requires forall i :: 0 <= i < |rest| ==> rest[i].key != first.key
    ensures ByLastUse([first] + rest, ops + [op], l)
  {
    LastUseStep(ops, l, op, first.key);
    forall i | 0 <= i < |rest| ensures LastUse(ops + [op], l, rest[i].key) == LastUse(ops, l, rest[i].key) {
      LastUseStep(ops, l, op, rest[i].key);
    }
  }

  lemma PartByLastUse(s: seq<Item>, i: nat, ops: seq<Op>, l: Limits)
    requires ByLastUse(s, ops, l) && i < |s|
    ensures ByLastUse(Without(s, i), ops, l)
  {
  }

  lemma PrefixByLastUse(s: seq<Item>, t: seq<Item>, ops: seq<Op>, l: Limits)
    requires ByLastUse(s, ops, l) && t <= s
    ensures ByLastUse(t, ops, l)
  {
  }

  // ---- Inserts ----

  /** The items of other keys, in their order. */
  function Others(s: seq<Item>, key: CacheKey): seq<Item> {
    if s == [] then []
    else Others(s[..|s| - 1], key) + if s[|s| - 1].key == key then [] else [s[|s| - 1]]
  }

  lemma {:induction false} OthersOfAbsent(s: seq<Item>, key: CacheKey)
    requires forall i :: 0 <= i < |s| ==> s[i].key != key
    ensures Others(s, key) == s
  {
    if s != [] { OthersOfAbsent(s[..|s| - 1], key); }
  }

  lemma {:induction false} OthersOfPresent(s: seq<Item>, i: nat)
    requires DistinctKeys(s) && i < |s|
    ensures Others(s, s[i].key) == Without(s, i)
  {
    var front, last := s[..|s| - 1], s[|s| - 1];
    if i == |s| - 1 {
      OthersOfAbsent(front, last.key);
    } else {
      OthersOfPresent(front, i);
    }
  }

  lemma OthersExactly(s: seq<Item>, key: CacheKey)
    requires DistinctKeys(s)
    ensures Others(s, key) == match Place(s, key) case None => s case Some(i) => Without(s, i)
    ensures forall i :: 0 <= i < |Others(s, key)| ==> Others(s, key)[i].key != key
    ensures forall item :: item in Others(s, key) <==> item in s && item.key != key
  {
    match Place(s, key)
    case None => OthersOfAbsent(s, key);
    case Some(i) =>
      OthersOfPresent(s, i);
      WithoutDistinct(s, i);
      WithoutMembers(s, i);
  }

  lemma WithoutMembers(s: seq<Item>, i: nat)
    requires DistinctKeys(s) && i < |s|
    ensures forall item :: item in Without(s, i) <==> item in s && item.key != s[i].key
  {
    var t := Without(s, i);
    forall item | item in s && item.key != s[i].key ensures item in t {
      var j :| 0 <= j < |s| && s[j] == item;
      assert t[if j < i then j else j - 1] == item;
    }
    forall item | item in t ensures item in s && item.key != s[i].key {
      var j :| 0 <= j < |t| && t[j] == item;
      WithoutAt(s, i, j);
    }
  }

  /** The new item, then as many of the others as capacity and bytes allow, dropped from the end and no more than needed. */
  ghost predicate Fitted(after: seq<Item>, item: Item, others: seq<Item>, l: Limits) {
    && 0 < |after| <= |others| + 1 && after == [item] + others[..|after| - 1]
    && (|after| <= |others| ==> |after| == l.capacity || Total([item] + others[..|after|]) > l.maxBytes)
  }

  lemma {:induction false} FitBytesMaximal(s: seq<Item>, maxBytes: nat)
    requires s != []
    ensures var n := |FitBytes(s, maxBytes)|;
            0 < n <= |s| && FitBytes(s, maxBytes) == s[..n] && (n < |s| ==> Total(s[..n + 1]) > maxBytes)
  {
    if Total(s) > maxBytes && |s| > 1 {
      var front := s[..|s| - 1];
      FitBytesMaximal(front, maxBytes);
      var n := |FitBytes(front, maxBytes)|;
      assert front[..n] == s[..n];
      assert n < |front| ==> front[..n + 1] == s[..n + 1];
      assert n == |front| ==> s[..n + 1] == s;
    } else {
      assert s[..|s|] == s;
    }
  }

  /** Before bytes are considered: all the others, or all but the last of a full cache. */
  lemma FrontedIs(s: seq<Item>, capacity: nat, item: Item) returns (m: nat)
    requires capacity > 0 && DistinctKeys(s) && |s| <= capacity
    ensures m <= |Others(s, item.key)| && Fronted(s, capacity, item) == [item] + Others(s, item.key)[..m]
    ensures m < |Others(s, item.key)| ==> m + 1 == capacity
  {
    OthersExactly(s, item.key);
    var others := Others(s, item.key);
    m := |Fronted(s, capacity, item)| - 1;
    assert others[..|others|] == others;
  }

  lemma FittedPrefix(item: Item, others: seq<Item>, m: nat, n: nat, l: Limits)
    requires m <= |others| && 0 < n <= m + 1
    requires m < |others| ==> m + 1 == l.capacity
    requires n < m + 1 ==> Total(([item] + others[..m])[..n + 1]) > l.maxBytes
    ensures Fitted(([item] + others[..m])[..n], item, others, l)
  {
    var fronted := [item] + others[..m];
    assert fronted[..n] == [item] + others[..n - 1];
    if n < m + 1 { assert fronted[..n + 1] == [item] + others[..n]; }
  }

  /** What `InsertItem` makes of a sequence, without what it is made with. */
  lemma InsertFits(s: seq<Item>, l: Limits, item: Item)
    requires Sane(l) && Bounded(s, l)
    ensures Fitted(InsertItem(s, l, item), item, Others(s, item.key), l)
  {
    var m := FrontedIs(s, l.capacity, item);
    FitBytesMaximal(Fronted(s, l.capacity, item), l.maxBytes);
    FittedPrefix(item, Others(s, item.key), m, |InsertItem(s, l, item)|, l);
  }

  lemma OthersByLastUse(s: seq<Item>, key: CacheKey, ops: seq<Op>, l: Limits)
    requires DistinctKeys(s) && ByLastUse(s, ops, l)
    ensures ByLastUse(Others(s, key), ops, l)
  {
    OthersExactly(s, key);
    if Place(s, key).Some? { PartByLastUse(s, Place(s, key).value, ops, l); }
  }

  lemma FittedByLastUse(after: seq<Item>, item: Item, others: seq<Item>, ops: seq<Op>, l: Limits, op: Op)
    requires Fitted(after, item, others, l) && ByLastUse(others, ops, l) && Uses(ops, l, op, item.key)
    requires forall i :: 0 <= i < |others| ==> others[i].key != item.key
    ensures ByLastUse(after, ops + [op], l)
  {
    UsedLeads(item, others, ops, l, op);
    PrefixByLastUse([item] + others, after, ops + [op], l);
  }

  lemma InsertKeepsOrder(ops: seq<Op>, l: Limits, op: Op)
    requires Sane(l) && op.OpInsert? && ByLastUse(Run(ops, l), ops, l)
    ensures ByLastUse(Run(ops + [op], l), ops + [op], l)
  {
    var s := Run(ops, l);
    RunStep(ops, l, op);
    CacheableExactly(op.msg, op.now);
    if !Cacheable(op.msg) {
      UnusedKeeps(s, ops, l, op);
    } else {
      RunKeeps(ops, l);
      var item := Item(op.key, EntryOf(op.msg, op.now).value, SizeOf(op.msg));
      OthersExactly(s, op.key);
      OthersByLastUse(s, op.key, ops, l);
      InsertFits(s, l, item);
      FittedByLastUse(InsertItem(s, l, item), item, Others(s, op.key), ops, l, op);
    }
  }

  lemma GetKeepsOrder(ops: seq<Op>, l: Limits, op: Op)
    requires Sane(l) && op.OpGet? && ByLastUse(Run(ops, l), ops, l)
    ensures ByLastUse(Run(ops + [op], l), ops + [op], l)
  {
    var s := Run(ops, l);
    RunStep(ops, l, op);
    RunKeeps(ops, l);
    var at := Place(s, op.key);
    if at.Some? {
      PartByLastUse(s, at.value, ops, l);
      WithoutDistinct(s, at.value);
      if Get(s, l, op.key, op.now) == Miss {
        UnusedKeeps(Without(s, at.value), ops, l, op);
      } else {
        UsedLeads(s[at.value], Without(s, at.value), ops, l, op);
      }
    } else {
      UnusedKeeps(s, ops, l, op);
    }
  }

  // ---- Main results ----

  /** After every run the cache is ordered by last use, latest first. */
  lemma {:induction false} OrderedByLastUse(ops: seq<Op>, l: Limits)
    requires Sane(l)
    ensures ByLastUse(Run(ops, l), ops, l)
  {
    if ops != [] {
      var front, op := ops[..|ops| - 1], ops[|ops| - 1];
      OrderedByLastUse(front, l);
      assert front + [op] == ops;
      if op.OpInsert? { InsertKeepsOrder(front, l, op); } else { GetKeepsOrder(front, l, op); }
    }
  }

  /**
   A cacheable insert leads the cache and is followed by the other items in their order,
   as many as capacity and bytes allow; whatever it evicts was last used before all it keeps.
   */
  lemma InsertEvictsOldestUses(ops: seq<Op>, l: Limits, key: CacheKey, msg: Message, now: nat)
    requires Sane(l) && Cacheable(msg)
    ensures var before, after := Run(ops, l), Run(ops + [OpInsert(key, msg, now)], l);
            && after != [] && after[0].key == key && after[0].entry.answers == msg.answers
            && after[0].bytes == 2 * (if msg.wire.Some? then msg.wire.value else 4096) + 512
            && Fitted(after, after[0], Others(before, key), l)
            && forall out, kept :: out in before && out.key != key && out !in after && kept in after && kept.key != key ==>
                 LastUse(ops, l, out.key) < LastUse(ops, l, kept.key)
  {
    var op := OpInsert(key, msg, now);
    var before, after := Run(ops, l), Run(ops + [op], l);
    RunStep(ops, l, op);
    RunKeeps(ops, l);
    CacheableExactly(msg, now);
    OthersExactly(before, key);
    InsertFits(before, l, Item(key, EntryOf(msg, now).value, SizeOf(msg)));
    OrderedByLastUse(ops, l);
    var others := Others(before, key);
    OthersByLastUse(before, key, ops, l);
    forall out, kept | out in before && out.key != key && out !in after && kept in after && kept.key != key
      ensures LastUse(ops, l, out.key) < LastUse(ops, l, kept.key)
    {
      OutBehindKept(others, after, out, kept, ops, l);
    }
  }

  lemma OutBehindKept(others: seq<Item>, after: seq<Item>, out: Item, kept: Item, ops: seq<Op>, l: Limits)
    requires ByLastUse(others, ops, l) && 0 < |after| <= |others| + 1 && after == [after[0]] + others[..|after| - 1]
    requires out in others && out !in after && kept in after && kept != after[0]
    ensures LastUse(ops, l, out.key) < LastUse(ops, l, kept.key)
  {
    var i :| 0 <= i < |others| && others[i] == out;
    var j :| 0 <= j < |after| && after[j] == kept;
    assert forall k :: 0 <= k < |after| - 1 ==> after[k + 1] == others[k];
    assert others[j - 1] == kept;
  }

  /** A lookup takes nothing out but an entry of the key that has died. */
  lemma LookupKeepsItems(ops: seq<Op>, l: Limits, key: CacheKey, now: nat)
    requires Sane(l)
    ensures var before, after := Run(ops, l), Run(ops + [OpGet(key, now)], l);
            forall item :: item in after <==> item in before && (item.key == key ==> Get(before, l, key, now) != Miss)
  {
    var before := Run(ops, l);
    RunStep(ops, l, OpGet(key, now));
    RunKeeps(ops, l);
    var at := Place(before, key);
    if at.Some? {
      WithoutMembers(before, at.value);
      forall item | item in before && item.key == key ensures item == before[at.value] {
        var j :| 0 <= j < |before| && before[j] == item;
      }
    }
  }
}
