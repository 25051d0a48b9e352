/** Resolution failures held down per key, with doubling holds (section 3.2 of RFC 9520). */
module FailCache {
  import opened Basics
  import opened Wrappers
  import opened Lru

  /** Instants and durations are in nanoseconds. */
  const SECOND: nat := 1_000_000_000
  const FIRST_HOLD: nat := 5 * SECOND
  const MAX_HOLD: nat := 60 * SECOND
  const MAX_KEYS: nat := 4096

  datatype Failure = Failure(until: nat, hold: nat)

  type Table = map<CacheKey, Failure>

  /** The failure is remembered at `now`: held, or within MAX_HOLD of the hold's end. */
  predicate Remembered(f: Failure, now: nat) {
    now < f.until + MAX_HOLD
  }

  function NextHold(t: Table, key: CacheKey, now: nat): nat {
    if key in t && Remembered(t[key], now) then Min(t[key].hold * 2, MAX_HOLD) else FIRST_HOLD
  }

  function HeldFor(t: Table, key: CacheKey, now: nat): Option<nat> {
    if key in t && t[key].until > now then Some(t[key].until - now) else None
  }

  function Pruned(t: Table, now: nat): Table {
    map k | k in t && Remembered(t[k], now) :: t[k]
  }

  ghost predicate IsOldest(t: Table, key: CacheKey) {
    key in t && forall k :: k in t ==> t[key].until <= t[k].until
  }

  /** Recording a failure of `key` at `now` finds no room even after pruning. */
  predicate Crowded(t: Table, key: CacheKey, now: nat) {
    |t| >= MAX_KEYS && key !in t && |Pruned(t, now)| >= MAX_KEYS
  }

  /** The table with room for `key`; when even pruning makes none, `victim` is dropped. */
  function Room(t: Table, key: CacheKey, now: nat, victim: CacheKey): Table {
    if |t| < MAX_KEYS || key in t then t
    else if |Pruned(t, now)| < MAX_KEYS then Pruned(t, now)
    else Pruned(t, now) - {victim}
  }

  function After(t: Table, key: CacheKey, now: nat): Failure {
    Failure(now + NextHold(t, key, now), NextHold(t, key, now))
  }

  /** A failure is recorded; which of several equally old holds is dropped is left open. */
  ghost predicate Recorded(t: Table, key: CacheKey, now: nat, t': Table) {
    exists victim :: RecordedDropping(t, key, now, victim, t')
  }

  ghost predicate RecordedDropping(t: Table, key: CacheKey, now: nat, victim: CacheKey, t': Table) {
    && (Crowded(t, key, now) ==> IsOldest(Pruned(t, now), victim))
    && t' == Room(t, key, now, victim)[key := After(t, key, now)]
  }

  /** No hold of the table ends before this one. */
  ghost predicate EndsFirst(f: Failure, t: Table) {
    forall k :: k in t ==> f.until <= t[k].until
  }

  class FailureCache {
    var inner: Table

    constructor ()
      ensures inner == map[]
    {
      inner := map[];
    }

    /** Time left on the key's hold, if it is held. */
    method Held(key: CacheKey, now: nat) returns (left: Option<nat>)
      ensures left == HeldFor(inner, key, now)
      ensures left.Some? <==> key in inner && now < inner[key].until
      ensures left.Some? ==> now + left.value == inner[key].until
    {
      if key in inner && inner[key].until >= now && inner[key].until - now != 0 {
        return Some(inner[key].until - now);
      }
      return None;
    }

    method Record(key: CacheKey, now: nat) returns (hold: nat)
      modifies this
      ensures hold == NextHold(old(inner), key, now)
      ensures Recorded(old(inner), key, now, inner)
      ensures key in inner && inner[key] == Failure(now + hold, hold)
      ensures forall out :: out in old(inner) && out !in inner ==>
                now >= old(inner)[out].until + MAX_HOLD || EndsFirst(old(inner)[out], inner - {key})
    {
      hold := FIRST_HOLD;
      if key in inner && now < inner[key].until + MAX_HOLD {
        hold := Min(inner[key].hold * 2, MAX_HOLD);
      }
      var victim := key;
      if |inner| >= MAX_KEYS && key !in inner {
        inner := Pruned(inner, now);
        if |inner| >= MAX_KEYS {
          victim := Oldest(inner);
          inner := inner - {victim};
        }
      }
      inner := inner[key := Failure(now + hold, hold)];
      assert RecordedDropping(old(inner), key, now, victim, inner);
    }

    method Clear(key: CacheKey)
      modifies this
      ensures inner == old(inner) - {key}
    {
      inner := inner - {key};
    }
  }

  /** A key whose hold ends first. */
  method Oldest(t: Table) returns (oldest: CacheKey)
    requires |t| > 0
    ensures IsOldest(t, oldest)
  {
    var rest := t.Keys;
    assert rest != {};
    oldest :| oldest in rest;
    rest := rest - {oldest};
    while rest != {}
      invariant oldest in t && rest <= t.Keys
      invariant forall k :: k in t && k !in rest ==> t[oldest].until <= t[k].until
    {
      var k :| k in rest;
      if t[k].until < t[oldest].until { oldest := k; }
      rest := rest - {k};
    }
  }

  // ---- What every run keeps ----

  ghost predicate HoldInBounds(f: Failure) {
    FIRST_HOLD <= f.hold <= MAX_HOLD && f.hold <= f.until
  }

  ghost predicate Sound(t: Table) {
    |t| <= MAX_KEYS && forall k :: k in t ==> HoldInBounds(t[k])
  }

  lemma SubtableSize(t: Table, u: Table)
    requires t.Keys <= u.Keys
    ensures |t| <= |u|
  {
    SubsetSize(t.Keys, u.Keys);
    assert |t| == |t.Keys| && |u| == |u.Keys|;
  }

  lemma {:induction false} SubsetSize<T>(a: set<T>, b: set<T>)
    requires a <= b
    ensures |a| <= |b|
  {
    if x :| x in a {
      SubsetSize(a - {x}, b - {x});
    }
  }

  lemma RoomFits(t: Table, key: CacheKey, now: nat, victim: CacheKey)
    requires |t| <= MAX_KEYS && (Crowded(t, key, now) ==> victim in Pruned(t, now))
    ensures |Room(t, key, now, victim)| < MAX_KEYS || (key in t && Room(t, key, now, victim) == t)
  {
    var pruned := Pruned(t, now);
    SubtableSize(pruned, t);
    if Crowded(t, key, now) {
      assert (pruned - {victim}).Keys == pruned.Keys - {victim};
      assert |pruned - {victim}| == |pruned.Keys - {victim}|;
    }
  }

  lemma AddedSize(t: Table, key: CacheKey, f: Failure)
    ensures |t[key := f]| == if key in t then |t| else |t| + 1
  {
    assert t[key := f].Keys == t.Keys + {key};
    assert |t[key := f]| == |t.Keys + {key}|;
  }

  /**
   At most 4096 keys are tracked, and every hold is within the bounds that section 3.2
   of RFC 9520 sets, 1 second and 5 minutes; the failure just recorded is always kept.
   */
  lemma RecordKeeps(t: Table, key: CacheKey, now: nat, t': Table)
    requires Sound(t) && Recorded(t, key, now, t')
    ensures Sound(t') && key in t' && t'[key] == Failure(now + NextHold(t, key, now), NextHold(t, key, now))
    ensures SECOND <= NextHold(t, key, now) <= 300 * SECOND
  {
    var victim :| RecordedDropping(t, key, now, victim, t');
    RoomFits(t, key, now, victim);
    AddedSize(Room(t, key, now, victim), key, After(t, key, now));
    RoomIsPart(t, key, now, victim);
  }

  // ---- Runs ----

  datatype Event = Failed(key: CacheKey, now: nat) | Resolved(key: CacheKey)

  /** A table that is never pruned. */
  function Unbounded(events: seq<Event>): Table {
    if events == [] then map[]
    else
      var t := Unbounded(events[..|events| - 1]);
      match events[|events| - 1]
      case Failed(key, now) => t[key := After(t, key, now)]
      case Resolved(key) => t - {key}
  }

  ghost predicate Stepped(t: Table, e: Event, t': Table) {
    match e
    case Failed(key, now) => Recorded(t, key, now, t')
    case Resolved(key) => t' == t - {key}
  }

  /** `tables` are the successive contents of a table that starts empty and goes through `events`. */
  ghost predicate Run(tables: seq<Table>, events: seq<Event>) {
    && |tables| == |events| + 1 && tables[0] == map[]
    && forall i :: 0 <= i < |events| ==> Stepped(tables[i], events[i], tables[i + 1])
  }

  lemma RunFront(tables: seq<Table>, events: seq<Event>)
    requires Run(tables, events) && events != []
    ensures Run(tables[..|events|], events[..|events| - 1])
    ensures Stepped(tables[|events| - 1], events[|events| - 1], tables[|events|])
    ensures tables[..|events|][|events| - 1] == tables[|events| - 1]
  {
    var ts, es := tables[..|events|], events[..|events| - 1];
    forall i | 0 <= i < |es| ensures Stepped(ts[i], es[i], ts[i + 1]) {
      assert Stepped(tables[i], events[i], tables[i + 1]);
    }
  }

  lemma {:induction false} RunKeeps(tables: seq<Table>, events: seq<Event>)
    requires Run(tables, events)
    ensures Sound(tables[|events|])
  {
    if events != [] {
      RunFront(tables, events);
      RunKeeps(tables[..|events|], events[..|events| - 1]);
      var t := tables[|events| - 1];
      match events[|events| - 1]
      case Failed(key, now) =>
        RecordKeeps(t, key, now, tables[|events|]);
      case Resolved(key) =>
        SubtableSize(t - {key}, t);
    }
  }

  // ---- The ladder ----

  /** The hold of the n-th consecutive failure. */
  function Ladder(n: nat): nat
    requires n > 0
  {
    Min(FIRST_HOLD * Pow2(n - 1), MAX_HOLD)
  }

  /** Each rung is the one before it doubled, up to the cap. */
  lemma LadderDoubles(n: nat)
    requires n > 0
    ensures Ladder(n + 1) == Min(Ladder(n) * 2, MAX_HOLD)
    ensures FIRST_HOLD <= Ladder(n) <= MAX_HOLD
    ensures n >= 5 ==> Ladder(n) == MAX_HOLD
  {
    Pow2Grows(n - 1);
  }

  lemma {:induction false} Pow2Grows(n: nat)
    ensures Pow2(n) >= 1 && (n >= 4 ==> Pow2(n) >= 16)
  {
    if n > 0 { Pow2Grows(n - 1); }
    if n == 4 { assert Pow2(4) == 2 * Pow2(3) && Pow2(3) == 2 * Pow2(2) && Pow2(2) == 2 * Pow2(1); }
  }

  /** How many failures in a row, up to the last event, and when the latest was. */
  datatype Streak = NoFailure | InARow(count: nat, latest: nat)

  /**
   A failure continues a streak when it comes within MAX_HOLD of the end of the hold its
   predecessor earned; a success ends the streak.
   */
  function StreakOf(events: seq<Event>, key: CacheKey): (s: Streak)
    ensures s.InARow? ==> s.count > 0
  {
    if events == [] then NoFailure
    else
      var before := StreakOf(events[..|events| - 1], key);
      match events[|events| - 1]
      case Resolved(k) => if k == key then NoFailure else before
      case Failed(k, now) =>
        if k != key then before
        else if before.InARow? && now < before.latest + Ladder(before.count) + MAX_HOLD then InARow(before.count + 1, now)
        else InARow(1, now)
  }

  /** The n-th consecutive failure holds exactly min(5 * 2^(n-1), 60) seconds from when it happened. */
  lemma {:induction false} LadderExact(events: seq<Event>, key: CacheKey)
    ensures match StreakOf(events, key)
            case NoFailure => key !in Unbounded(events)
            case InARow(n, latest) =>
              key in Unbounded(events) && Unbounded(events)[key] == Failure(latest + Ladder(n), Ladder(n))
  {
    if events != [] {
      var front := events[..|events| - 1];
      LadderExact(front, key);
      if StreakOf(front, key).InARow? { LadderDoubles(StreakOf(front, key).count); }
      assert Ladder(1) == FIRST_HOLD;
    }
  }

  // ---- Pruning is invisible ----

  /** No event dropped a hold that was still remembered. */
  ghost predicate NeverCrowded(tables: seq<Table>, events: seq<Event>)
    requires |tables| == |events| + 1
  {
    forall i :: 0 <= i < |events| ==> events[i].Failed? ==> !Crowded(tables[i], events[i].key, events[i].now)
  }

  ghost predicate ClockRuns(events: seq<Event>, now: nat) {
    && (forall i :: 0 <= i < |events| ==> events[i].Failed? ==> events[i].now <= now)
    && (forall i, j :: 0 <= i < j < |events| ==> events[i].Failed? && events[j].Failed? ==> events[i].now <= events[j].now)
  }

  /** `t` is `u` without some keys that are forgotten by `now`. */
  ghost predicate Forgets(t: Table, u: Table, now: nat) {
    forall k :: if k in t then k in u && t[k] == u[k] else k in u ==> !Remembered(u[k], now)
  }

  /** A table that only forgot what is no longer remembered answers like the unbounded one. */
  lemma ForgettingIsInvisible(t: Table, u: Table, now: nat, later: nat, key: CacheKey)
    requires Forgets(t, u, now) && now <= later
    ensures HeldFor(t, key, later) == HeldFor(u, key, later)
    ensures NextHold(t, key, later) == NextHold(u, key, later)
    ensures Forgets(t, u, later)
  {
  }

  lemma RecordForgets(t: Table, u: Table, key: CacheKey, now: nat, t': Table)
    requires Forgets(t, u, now) && Recorded(t, key, now, t') && !Crowded(t, key, now)
    ensures Forgets(t', u[key := After(u, key, now)], now)
  {
    ForgettingIsInvisible(t, u, now, now, key);
  }

  function TimeOf(e: Event, otherwise: nat): nat {
    if e.Failed? then e.now else otherwise
  }

  function LastTime(events: seq<Event>): nat {
    if events == [] then 0
    else if events[|events| - 1].Failed? then events[|events| - 1].now
    else LastTime(events[..|events| - 1])
  }

  lemma {:induction false} LastTimeBound(events: seq<Event>, now: nat)
    requires ClockRuns(events, now)
    ensures LastTime(events) <= now
    ensures events != [] ==> ClockRuns(events[..|events| - 1], TimeOf(events[|events| - 1], now))
  {
    if events != [] {
      var front, last := events[..|events| - 1], events[|events| - 1];
      assert ClockRuns(front, TimeOf(last, now)) by {
        forall i | 0 <= i < |front| ensures front[i] == events[i] {
        }
      }
      if !last.Failed? { LastTimeBound(front, now); }
    }
  }

  lemma {:induction false} RunForgets(tables: seq<Table>, events: seq<Event>, now: nat)
    requires Run(tables, events) && NeverCrowded(tables, events) && ClockRuns(events, now)
    ensures Forgets(tables[|events|], Unbounded(events), LastTime(events))
  {
    if events != [] {
      var n := |events| - 1;
      var front, last := events[..n], events[n];
      RunFront(tables, events);
      LastTimeBound(events, now);
      FrontNeverCrowded(tables, events);
      RunForgets(tables[..n + 1], front, TimeOf(last, now));
      if last.Failed? {
        LastTimeBound(front, last.now);
        ForgettingIsInvisible(tables[n], Unbounded(front), LastTime(front), last.now, last.key);
        RecordForgets(tables[n], Unbounded(front), last.key, last.now, tables[n + 1]);
      }
    }
  }

  lemma FrontNeverCrowded(tables: seq<Table>, events: seq<Event>)
    requires |tables| == |events| + 1 && NeverCrowded(tables, events) && events != []
    ensures NeverCrowded(tables[..|events|], events[..|events| - 1])
  {
  }

  /** On a table that is never pruned a key is held until the hold of its latest failure in a row has passed. */
  lemma HeldByStreak(events: seq<Event>, key: CacheKey, now: nat)
    ensures HeldFor(Unbounded(events), key, now) ==
            match StreakOf(events, key)
            case InARow(n, latest) => if now < latest + Ladder(n) then Some(latest + Ladder(n) - now) else None
            case NoFailure => None
  {
    LadderExact(events, key);
  }

  lemma NextByStreak(events: seq<Event>, key: CacheKey, now: nat)
    ensures NextHold(Unbounded(events), key, now) ==
            match StreakOf(events + [Failed(key, now)], key)
            case InARow(n, _) => Ladder(n)
            case NoFailure => 0
  {
    var all := events + [Failed(key, now)];
    assert all[..|all| - 1] == events;
    LadderExact(all, key);
  }

  /**
   With a clock that never goes back, until a hold that is still remembered has to be
   dropped the bounded table cannot be told from an unbounded one: whether and how long a
   key is held, and the hold its next failure gets, follow the ladder of consecutive failures.
   */
  lemma PruningIsInvisible(tables: seq<Table>, events: seq<Event>, now: nat, key: CacheKey)
    requires Run(tables, events) && NeverCrowded(tables, events) && ClockRuns(events, now)
    ensures HeldFor(tables[|events|], key, now) ==
            match StreakOf(events, key)
            case InARow(n, latest) => if now < latest + Ladder(n) then Some(latest + Ladder(n) - now) else None
            case NoFailure => None
    ensures NextHold(tables[|events|], key, now) ==
            match StreakOf(events + [Failed(key, now)], key)
            case InARow(n, _) => Ladder(n)
            case NoFailure => 0
  {
    RunForgets(tables, events, now);
    LastTimeBound(events, now);
    ForgettingIsInvisible(tables[|events|], Unbounded(events), LastTime(events), now, key);
    HeldByStreak(events, key, now);
    NextByStreak(events, key, now);
  }

  // ---- With drops ----

  /** No key is held longer than in `u`. */
  ghost predicate HoldsNoLonger(t: Table, u: Table) {
    forall k :: k in t ==> k in u && t[k].until <= u[k].until && t[k].hold <= u[k].hold
  }

  lemma {:induction false} UnboundedHolds(events: seq<Event>)
    ensures forall k :: k in Unbounded(events) ==> FIRST_HOLD <= Unbounded(events)[k].hold <= MAX_HOLD
  {
    if events != [] { UnboundedHolds(events[..|events| - 1]); }
  }

  lemma RecordHoldsNoLonger(t: Table, u: Table, key: CacheKey, now: nat, t': Table)
    requires HoldsNoLonger(t, u) && Recorded(t, key, now, t')
    requires forall k :: k in u ==> FIRST_HOLD <= u[k].hold <= MAX_HOLD
    ensures HoldsNoLonger(t', u[key := After(u, key, now)])
  {
    var victim :| RecordedDropping(t, key, now, victim, t');
    RoomIsPart(t, key, now, victim);
    assert NextHold(t, key, now) <= NextHold(u, key, now);
    PartHoldsNoLonger(Room(t, key, now, victim), t, u, key, After(t, key, now), After(u, key, now));
  }

  lemma PartHoldsNoLonger(room: Table, t: Table, u: Table, key: CacheKey, f: Failure, g: Failure)
    requires HoldsNoLonger(t, u) && PartOf(room, t) && f.until <= g.until && f.hold <= g.hold
    ensures HoldsNoLonger(room[key := f], u[key := g])
  {
  }

  ghost predicate PartOf(part: Table, t: Table) {
    forall k :: k in part ==> k in t && t[k] == part[k]
  }

  lemma RoomIsPart(t: Table, key: CacheKey, now: nat, victim: CacheKey)
    ensures PartOf(Room(t, key, now, victim), t)
  {
  }

  /** Whatever is dropped, on any clock, the bounded table never holds a key longer than the unbounded one. */
  lemma {:induction false} NeverHoldsLonger(tables: seq<Table>, events: seq<Event>)
    requires Run(tables, events)
    ensures HoldsNoLonger(tables[|events|], Unbounded(events))
  {
    if events != [] {
      var n := |events| - 1;
      RunFront(tables, events);
      NeverHoldsLonger(tables[..n + 1], events[..n]);
      UnboundedHolds(events[..n]);
      var t, u := tables[n], Unbounded(events[..n]);
      match events[n]
      case Failed(key, now) =>
        RecordHoldsNoLonger(t, u, key, now, tables[n + 1]);
      case Resolved(key) =>
    }
  }
}
