/**
 One upstream: the state behind its mutex, its atomics, and the sections of the code
 that change them. Nothing is awaited inside a section.
 */
module Upstream {
  import opened Basics
  import opened Wrappers

  /** Instants are in nanoseconds, backoffs in milliseconds. */
  const MILLI: nat := 1_000_000
  const MIN_RECONNECT_BACKOFF: nat := 500
  const MAX_RECONNECT_BACKOFF: nat := 30_000
  const MAX_PROBATION: nat := 5_000

  /** `probation` is present until the connection answers once. */
  datatype Conn =
    | Down(retryAt: nat)
    | Connecting
    | Connected(generation: nat, transport: nat, probation: Option<nat>)

  datatype Shared = Shared(conn: Conn, builds: nat, backoff: nat, version: nat, queries: nat, failures: nat)

  /** What a query that needs a connection finds. */
  datatype Found = Use(generation: nat, transport: nat) | Refused | MustWait

  predicate Due(conn: Conn, now: nat) {
    conn.Down? && conn.retryAt <= now
  }

  function Look(conn: Conn, now: nat): Found {
    match conn
    case Connected(g, t, _) => Use(g, t)
    case Down(retryAt) => if now < retryAt then Refused else MustWait
    case Connecting => MustWait
  }

  function Triggered(s: Shared, now: nat): Shared {
    if Due(s.conn, now) then s.(conn := Connecting) else s
  }

  /** A build that ends must not leave the upstream connecting. */
  function Guarded(s: Shared, now: nat): Shared {
    if s.conn.Connecting? then s.(conn := Down(now)) else s
  }

  predicate TearsDown(conn: Conn, generation: nat) {
    conn.Connected? && conn.generation == generation
  }

  /** The connection is dropped only if it is still the one of `generation`; probation is waited out. */
  function Invalidated(s: Shared, generation: nat, now: nat): Shared {
    if TearsDown(s.conn, generation) then
      s.(conn := Down(if s.conn.probation.Some? then s.conn.probation.value else now))
    else s
  }

  function Proven(s: Shared): Shared {
    if s.conn.Connected? then s.(conn := s.conn.(probation := None)) else s
  }

  /** The state a finished build installs. */
  function Outcome(generation: Option<nat>, transport: nat, backoff: nat, now: nat): Conn {
    match generation
    case Some(g) => Connected(g, transport, Some(now + Min(backoff, MAX_PROBATION) * MILLI))
    case None => Down(now + backoff * MILLI)
  }

  function NextBackoff(ok: bool, backoff: nat): nat {
    Min(backoff * 2, if ok then MAX_PROBATION else MAX_RECONNECT_BACKOFF)
  }

  /** A build's end as one step: backoff read, build numbered, state installed, backoff saved, guard dropped. */
  function Concluded(s: Shared, ok: bool, transport: nat, now: nat): Shared {
    var generation := if ok then Some(s.builds + 1) else None;
    s.(builds := if ok then s.builds + 1 else s.builds,
    conn := Outcome(generation, transport, s.backoff, now),
    backoff := NextBackoff(ok, s.backoff),
    version := s.version + 1)
  }

  class ReconnectingUpstream {
    var state: Conn
    var builds: nat
    var backoffMs: nat
    var repairDone: nat
    var queries: nat
    var failures: nat

    ghost function View(): Shared
      reads this
    {
      Shared(state, builds, backoffMs, repairDone, queries, failures)
    }

    constructor (initial: Conn)
      ensures View() == Shared(initial, if initial.Connected? then 1 else 0, MIN_RECONNECT_BACKOFF, 0, 0, 0)
    {
      state := initial;
      builds := if initial.Connected? then 1 else 0;
      backoffMs := MIN_RECONNECT_BACKOFF;
      repairDone, queries, failures := 0, 0, 0;
    }

    /** Down and due becomes connecting; only then is a build to be spawned. */
    method TriggerRepair(now: nat) returns (spawn: bool)
      modifies this`state
      ensures View() == Triggered(old(View()), now) && spawn == Due(old(state), now)
      ensures spawn <==> old(state).Down? && old(state).retryAt <= now
      ensures state == if spawn then Connecting else old(state)
    {
      spawn := false;
      match state
      case Down(retryAt) =>
        if now >= retryAt {
          state := Connecting;
          spawn := true;
        }
      case _ =>
    }

    /** The section of `acquire` that looks for a usable connection. */
    method Acquire(now: nat) returns (found: Found)
      ensures found == Look(state, now)
      ensures found.Refused? <==> state.Down? && now < state.retryAt
      ensures found.Use? <==> state.Connected?
      ensures found.Use? ==> found.generation == state.generation && found.transport == state.transport
    {
      match state
      case Connected(generation, transport, _) => return Use(generation, transport);
      case Down(retryAt) =>
        if now < retryAt { return Refused; }
        return MustWait;
      case Connecting => return MustWait;
    }

    /** What runs however a build ends. */
    method DropConcluded(now: nat)
      modifies this`state, this`repairDone
      ensures View() == Guarded(old(View()), now).(version := old(repairDone) + 1)
    {
      if state.Connecting? {
        state := Down(now);
      }
      repairDone := repairDone + 1;
    }

    /** `repair` from the moment its build has a result. */
    method FinishRepair(ok: bool, transport: nat, now: nat)
      modifies this`state, this`builds, this`backoffMs, this`repairDone
      ensures View() == Concluded(old(View()), ok, transport, now)
    {
      var backoff := backoffMs;
      if ok {
        builds := builds + 1;
        state := Connected(builds, transport, Some(now + Min(backoff, MAX_PROBATION) * MILLI));
        backoffMs := Min(backoff * 2, MAX_PROBATION);
      } else {
        state := Down(now + backoff * MILLI);
        backoffMs := Min(backoff * 2, MAX_RECONNECT_BACKOFF);
      }
      DropConcluded(now);
    }

    /** The section of `invalidate`; a torn-down connection is to be followed by `TriggerRepair`. */
    method Invalidate(generation: nat, now: nat) returns (torn: bool)
      modifies this`state
      ensures View() == Invalidated(old(View()), generation, now) && torn == TearsDown(old(state), generation)
      ensures torn <==> old(state).Connected? && old(state).generation == generation
      ensures torn ==> state.Down? && state.retryAt == if old(state).probation.Some? then old(state).probation.value else now
      ensures !torn ==> state == old(state)
    {
      if !state.Connected? || state.generation != generation {
        return false;
      }
      var retryAt := if state.probation.Some? then state.probation.value else now;
      state := Down(retryAt);
      return true;
    }

    method RecordSuccess()
      modifies this`state, this`backoffMs
      ensures View() == Proven(old(View()).(backoff := MIN_RECONNECT_BACKOFF))
      ensures state == if old(state).Connected? then old(state).(probation := None) else old(state)
    {
      backoffMs := MIN_RECONNECT_BACKOFF;
      if state.Connected? {
        state := state.(probation := None);
      }
    }

    method RecordFailure()
      modifies this`failures
      ensures View() == old(View()).(failures := old(failures) + 1)
    {
      failures := failures + 1;
    }
  }
}
