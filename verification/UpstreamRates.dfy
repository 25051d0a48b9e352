/**
 Runs of one upstream in which what the code does without awaiting is one step: a
 trigger with the spawn it owes, and a repair from its build's result to its end.
 They are runs of the finest interleaving too; here builds never overlap and the rate
 at which connections are rebuilt is bounded.
 */
module UpstreamRates {
  import opened Basics
  import opened Wrappers
  import opened Upstream
  import opened UpstreamRuns

  datatype Move =
    | Wait(elapsed: nat)
    | Enter
    | Advance(q: nat, what: QueryStep)
    | Conclude(t: nat, ok: bool)
    | Abandoned(t: nat)

  predicate CanMove(s: State, m: Move) {
    match m
    case Wait(_) => true
    case Enter => true
    case Advance(q, what) => QueryCan(s, q, what)
    case Conclude(t, _) => t in s.tasks && s.tasks[t].Building?
    case Abandoned(t) => t in s.tasks && s.tasks[t].Building?
  }

  predicate StartsBuild(s: State, what: QueryStep) {
    (what.Trigger? || what.Retrigger?) && Due(s.shared.conn, s.now)
  }

  function DoQuery(s: State, q: nat, what: QueryStep): State
    requires QueryCan(s, q, what)
  {
    var s' := QueryDo(s, q, what);
    if StartsBuild(s, what) then SetTask(s', s.nextTask, Building) else s'
  }

  function DoConclude(s: State, t: nat, ok: bool): State {
    var g := s.shared.builds + 1;
    s.(shared := Concluded(s.shared, ok, t, s.now),
    tasks := s.tasks - {t},
    made := if ok then s.made[g := t] else s.made,
    installed := if ok then s.installed + [g] else s.installed)
  }

  function DoAbandoned(s: State, t: nat): State {
    s.(shared := Guarded(s.shared, s.now).(version := s.shared.version + 1), tasks := s.tasks - {t})
  }

  function DoMove(s: State, m: Move): State
    requires CanMove(s, m)
  {
    match m
    case Wait(elapsed) => s.(now := s.now + elapsed)
    case Enter => DoBegin(s)
    case Advance(q, what) => DoQuery(s, q, what)
    case Conclude(t, ok) => DoConclude(s, t, ok)
    case Abandoned(t) => DoAbandoned(s, t)
  }

  ghost predicate MoveRun(states: seq<State>, moves: seq<Move>) {
    && |states| == |moves| + 1 && Initial(states[0])
    && forall i :: 0 <= i < |moves| ==> CanMove(states[i], moves[i]) && states[i + 1] == DoMove(states[i], moves[i])
  }

  // ---- A move is a few of the finest steps ----

  datatype Steps = Done | First(a: Action, rest: Steps)

  /** The steps are all possible, one after the other, and lead from `s` to `s'`. */
  ghost predicate Leads(s: State, steps: Steps, s': State)
    decreases steps
  {
    match steps
    case Done => s' == s
    case First(a, rest) => Can(s, a) && Leads(Do(s, a), rest, s')
  }

  function OfOne(t: nat, step: TaskStep, rest: Steps): Steps {
    First(OfTask(t, step), rest)
  }

  function Ending(t: nat): Steps {
    OfOne(t, Guard, OfOne(t, Bump, Done))
  }

  function Installing(t: nat): Steps {
    OfOne(t, ReadClock, OfOne(t, Install, OfOne(t, Save, Ending(t))))
  }

  function StepsOf(s: State, m: Move): Steps {
    match m
    case Wait(elapsed) => First(Tick(elapsed), Done)
    case Enter => First(Begin, Done)
    case Advance(q, what) => First(OfQuery(q, what), if StartsBuild(s, what) then OfOne(s.nextTask, Spawn, Done) else Done)
    case Conclude(t, ok) =>
      OfOne(t, Finish(ok), OfOne(t, Load, if ok then OfOne(t, Number, Installing(t)) else Installing(t)))
    case Abandoned(t) => OfOne(t, Abandon, Ending(t))
  }

  lemma EndingLeads(s: State, t: nat)
    requires t in s.tasks && s.tasks[t].Guarding?
    ensures Leads(s, Ending(t), DoAbandoned(s, t))
  {
    var s1 := TaskDo(s, t, Guard);
    var s2 := TaskDo(s1, t, Bump);
    assert s2 == DoAbandoned(s, t);
    assert Leads(s2, Done, s2);
    assert Leads(s1, OfOne(t, Bump, Done), s2);
  }

  /** What is left of a state that holds the outcome of task `t`. */
  function Settled(s: State, t: nat, next: Conn, save: nat): State {
    s.(shared := s.shared.(conn := next, backoff := save, version := s.shared.version + 1),
    tasks := s.tasks - {t},
    installed := if next.Connected? then s.installed + [next.generation] else s.installed)
  }

  lemma InstallingLeads(s: State, t: nat)
    requires TaskCan(s, t, ReadClock)
    ensures var task := s.tasks[t];
            var generation := if task.Numbered? then Some(task.generation) else None;
            Leads(s, Installing(t), Settled(s, t, Outcome(generation, t, task.backoff, s.now),
                                            NextBackoff(task.Numbered?, task.backoff)))
  {
    var task := s.tasks[t];
    var s1 := TaskDo(s, t, ReadClock);
    var s2 := TaskDo(s1, t, Install);
    var s3 := TaskDo(s2, t, Save);
    var s4 := DoAbandoned(s3, t);
    EndingLeads(s3, t);
    assert s4.tasks == s.tasks - {t};
    assert Leads(s2, OfOne(t, Save, Ending(t)), s4);
    assert Leads(s1, OfOne(t, Install, OfOne(t, Save, Ending(t))), s4);
  }

  lemma ConcludeLeads(s: State, t: nat, ok: bool)
    requires t in s.tasks && s.tasks[t].Building?
    ensures Leads(s, StepsOf(s, Conclude(t, ok)), DoConclude(s, t, ok))
  {
    var s1 := TaskDo(s, t, Finish(ok));
    var s2 := TaskDo(s1, t, Load);
    var end := DoConclude(s, t, ok);
    if ok {
      var s3 := TaskDo(s2, t, Number);
      InstallingLeads(s3, t);
      assert s3.tasks - {t} == end.tasks;
      assert Leads(s2, OfOne(t, Number, Installing(t)), end);
      assert Leads(s1, OfOne(t, Load, OfOne(t, Number, Installing(t))), end);
    } else {
      InstallingLeads(s2, t);
      assert s2.tasks - {t} == end.tasks;
      assert Leads(s1, OfOne(t, Load, Installing(t)), end);
    }
  }

  lemma QueryLeads(s: State, q: nat, what: QueryStep)
    requires QueryCan(s, q, what)
    ensures Leads(s, StepsOf(s, Advance(q, what)), DoQuery(s, q, what))
  {
    var s1 := QueryDo(s, q, what);
    if StartsBuild(s, what) {
      var s2 := TaskDo(s1, s.nextTask, Spawn);
      assert Leads(s2, Done, s2);
      assert Leads(s1, OfOne(s.nextTask, Spawn, Done), s2);
    } else {
      assert Leads(s1, Done, s1);
    }
  }

  /** Every move is a sequence of steps of the finest interleaving. */
  lemma MoveIsSteps(s: State, m: Move)
    requires CanMove(s, m)
    ensures Leads(s, StepsOf(s, m), DoMove(s, m))
  {
    var s' := DoMove(s, m);
    match m
    case Wait(elapsed) => assert Leads(s', Done, s');
    case Enter => assert Leads(s', Done, s');
    case Advance(q, what) => QueryLeads(s, q, what);
    case Conclude(t, ok) => ConcludeLeads(s, t, ok);
    case Abandoned(t) =>
      var s1 := TaskDo(s, t, Abandon);
      EndingLeads(s1, t);
      assert s1.tasks - {t} == s.tasks - {t};
  }

  lemma {:induction false} StepsKeep(s: State, steps: Steps, s': State)
    requires Invariant(s) && Leads(s, steps, s')
    ensures Invariant(s')
    decreases steps
  {
    match steps
    case Done =>
    case First(a, rest) =>
      StepKeeps(s, a);
      StepsKeep(Do(s, a), rest, s');
  }

  // ---- One build at a time ----

  /** Connecting exactly while one build runs, and never two builds. */
  ghost predicate OneBuild(s: State) {
    && (forall t :: t in s.tasks ==> s.tasks[t].Building?)
    && (forall t, u :: t in s.tasks && u in s.tasks ==> t == u)
    && (s.shared.conn.Connecting? <==> s.tasks != map[])
  }

  lemma QueryKeepsOneBuild(s: State, q: nat, what: QueryStep)
    requires OneBuild(s) && QueryCan(s, q, what)
    ensures OneBuild(DoQuery(s, q, what))
  {
    var s' := DoQuery(s, q, what);
    if StartsBuild(s, what) {
      assert s.tasks == map[];
      assert s'.tasks == map[s.nextTask := Building];
      assert s.nextTask in s'.tasks;
    } else {
      assert s'.tasks == s.tasks;
      assert s'.shared.conn.Connecting? <==> s.shared.conn.Connecting?;
    }
  }

  lemma MoveKeepsOneBuild(s: State, m: Move)
    requires OneBuild(s) && CanMove(s, m)
    ensures OneBuild(DoMove(s, m))
  {
    match m
    case Advance(q, what) => QueryKeepsOneBuild(s, q, what);
    case Conclude(t, ok) => assert s.tasks - {t} == map[];
    case Abandoned(t) => assert s.tasks - {t} == map[];
    case _ =>
  }

  lemma {:induction false} MoveRunKeeps(states: seq<State>, moves: seq<Move>, i: nat)
    requires MoveRun(states, moves) && i < |states|
    ensures Invariant(states[i]) && OneBuild(states[i])
  {
    if i == 0 {
      InitialHolds(states[0]);
    } else {
      MoveRunKeeps(states, moves, i - 1);
      MoveIsSteps(states[i - 1], moves[i - 1]);
      StepsKeep(states[i - 1], StepsOf(states[i - 1], moves[i - 1]), states[i]);
      MoveKeepsOneBuild(states[i - 1], moves[i - 1]);
    }
  }

  /** Exactly one build runs while the upstream is connecting, and none otherwise. */
  lemma OneBuildAtATime(states: seq<State>, moves: seq<Move>, i: nat)
    requires MoveRun(states, moves) && i < |states|
    ensures states[i].shared.conn.Connecting? <==> |states[i].tasks| == 1
    ensures !states[i].shared.conn.Connecting? <==> |states[i].tasks| == 0
  {
    MoveRunKeeps(states, moves, i);
    var tasks := states[i].tasks;
    if tasks != map[] {
      assert tasks.Keys != {};
      var t :| t in tasks;
      assert tasks == map[t := Building];
    }
  }

  // ---- The rebuild-rate ladder ----

  /**
   The shortest gap, in milliseconds, after the k-th build in a row, counted from 0. In a
   row of failed builds alone the gaps grow further.
   */
  function LadderMs(k: nat, failed: bool): nat {
    Min(MIN_RECONNECT_BACKOFF * Pow2(k), if failed then MAX_RECONNECT_BACKOFF else MAX_PROBATION)
  }

  predicate AnswerMove(m: Move) {
    m.Advance? && (m.what.Accept? || m.what.Prove?)
  }

  /** The move ends a row: an answer, an abandoned build, or among failed builds one that succeeds. */
  predicate EndsRow(m: Move, failed: bool) {
    m.Abandoned? || AnswerMove(m) || (failed && m.Conclude? && m.ok)
  }

  /** Builds in a row that have ended among the first `n` moves. */
  function Rung(moves: seq<Move>, n: nat, failed: bool): nat
    requires n <= |moves|
  {
    if n == 0 then 0 else RungAfter(moves[n - 1], Rung(moves, n - 1, failed), failed)
  }

  function RungAfter(m: Move, rung: nat, failed: bool): nat {
    if EndsRow(m, failed) then 0
    else if m.Conclude? then rung + 1
    else rung
  }

  /** When the last build among the first `n` moves ended. */
  function LastEnd(states: seq<State>, moves: seq<Move>, n: nat): nat
    requires n <= |moves| && |states| == |moves| + 1
  {
    if n == 0 then 0
    else if moves[n - 1].Conclude? then states[n - 1].now
    else LastEnd(states, moves, n - 1)
  }

  /** With `rung` builds ended in a row, the last of them at `end`. */
  ghost predicate Paced(s: State, rung: nat, end: nat, failed: bool) {
    && s.shared.backoff >= LadderMs(rung, failed)
    && (rung > 0 ==> NotBefore(s.shared.conn, end + LadderMs(rung - 1, failed) * MILLI))
  }

  /** No build starts before `time` unless the connection answers. */
  ghost predicate NotBefore(conn: Conn, time: nat) {
    match conn
    case Down(retryAt) => retryAt >= time
    case Connecting => true
    case Connected(_, _, probation) => probation.Some? && probation.value >= time
  }

  lemma LadderDoubles(k: nat, backoff: nat, ok: bool, failed: bool)
    requires backoff >= LadderMs(k, failed) && !(failed && ok)
    ensures NextBackoff(ok, backoff) >= LadderMs(k + 1, failed)
    ensures !failed ==> Min(backoff, MAX_PROBATION) >= LadderMs(k, failed)
  {
  }

  lemma ConcludeKeepsPaced(s: State, t: nat, ok: bool, rung: nat, end: nat, failed: bool)
    requires Paced(s, rung, end, failed) && !(failed && ok)
    ensures Paced(DoConclude(s, t, ok), rung + 1, s.now, failed)
  {
    LadderDoubles(rung, s.shared.backoff, ok, failed);
  }

  lemma QueryKeepsPaced(s: State, q: nat, what: QueryStep, rung: nat, end: nat, failed: bool)
    requires Paced(s, rung, end, failed) && QueryCan(s, q, what)
    ensures !what.Accept? && !what.Prove? ==> Paced(DoQuery(s, q, what), rung, end, failed)
  {
  }

  lemma ResetIsPaced(s: State, m: Move, end: nat, failed: bool)
    requires Invariant(s) && CanMove(s, m) && EndsRow(m, failed)
    ensures Paced(DoMove(s, m), 0, end, failed)
  {
    assert Pow2(0) == 1;
  }

  lemma MoveKeepsPaced(s: State, m: Move, rung: nat, end: nat, failed: bool)
    requires Invariant(s) && CanMove(s, m) && Paced(s, rung, end, failed)
    ensures Paced(DoMove(s, m), RungAfter(m, rung, failed), if m.Conclude? then s.now else end, failed)
  {
    if EndsRow(m, failed) {
      ResetIsPaced(s, m, if m.Conclude? then s.now else end, failed);
    } else if m.Conclude? {
      ConcludeKeepsPaced(s, m.t, m.ok, rung, end, failed);
    } else if m.Advance? {
      QueryKeepsPaced(s, m.q, m.what, rung, end, failed);
    }
  }

  lemma {:induction false} RunIsPaced(states: seq<State>, moves: seq<Move>, i: nat, failed: bool)
    requires MoveRun(states, moves) && i < |states|
    ensures Paced(states[i], Rung(moves, i, failed), LastEnd(states, moves, i), failed)
  {
    if i == 0 {
      assert Pow2(0) == 1;
    } else {
      RunIsPaced(states, moves, i - 1, failed);
      MoveRunKeeps(states, moves, i - 1);
      MoveKeepsPaced(states[i - 1], moves[i - 1], Rung(moves, i - 1, failed), LastEnd(states, moves, i - 1), failed);
    }
  }

  lemma PacedStart(s: State, k: nat, end: nat, failed: bool)
    requires Paced(s, k + 1, end, failed) && Due(s.shared.conn, s.now)
    ensures s.now >= end + LadderMs(k, failed) * MILLI
  {
  }

  lemma BuildsStartWhenDue(s: State, m: Move)
    requires CanMove(s, m) && !s.shared.conn.Connecting? && DoMove(s, m).shared.conn.Connecting?
    ensures Due(s.shared.conn, s.now)
  {
  }

  /**
   The rebuild-rate ladder: with neither an answer nor an abandoned build in between, from
   the end of the k-th build in a row (counted from 0) to the start of the next at least
   min(500 * 2^k, 5000) ms pass, whether the builds failed or never answered; in a row of
   failed builds alone at least min(500 * 2^k, 30000) ms.
   */
  lemma RebuildLadder(states: seq<State>, moves: seq<Move>, i: nat, k: nat, failed: bool)
    requires MoveRun(states, moves) && i < |moves| && Rung(moves, i, failed) == k + 1
    requires !states[i].shared.conn.Connecting? && states[i + 1].shared.conn.Connecting?
    ensures states[i].now >= LastEnd(states, moves, i) + LadderMs(k, failed) * MILLI
  {
    RunIsPaced(states, moves, i, failed);
    assert states[i + 1] == DoMove(states[i], moves[i]);
    BuildsStartWhenDue(states[i], moves[i]);
    PacedStart(states[i], k, LastEnd(states, moves, i), failed);
  }

  // ---- How long a failed build waits, exactly ----

  /** A build that ends: a connection on probation for at most 5 s, or a wait of the whole backoff, which doubles up to its cap. */
  lemma ConcludeExactly(s: State, t: nat, ok: bool)
    requires CanMove(s, Conclude(t, ok))
    ensures var b := s.shared.backoff; var after := DoMove(s, Conclude(t, ok)).shared;
            && after.conn == (if ok then Connected(s.shared.builds + 1, t, Some(s.now + (if b < 5000 then b else 5000) * 1_000_000))
                              else Down(s.now + b * 1_000_000))
            && after.backoff == (if ok then (if 2 * b < 5000 then 2 * b else 5000) else if 2 * b < 30000 then 2 * b else 30000)
            && after.version == s.shared.version + 1 && after.builds == s.shared.builds + (if ok then 1 else 0)
            && after.queries == s.shared.queries && after.failures == s.shared.failures
  {
  }

  /** Failed builds since the start or the last answer, if no build has succeeded since. */
  function FailedSince(moves: seq<Move>, n: nat): Option<nat>
    requires n <= |moves|
  {
    if n == 0 then Some(0)
    else
      match moves[n - 1]
      case Advance(_, Accept) => Some(0)
      case Conclude(_, ok) =>
        var before := FailedSince(moves, n - 1);
        if ok || before.None? then None else Some(before.value + 1)
      case _ => FailedSince(moves, n - 1)
  }

  lemma OthersLeaveBackoff(s: State, m: Move)
    requires CanMove(s, m) && !m.Conclude?
    ensures DoMove(s, m).shared.backoff == if m.Advance? && m.what.Accept? then 500 else s.shared.backoff
  {
  }

  /** After k failed builds in a row the next one fails into a wait of exactly min(500 * 2^k, 30000) ms. */
  lemma {:induction false} FailedRowExactly(states: seq<State>, moves: seq<Move>, i: nat)
    requires MoveRun(states, moves) && i < |states| && FailedSince(moves, i).Some?
    ensures states[i].shared.backoff == LadderMs(FailedSince(moves, i).value, true)
    ensures i < |moves| && moves[i].Conclude? && !moves[i].ok ==>
              states[i + 1].shared.conn == Down(states[i].now + LadderMs(FailedSince(moves, i).value, true) * MILLI)
  {
    if i == 0 {
      assert Pow2(0) == 1;
    } else if moves[i - 1].Conclude? {
      FailedRowExactly(states, moves, i - 1);
      ConcludeExactly(states[i - 1], moves[i - 1].t, moves[i - 1].ok);
      assert Pow2(FailedSince(moves, i).value) == 2 * Pow2(FailedSince(moves, i - 1).value);
    } else {
      OthersLeaveBackoff(states[i - 1], moves[i - 1]);
      if moves[i - 1].Advance? && moves[i - 1].what.Accept? {
        assert Pow2(0) == 1;
      } else {
        FailedRowExactly(states, moves, i - 1);
      }
    }
    if i < |moves| && moves[i].Conclude? { ConcludeExactly(states[i], moves[i].t, moves[i].ok); }
  }
}
