/**
 Why "one build at a time" needs the end of a repair to be one step: a run of the finest
 interleaving in which two builds are under way at once, and what every such run must do.
 */
module UpstreamOverlap {
  import opened Wrappers
  import opened Upstream
  import opened UpstreamRuns

  ghost predicate RunsTo(states: seq<State>, actions: seq<Action>, s: State) {
    Run(states, actions) && states[|actions|] == s
  }

  ghost predicate Reachable(s: State) {
    exists states, actions :: RunsTo(states, actions, s)
  }

  lemma RunExtends(states: seq<State>, actions: seq<Action>, s: State, a: Action)
    requires RunsTo(states, actions, s) && Can(s, a)
    ensures RunsTo(states + [Do(s, a)], actions + [a], Do(s, a))
  {
    var states', actions' := states + [Do(s, a)], actions + [a];
    forall i | 0 <= i < |actions'|
      ensures Can(states'[i], actions'[i]) && states'[i + 1] == Do(states'[i], actions'[i])
    {
      if i < |actions| { assert states'[i] == states[i] && states'[i + 1] == states[i + 1]; }
    }
  }

  lemma Next(s: State, a: Action) returns (s': State)
    requires Reachable(s) && Can(s, a)
    ensures s' == Do(s, a) && Reachable(s')
  {
    s' := Do(s, a);
    var states, actions :| RunsTo(states, actions, s);
    RunExtends(states, actions, s, a);
  }

  /** The upstream starts connected, and the first query sends on that connection. */
  const STARTED: State :=
    State(Shared(Connected(1, 0, None), 1, 500, 0, 0, 0), map[], map[], 1, 0, 0, 0, map[1 := 0], [1])
  const SENDING: State :=
    STARTED.(shared := STARTED.shared.(queries := 1), running := map[0 := Query(Sending(1, 0, false), 1)])

  /** The send has failed for good; the query has dropped the connection. */
  const DROPPED: State :=
    SENDING.(shared := SENDING.shared.(conn := Down(0)), running := map[0 := Query(Rebuilding(true), 1)])

  /** The query has asked for repair 1. */
  const ASKED: State :=
    SENDING.(shared := SENDING.shared.(conn := Connecting), tasks := map[1 := Spawning], nextTask := 2,
    running := map[0 := Query(Entering(true), 1)])

  /** Repair 1 has a connection and has read the backoff. */
  const LOADED: State := ASKED.(tasks := map[1 := Loaded(true, 500)])

  const HOLDING: State :=
    ASKED.(shared := ASKED.shared.(builds := 2), made := map[1 := 0, 2 := 1],
    tasks := map[1 := Holding(Connected(2, 1, Some(500 * MILLI)), 1000)])

  /** Repair 1 has installed its connection and has yet to run its guard. */
  const INSTALLED: State :=
    HOLDING.(shared := Shared(Connected(2, 1, Some(500 * MILLI)), 2, 1000, 0, 1, 0), installed := [1, 2],
    tasks := map[1 := Guarding])

  /** The query sends again, on that connection. */
  const RESENDING: State := INSTALLED.(running := map[0 := Query(Sending(2, 1, true), 2)])

  /** That connection has hung and been dropped. */
  const HUNG: State :=
    INSTALLED.(shared := INSTALLED.shared.(conn := Down(500 * MILLI)), running := map[0 := Query(Rebuilding(false), 2)])

  /** Its probation has passed and repair 2 is building. */
  const REBUILDING: State :=
    INSTALLED.(shared := INSTALLED.shared.(conn := Connecting), running := map[0 := Query(Failing, 2)],
    tasks := map[1 := Guarding, 2 := Building], nextTask := 3, now := 500 * MILLI)

  /** Another query has found the upstream connecting. */
  const TRIGGERING: State :=
    REBUILDING.(shared := REBUILDING.shared.(queries := 2),
    running := map[0 := Query(Failing, 2), 1 := Query(Triggering(0, false), 0)])

  lemma SendingIsReachable()
    ensures Reachable(SENDING)
  {
    assert RunsTo([STARTED], [], STARTED);
    var s := Next(STARTED, Begin);
    s := Next(s, OfQuery(0, Subscribe));
    s := Next(s, OfQuery(0, LookUp));
    assert s == SENDING;
  }

  lemma DroppedIsReachable()
    ensures Reachable(DROPPED)
  {
    SendingIsReachable();
    var s := Next(SENDING, OfQuery(0, Receive(Fatal)));
    s := Next(s, OfQuery(0, Condemn));
    assert s == DROPPED;
  }

  lemma AskedIsReachable()
    ensures Reachable(ASKED)
  {
    DroppedIsReachable();
    var s := Next(DROPPED, OfQuery(0, Retrigger));
    assert s == ASKED;
  }

  lemma LoadedIsReachable()
    ensures Reachable(LOADED)
  {
    AskedIsReachable();
    var s := Next(ASKED, OfTask(1, Spawn));
    s := Next(s, OfTask(1, Finish(true)));
    s := Next(s, OfTask(1, Load));
    assert s == LOADED;
  }

  lemma HoldingIsReachable()
    ensures Reachable(HOLDING)
  {
    LoadedIsReachable();
    var s := Next(LOADED, OfTask(1, Number));
    s := Next(s, OfTask(1, ReadClock));
    assert s == HOLDING;
  }

  lemma InstalledIsReachable()
    ensures Reachable(INSTALLED)
  {
    HoldingIsReachable();
    var s := Next(HOLDING, OfTask(1, Install));
    s := Next(s, OfTask(1, Save));
    assert s == INSTALLED;
  }

  lemma ResendingIsReachable()
    ensures Reachable(RESENDING)
  {
    InstalledIsReachable();
    var s := Next(INSTALLED, OfQuery(0, Subscribe));
    s := Next(s, OfQuery(0, LookUp));
    assert s == RESENDING;
  }

  lemma HungIsReachable()
    ensures Reachable(HUNG)
  {
    ResendingIsReachable();
    var s := Next(RESENDING, OfQuery(0, Receive(Hang)));
    s := Next(s, OfQuery(0, Condemn));
    assert s == HUNG;
  }

  lemma RebuildingIsReachable()
    ensures Reachable(REBUILDING)
  {
    HungIsReachable();
    var s := Next(HUNG, Tick(500 * MILLI));
    s := Next(s, OfQuery(0, Retrigger));
    s := Next(s, OfTask(2, Spawn));
    assert s == REBUILDING;
  }

  lemma TriggeringIsReachable()
    ensures Reachable(TRIGGERING)
  {
    RebuildingIsReachable();
    var s := Next(REBUILDING, Begin);
    s := Next(s, OfQuery(1, Subscribe));
    s := Next(s, OfQuery(1, LookUp));
    assert s == TRIGGERING;
  }

  /**
   Builds can overlap: repair 1's guard ends the connecting of repair 2, and the query
   that comes next starts repair 3 beside it.
   */
  lemma BuildsCanOverlap() returns (s: State)
    ensures Reachable(s) && 2 in s.tasks && 3 in s.tasks
    ensures s.tasks[2].Building? && s.tasks[3].Building?
  {
    TriggeringIsReachable();
    s := Next(TRIGGERING, OfTask(1, Guard));
    s := Next(s, OfQuery(1, Trigger));
    s := Next(s, OfTask(3, Spawn));
  }

  // ---- Which runs keep builds apart ----

  /** The task has yet to install what it builds. */
  predicate Unfinished(task: Task) {
    match task
    case Saving(_) => false
    case Guarding => false
    case Bumping => false
    case _ => true
  }

  /**
   The tasks a state's `Connecting` is owed to after the first `n` actions: started, and
   neither has their outcome been installed nor their guard been run.
   */
  function Owners(states: seq<State>, actions: seq<Action>, n: nat): set<nat>
    requires n <= |actions| && |states| == |actions| + 1
  {
    if n == 0 then {}
    else OwnersAfter(states[n - 1], actions[n - 1], Owners(states, actions, n - 1))
  }

  function OwnersAfter(s: State, a: Action, owners: set<nat>): set<nat> {
    match a
    case OfTask(t, step) => if step.Install? || step.Guard? then owners - {t} else owners
    case OfQuery(_, what) =>
      if (what.Trigger? || what.Retrigger?) && Due(s.shared.conn, s.now) then owners + {s.nextTask} else owners
    case _ => owners
  }

  /** A task that owes nothing ends the `Connecting` of another. */
  predicate ForeignGuard(s: State, a: Action, owners: set<nat>) {
    a.OfTask? && a.step.Guard? && a.t !in owners && s.shared.conn.Connecting?
  }

  /** Connecting exactly while one task owes its end, and every unfinished task is that one. */
  ghost predicate Apart(s: State, owners: set<nat>) {
    && (s.shared.conn.Connecting? <==> owners != {})
    && (forall t, u :: t in owners && u in owners ==> t == u)
    && (forall t :: t in owners ==> t in s.tasks && (Unfinished(s.tasks[t]) || s.tasks[t].Guarding?))
    && (forall t :: t in s.tasks && Unfinished(s.tasks[t]) ==> t in owners)
  }

  lemma TaskKeepsApart(s: State, t: nat, step: TaskStep, owners: set<nat>)
    requires Invariant(s) && Apart(s, owners) && TaskCan(s, t, step) && !ForeignGuard(s, OfTask(t, step), owners)
    ensures Apart(TaskDo(s, t, step), OwnersAfter(s, OfTask(t, step), owners))
  {
    if t in owners { assert owners == {t}; }
  }

  lemma QueryKeepsApart(s: State, q: nat, what: QueryStep, owners: set<nat>)
    requires Invariant(s) && Apart(s, owners) && QueryCan(s, q, what)
    ensures Apart(QueryDo(s, q, what), OwnersAfter(s, OfQuery(q, what), owners))
  {
    if (what.Trigger? || what.Retrigger?) && Due(s.shared.conn, s.now) {
      StartKeepsApart(s, owners);
      assert QueryDo(s, q, what).tasks == Start(s).tasks && QueryDo(s, q, what).shared == Start(s).shared;
    } else {
      assert QueryDo(s, q, what).tasks == s.tasks;
      assert QueryDo(s, q, what).shared.conn.Connecting? <==> s.shared.conn.Connecting?;
    }
  }

  lemma StartKeepsApart(s: State, owners: set<nat>)
    requires Apart(s, owners) && Due(s.shared.conn, s.now)
    ensures Apart(Start(s), owners + {s.nextTask})
  {
  }

  lemma {:induction false} RunsStayApart(states: seq<State>, actions: seq<Action>, i: nat)
    requires Run(states, actions) && i < |states|
    requires forall j :: 0 <= j < i ==> !ForeignGuard(states[j], actions[j], Owners(states, actions, j))
    ensures Apart(states[i], Owners(states, actions, i))
  {
    if i > 0 {
      RunsStayApart(states, actions, i - 1);
      RunKeeps(states, actions, i - 1);
      var s, owners := states[i - 1], Owners(states, actions, i - 1);
      match actions[i - 1]
      case OfTask(t, step) => TaskKeepsApart(s, t, step, owners);
      case OfQuery(q, what) => QueryKeepsApart(s, q, what, owners);
      case _ =>
    }
  }

  /**
   Two builds are only ever under way at once after a guard has ended a `Connecting` that
   was owed to another task.
   */
  lemma OverlapNeedsForeignGuard(states: seq<State>, actions: seq<Action>, i: nat, t: nat, u: nat)
    requires Run(states, actions) && i < |states| && t != u
    requires t in states[i].tasks && Unfinished(states[i].tasks[t])
    requires u in states[i].tasks && Unfinished(states[i].tasks[u])
    ensures exists j: nat :: j < i && ForeignGuard(states[j], actions[j], Owners(states, actions, j))
  {
    if forall j :: 0 <= j < i ==> !ForeignGuard(states[j], actions[j], Owners(states, actions, j)) {
      RunsStayApart(states, actions, i);
      assert false;
    }
  }

  /** Once `ended` has run its guard, a trigger puts a second build beside that of `t`, if `t` is still building. */
  ghost predicate OpensOverlap(s: State, ended: nat, t: nat)
    requires TaskCan(s, ended, Guard)
  {
    var after := TaskDo(s, ended, Guard);
    && t in s.tasks && t in after.tasks && after.tasks[t] == s.tasks[t] && Due(after.shared.conn, after.now)
    && (Unfinished(s.tasks[t]) ==>
          && t != s.nextTask && t in Start(after).tasks && Unfinished(Start(after).tasks[t])
          && s.nextTask in Start(after).tasks && Unfinished(Start(after).tasks[s.nextTask]))
  }

  lemma ForeignGuardOpensOverlap(s: State, ended: nat, owners: set<nat>)
    requires Invariant(s) && Apart(s, owners) && TaskCan(s, ended, Guard) && ForeignGuard(s, OfTask(ended, Guard), owners)
    ensures exists t :: t in owners && OpensOverlap(s, ended, t)
  {
    var t :| t in owners;
    assert t < s.nextTask && t != ended;
    assert OpensOverlap(s, ended, t);
  }

  /**
   And the first such guard of any run opens the way: the task it was not run by still
   lives, the upstream is due, and if that task is still building the next trigger puts
   a second build beside it.
   */
  lemma FirstForeignGuard(states: seq<State>, actions: seq<Action>, i: nat, ended: nat)
    requires Run(states, actions) && i < |actions| && actions[i] == OfTask(ended, Guard)
    requires ForeignGuard(states[i], actions[i], Owners(states, actions, i))
    requires forall j :: 0 <= j < i ==> !ForeignGuard(states[j], actions[j], Owners(states, actions, j))
    ensures exists t :: t in Owners(states, actions, i) && OpensOverlap(states[i], ended, t)
  {
    RunsStayApart(states, actions, i);
    RunKeeps(states, actions, i);
    assert Can(states[i], actions[i]);
    ForeignGuardOpensOverlap(states[i], ended, Owners(states, actions, i));
  }
}
