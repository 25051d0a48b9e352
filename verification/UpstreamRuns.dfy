/**
 Runs of one upstream at the finest interleaving: every locked section, every atomic
 operation and every reading of the clock is a step of its own.
 */
module UpstreamRuns {
  import opened Wrappers
  import opened Order
  import opened Upstream

  // ---- State ----

  /** Where a repair task is. */
  datatype Task =
    | Spawning
    | Building
    | Built(ok: bool)
    | Loaded(ok: bool, backoff: nat)
    | Numbered(generation: nat, backoff: nat)
    | Holding(next: Conn, save: nat)
    | Saving(save: nat)
    | Guarding
    | Bumping

  /** Where a query is; `again` once it has lost a connection. */
  datatype Phase =
    | Entering(again: bool)
    | Subscribed(seen: nat, again: bool)
    | Triggering(seen: nat, again: bool)
    | Waiting(seen: nat, again: bool)
    | Sending(generation: nat, transport: nat, again: bool)
    | Condemning(generation: nat, transport: nat, retry: bool)
    | Rebuilding(retry: bool)
    | Accepting
    | Proving
    | Failing

  /** `sends` counts what the query has handed to a transport. */
  datatype Query = Query(phase: Phase, sends: nat)

  datatype Reply = Good | BadRcode | QueryError | Fatal | Hang

  /** `made` gives the connection each generation number was drawn for; `installed` the generations in the order installed. */
  datatype State = State(shared: Shared, tasks: map<nat, Task>, running: map<nat, Query>, nextTask: nat, now: nat,
                         answered: nat, cancelled: nat, made: map<nat, nat>, installed: seq<nat>)

  datatype TaskStep = Spawn | Finish(ok: bool) | Abandon | Load | Number | ReadClock | Install | Save | Guard | Bump

  datatype QueryStep =
    | Subscribe | LookUp | Trigger | GiveUp | Wake | Receive(reply: Reply) | Condemn | Retrigger
    | Accept | Prove | Fail | Cancel

  datatype Action = Tick(elapsed: nat) | Begin | OfTask(t: nat, step: TaskStep) | OfQuery(q: nat, what: QueryStep)

  // ---- Steps ----

  predicate TaskCan(s: State, t: nat, step: TaskStep) {
    t in s.tasks &&
    match step
    case Spawn => s.tasks[t].Spawning?
    case Finish(_) => s.tasks[t].Building?
    case Abandon => s.tasks[t].Building?
    case Load => s.tasks[t].Built?
    case Number => s.tasks[t].Loaded? && s.tasks[t].ok
    case ReadClock => s.tasks[t].Numbered? || (s.tasks[t].Loaded? && !s.tasks[t].ok)
    case Install => s.tasks[t].Holding?
    case Save => s.tasks[t].Saving?
    case Guard => s.tasks[t].Guarding?
    case Bump => s.tasks[t].Bumping?
  }

  function SetTask(s: State, t: nat, task: Task): State {
    s.(tasks := s.tasks[t := task])
  }

  function TaskDo(s: State, t: nat, step: TaskStep): State
    requires TaskCan(s, t, step)
  {
    match step
    case Spawn => SetTask(s, t, Building)
    case Finish(ok) => SetTask(s, t, Built(ok))
    case Abandon => SetTask(s, t, Guarding)
    case Load => SetTask(s, t, Loaded(s.tasks[t].ok, s.shared.backoff))
    case Number => DoNumber(s, t)
    case ReadClock => DoReadClock(s, t)
    case Install => DoInstall(s, t)
    case Save => SetTask(s.(shared := s.shared.(backoff := s.tasks[t].save)), t, Guarding)
    case Guard => SetTask(s.(shared := Guarded(s.shared, s.now)), t, Bumping)
    case Bump => s.(shared := s.shared.(version := s.shared.version + 1), tasks := s.tasks - {t})
  }

  function DoNumber(s: State, t: nat): State
    requires TaskCan(s, t, Number)
  {
    var g := s.shared.builds + 1;
    SetTask(s.(shared := s.shared.(builds := g), made := s.made[g := t]), t, Numbered(g, s.tasks[t].backoff))
  }

  function DoReadClock(s: State, t: nat): State
    requires TaskCan(s, t, ReadClock)
  {
    var task := s.tasks[t];
    var generation := if task.Numbered? then Some(task.generation) else None;
    SetTask(s, t, Holding(Outcome(generation, t, task.backoff, s.now), NextBackoff(task.Numbered?, task.backoff)))
  }

  function DoInstall(s: State, t: nat): State
    requires TaskCan(s, t, Install)
  {
    var next := s.tasks[t].next;
    SetTask(s.(shared := s.shared.(conn := next),
               installed := if next.Connected? then s.installed + [next.generation] else s.installed),
            t, Saving(s.tasks[t].save))
  }

  predicate QueryCan(s: State, q: nat, what: QueryStep) {
    q in s.running &&
    var phase := s.running[q].phase;
    match what
    case Subscribe => phase.Entering?
    case LookUp => phase.Subscribed?
    case Trigger => phase.Triggering?
    case GiveUp => phase.Waiting?
    case Wake => phase.Waiting? && s.shared.version != phase.seen
    case Receive(_) => phase.Sending?
    case Condemn => phase.Condemning?
    case Retrigger => phase.Rebuilding?
    case Accept => phase.Accepting?
    case Prove => phase.Proving?
    case Fail => phase.Failing?
    case Cancel => phase.Waiting? || phase.Sending?
  }

  function SetPhase(s: State, q: nat, phase: Phase): State
    requires q in s.running
  {
    s.(running := s.running[q := Query(phase, s.running[q].sends)])
  }

  /** The trigger section, with the spawn it may owe. */
  function Start(s: State): State {
    if Due(s.shared.conn, s.now) then
      s.(shared := Triggered(s.shared, s.now), tasks := s.tasks[s.nextTask := Spawning], nextTask := s.nextTask + 1)
    else s
  }

  function End(s: State, q: nat): State {
    s.(running := s.running - {q})
  }

  function AfterRepairAsked(retry: bool): Phase {
    if retry then Entering(true) else Failing
  }

  function AfterReply(phase: Phase, reply: Reply): Phase
    requires phase.Sending?
  {
    match reply
    case Good => Accepting
    case BadRcode => Failing
    case QueryError => Failing
    case Fatal => Condemning(phase.generation, phase.transport, !phase.again)
    case Hang => Condemning(phase.generation, phase.transport, false)
  }

  function DoLookUp(s: State, q: nat): State
    requires QueryCan(s, q, LookUp)
  {
    var phase := s.running[q].phase;
    match Look(s.shared.conn, s.now)
    case Use(g, transport) =>
      s.(running := s.running[q := Query(Sending(g, transport, phase.again), s.running[q].sends + 1)])
    case Refused => SetPhase(s, q, Failing)
    case MustWait => SetPhase(s, q, Triggering(phase.seen, phase.again))
  }

  function DoCondemn(s: State, q: nat): State
    requires QueryCan(s, q, Condemn)
  {
    var phase := s.running[q].phase;
    if TearsDown(s.shared.conn, phase.generation) then
      SetPhase(s.(shared := Invalidated(s.shared, phase.generation, s.now)), q, Rebuilding(phase.retry))
    else SetPhase(s, q, AfterRepairAsked(phase.retry))
  }

  function QueryDo(s: State, q: nat, what: QueryStep): State
    requires QueryCan(s, q, what)
  {
    var phase := s.running[q].phase;
    match what
    case Subscribe => SetPhase(s, q, Subscribed(s.shared.version, phase.again))
    case LookUp => DoLookUp(s, q)
    case Trigger => SetPhase(Start(s), q, Waiting(phase.seen, phase.again))
    case GiveUp => SetPhase(s, q, Failing)
    case Wake => SetPhase(s, q, Entering(phase.again))
    case Receive(reply) => SetPhase(s, q, AfterReply(phase, reply))
    case Condemn => DoCondemn(s, q)
    case Retrigger => SetPhase(Start(s), q, AfterRepairAsked(phase.retry))
    case Accept => SetPhase(s.(shared := s.shared.(backoff := MIN_RECONNECT_BACKOFF)), q, Proving)
    case Prove => End(s.(shared := Proven(s.shared), answered := s.answered + 1), q)
    case Fail => End(s.(shared := s.shared.(failures := s.shared.failures + 1)), q)
    case Cancel => End(s.(cancelled := s.cancelled + 1), q)
  }

  predicate Can(s: State, a: Action) {
    match a
    case Tick(_) => true
    case Begin => true
    case OfTask(t, step) => TaskCan(s, t, step)
    case OfQuery(q, what) => QueryCan(s, q, what)
  }

  function Do(s: State, a: Action): State
    requires Can(s, a)
  {
    match a
    case Tick(elapsed) => s.(now := s.now + elapsed)
    case Begin => DoBegin(s)
    case OfTask(t, step) => TaskDo(s, t, step)
    case OfQuery(q, what) => QueryDo(s, q, what)
  }

  function DoBegin(s: State): State {
    s.(shared := s.shared.(queries := s.shared.queries + 1),
    running := s.running[s.shared.queries := Query(Entering(false), 0)])
  }

  /** The upstream starts with the connection built at start-up, or down and due at once. */
  ghost predicate Initial(s: State) {
    && s.tasks == map[] && s.running == map[] && s.nextTask == 1
    && s.answered == 0 && s.cancelled == 0
    && (if s.shared.conn.Connected? then
          s.shared.conn == Connected(1, 0, None) && s.shared.builds == 1 && s.made == map[1 := 0] && s.installed == [1]
        else s.shared.conn == Down(s.now) && s.shared.builds == 0 && s.made == map[] && s.installed == [])
    && s.shared == Shared(s.shared.conn, s.shared.builds, MIN_RECONNECT_BACKOFF, 0, 0, 0)
  }

  ghost predicate Run(states: seq<State>, actions: seq<Action>) {
    && |states| == |actions| + 1 && Initial(states[0])
    && forall i :: 0 <= i < |actions| ==> Can(states[i], actions[i]) && states[i + 1] == Do(states[i], actions[i])
  }

  // ---- No stuck upstream ----

  /** A repair task that has yet to run the section that ends `Connecting`. */
  ghost predicate Unguarded(tasks: map<nat, Task>) {
    exists t :: t in tasks && !tasks[t].Bumping?
  }

  ghost predicate NotStuck(s: State) {
    s.shared.conn.Connecting? ==> Unguarded(s.tasks)
  }

  lemma SetTaskUnguarded(tasks: map<nat, Task>, t: nat, task: Task)
    requires !task.Bumping?
    ensures Unguarded(tasks[t := task])
  {
    assert t in tasks[t := task];
  }

  /** A task holds no `Connecting` to install. */
  ghost predicate HoldsOutcomes(s: State) {
    forall t :: t in s.tasks && s.tasks[t].Holding? ==> !s.tasks[t].next.Connecting?
  }

  lemma StartKeepsNotStuck(s: State)
    requires NotStuck(s)
    ensures NotStuck(Start(s))
  {
    if Due(s.shared.conn, s.now) { SetTaskUnguarded(s.tasks, s.nextTask, Spawning); }
  }

  lemma TaskKeepsNotStuck(s: State, t: nat, step: TaskStep)
    requires NotStuck(s) && HoldsOutcomes(s) && TaskCan(s, t, step)
    ensures NotStuck(TaskDo(s, t, step)) && HoldsOutcomes(TaskDo(s, t, step))
  {
    var s' := TaskDo(s, t, step);
    if s'.shared.conn.Connecting? {
      if step.Bump? {
        var u :| u in s.tasks && !s.tasks[u].Bumping?;
        assert u in s'.tasks;
      } else {
        assert t in s'.tasks && !s'.tasks[t].Bumping?;
      }
    }
  }

  lemma QueryKeepsNotStuck(s: State, q: nat, what: QueryStep)
    requires NotStuck(s) && HoldsOutcomes(s) && QueryCan(s, q, what)
    ensures NotStuck(QueryDo(s, q, what)) && HoldsOutcomes(QueryDo(s, q, what))
  {
    StartKeepsNotStuck(s);
  }

  // ---- No lost wake-up ----

  /** The query's subscription has been answered, or some repair has yet to bump the version. */
  ghost predicate WillWake(s: State, seen: nat) {
    s.shared.version > seen || s.tasks != map[]
  }

  ghost predicate Awake(s: State, phase: Phase) {
    match phase
    case Subscribed(seen, _) => seen <= s.shared.version
    case Triggering(seen, _) => seen <= s.shared.version && (WillWake(s, seen) || Due(s.shared.conn, s.now))
    case Waiting(seen, _) => seen <= s.shared.version && WillWake(s, seen)
    case _ => true
  }

  ghost predicate NoneAsleep(s: State) {
    forall q :: q in s.running ==> Awake(s, s.running[q].phase)
  }

  /** A step of a task or of the clock takes nobody's wake-up away. */
  lemma TaskKeepsAwake(s: State, t: nat, step: TaskStep, phase: Phase)
    requires TaskCan(s, t, step) && Awake(s, phase)
    ensures Awake(TaskDo(s, t, step), phase)
  {
    var s' := TaskDo(s, t, step);
    if !step.Bump? { assert t in s'.tasks; }
  }

  lemma StartKeepsAwake(s: State, phase: Phase)
    requires Awake(s, phase)
    ensures Awake(Start(s), phase)
    ensures Start(s).shared.version == s.shared.version
    ensures Due(s.shared.conn, s.now) ==> Start(s).tasks != map[]
    ensures !Due(s.shared.conn, s.now) ==> Start(s) == s
  {
    if Due(s.shared.conn, s.now) { assert s.nextTask in Start(s).tasks; }
  }

  /** Another query's step takes nobody's wake-up away. */
  lemma QueryKeepsAwake(s: State, q: nat, what: QueryStep, phase: Phase)
    requires QueryCan(s, q, what) && Awake(s, phase)
    ensures Awake(QueryDo(s, q, what), phase)
  {
    StartKeepsAwake(s, phase);
    var s' := QueryDo(s, q, what);
    if what.Trigger? || what.Retrigger? {
      assert s'.tasks == Start(s).tasks && s'.shared == Start(s).shared && s'.now == Start(s).now;
    } else {
      assert s'.tasks == s.tasks && s'.now == s.now && s'.shared.version == s.shared.version;
      assert Due(s.shared.conn, s.now) ==> s'.shared.conn == s.shared.conn;
    }
  }

  /** A query that goes to wait will be woken. */
  lemma OwnStepAwake(s: State, q: nat, what: QueryStep)
    requires QueryCan(s, q, what) && NotStuck(s) && Awake(s, s.running[q].phase)
    requires q in QueryDo(s, q, what).running
    ensures Awake(QueryDo(s, q, what), QueryDo(s, q, what).running[q].phase)
  {
    StartKeepsAwake(s, s.running[q].phase);
  }

  lemma TaskKeepsNoneAsleep(s: State, t: nat, step: TaskStep)
    requires NoneAsleep(s) && TaskCan(s, t, step)
    ensures NoneAsleep(TaskDo(s, t, step))
  {
    var s' := TaskDo(s, t, step);
    assert s'.running == s.running;
    forall q | q in s'.running ensures Awake(s', s'.running[q].phase) {
      TaskKeepsAwake(s, t, step, s.running[q].phase);
    }
  }

  lemma OthersUntouched(s: State, q: nat, what: QueryStep, other: nat)
    requires QueryCan(s, q, what) && other in QueryDo(s, q, what).running && other != q
    ensures other in s.running && QueryDo(s, q, what).running[other] == s.running[other]
  {
  }

  lemma QueryKeepsNoneAsleep(s: State, q: nat, what: QueryStep)
    requires NoneAsleep(s) && NotStuck(s) && QueryCan(s, q, what)
    ensures NoneAsleep(QueryDo(s, q, what))
  {
    var s' := QueryDo(s, q, what);
    forall other | other in s'.running ensures Awake(s', s'.running[other].phase) {
      if other == q {
        OwnStepAwake(s, q, what);
      } else {
        OthersUntouched(s, q, what, other);
        QueryKeepsAwake(s, q, what, s.running[other].phase);
      }
    }
  }

  // ---- Generations ----

  /** `g` was drawn for the connection `transport`. */
  ghost predicate DrawnFor(made: map<nat, nat>, g: nat, transport: nat) {
    g in made && made[g] == transport
  }

  ghost predicate TaskNamed(made: map<nat, nat>, installed: seq<nat>, t: nat, task: Task) {
    match task
    case Numbered(g, _) => DrawnFor(made, g, t) && g !in installed
    case Holding(next, _) => next.Connected? ==>
      next.transport == t && DrawnFor(made, next.generation, t) && next.generation !in installed
    case _ => true
  }

  ghost predicate PhaseNamed(made: map<nat, nat>, phase: Phase) {
    match phase
    case Sending(g, transport, _) => DrawnFor(made, g, transport)
    case Condemning(g, transport, _) => DrawnFor(made, g, transport)
    case _ => true
  }

  ghost predicate TasksNamed(s: State) {
    forall t :: t in s.tasks ==> t < s.nextTask && TaskNamed(s.made, s.installed, t, s.tasks[t])
  }

  ghost predicate QueriesNamed(s: State) {
    forall q :: q in s.running ==> PhaseNamed(s.made, s.running[q].phase)
  }

  ghost predicate Drawn(s: State) {
    && (forall g :: g in s.made ==> 1 <= g <= s.shared.builds)
    && (forall g :: g in s.installed ==> g in s.made)
  }

  ghost predicate ConnNamed(s: State) {
    s.shared.conn.Connected? ==> DrawnFor(s.made, s.shared.conn.generation, s.shared.conn.transport)
  }

  /** Every generation names one connection, and is installed at most once. */
  ghost predicate Named(s: State) {
    Drawn(s) && Distinct<nat>(s.installed) && ConnNamed(s) && TasksNamed(s) && QueriesNamed(s)
  }

  lemma InstallKeepsNamed(s: State, t: nat)
    requires Named(s) && TaskCan(s, t, Install)
    ensures Named(DoInstall(s, t))
  {
    var next := s.tasks[t].next;
    if next.Connected? { DistinctAppend<nat>(s.installed, next.generation); }
    var s' := DoInstall(s, t);
    forall u | u in s'.tasks ensures u < s'.nextTask && TaskNamed(s'.made, s'.installed, u, s'.tasks[u]) {
      assert u in s.tasks && TaskNamed(s.made, s.installed, u, s.tasks[u]);
    }
  }

  lemma NumberKeepsNamed(s: State, t: nat)
    requires Named(s) && TaskCan(s, t, Number)
    ensures Named(DoNumber(s, t))
  {
    var s' := DoNumber(s, t);
    assert s.shared.builds + 1 !in s.made;
    forall u | u in s'.tasks ensures u < s'.nextTask && TaskNamed(s'.made, s'.installed, u, s'.tasks[u]) {
      assert u in s.tasks && TaskNamed(s.made, s.installed, u, s.tasks[u]);
    }
    forall q | q in s'.running ensures PhaseNamed(s'.made, s'.running[q].phase) {
      assert PhaseNamed(s.made, s.running[q].phase);
    }
  }

  lemma TaskKeepsNamed(s: State, t: nat, step: TaskStep)
    requires Named(s) && TaskCan(s, t, step)
    ensures Named(TaskDo(s, t, step))
  {
    match step
    case Install => InstallKeepsNamed(s, t);
    case Number => NumberKeepsNamed(s, t);
    case _ =>
      var s' := TaskDo(s, t, step);
      assert TaskNamed(s.made, s.installed, t, s.tasks[t]);
      forall u | u in s'.tasks ensures u < s'.nextTask && TaskNamed(s'.made, s'.installed, u, s'.tasks[u]) {
        assert u in s.tasks && TaskNamed(s.made, s.installed, u, s.tasks[u]);
      }
  }

  lemma StartKeepsNamed(s: State)
    requires Named(s)
    ensures Named(Start(s))
  {
  }

  lemma QueryKeepsNamed(s: State, q: nat, what: QueryStep)
    requires Named(s) && QueryCan(s, q, what)
    ensures Named(QueryDo(s, q, what))
  {
    StartKeepsNamed(s);
    var s' := QueryDo(s, q, what);
    forall p | p in s'.running ensures PhaseNamed(s'.made, s'.running[p].phase) {
      assert p in s.running && PhaseNamed(s.made, s.running[p].phase);
    }
  }

  /** Condemning a connection never removes any but the one the query's own send failed on. */
  lemma CondemnsItsOwn(s: State, q: nat)
    requires Named(s) && QueryCan(s, q, Condemn)
    ensures QueryDo(s, q, Condemn).shared.conn != s.shared.conn ==>
              && s.shared.conn.Connected?
              && s.shared.conn.generation == s.running[q].phase.generation
              && s.shared.conn.transport == s.running[q].phase.transport
  {
    assert PhaseNamed(s.made, s.running[q].phase);
  }

  // ---- Accounting ----

  lemma EntrySize(m: map<nat, Query>, q: nat, query: Query)
    ensures |m[q := query]| == if q in m then |m| else |m| + 1
    ensures q in m ==> |m - {q}| == |m| - 1
  {
    assert m[q := query].Keys == m.Keys + {q};
    assert |m[q := query]| == |m.Keys + {q}|;
    assert (m - {q}).Keys == m.Keys - {q};
    assert |m - {q}| == |m.Keys - {q}|;
  }

  /** Every query sent to the upstream is answered, failed, cancelled or still running. */
  ghost predicate Accounted(s: State) {
    && s.shared.queries == s.answered + s.shared.failures + s.cancelled + |s.running|
    && forall q :: q in s.running ==> q < s.shared.queries
  }

  predicate Ends(what: QueryStep) {
    what.Prove? || what.Fail? || what.Cancel?
  }

  lemma StepShape(s: State, q: nat, what: QueryStep)
    requires QueryCan(s, q, what)
    ensures var s' := QueryDo(s, q, what);
            && s'.shared.queries == s.shared.queries
            && s'.answered + s'.shared.failures + s'.cancelled ==
               s.answered + s.shared.failures + s.cancelled + (if Ends(what) then 1 else 0)
            && if Ends(what) then s'.running == s.running - {q}
               else q in s'.running && s'.running == s.running[q := s'.running[q]]
  {
  }

  lemma QueryKeepsAccounted(s: State, q: nat, what: QueryStep)
    requires Accounted(s) && QueryCan(s, q, what)
    ensures Accounted(QueryDo(s, q, what))
  {
    var s' := QueryDo(s, q, what);
    StepShape(s, q, what);
    EntrySize(s.running, q, if Ends(what) then s.running[q] else s'.running[q]);
  }

  lemma BeginKeepsAccounted(s: State)
    requires Accounted(s)
    ensures Accounted(DoBegin(s))
  {
    EntrySize(s.running, s.shared.queries, Query(Entering(false), 0));
  }

  /** How many sends a query in each phase has made: never more than two. */
  ghost predicate SendsFit(query: Query) {
    match query.phase
    case Entering(again) => query.sends == if again then 1 else 0
    case Subscribed(_, again) => query.sends == if again then 1 else 0
    case Triggering(_, again) => query.sends == if again then 1 else 0
    case Waiting(_, again) => query.sends == if again then 1 else 0
    case Sending(_, _, again) => query.sends == if again then 2 else 1
    case Condemning(_, _, retry) => if retry then query.sends == 1 else 1 <= query.sends <= 2
    case Rebuilding(retry) => if retry then query.sends == 1 else 1 <= query.sends <= 2
    case Accepting => 1 <= query.sends <= 2
    case Proving => 1 <= query.sends <= 2
    case Failing => query.sends <= 2
  }

  ghost predicate AllSendsFit(s: State) {
    forall q :: q in s.running ==> SendsFit(s.running[q])
  }

  lemma QueryKeepsSends(s: State, q: nat, what: QueryStep)
    requires AllSendsFit(s) && QueryCan(s, q, what)
    ensures AllSendsFit(QueryDo(s, q, what))
  {
    assert SendsFit(s.running[q]);
    var s' := QueryDo(s, q, what);
    forall p | p in s'.running ensures SendsFit(s'.running[p]) {
      if p != q { OthersUntouched(s, q, what, p); }
    }
  }

  // ---- Backoff ----

  ghost predicate BackoffFits(backoff: nat) {
    MIN_RECONNECT_BACKOFF <= backoff <= MAX_RECONNECT_BACKOFF
  }

  /** No wait longer than 30 s, no probation longer than 5 s. */
  ghost predicate ConnFits(conn: Conn, now: nat) {
    match conn
    case Down(retryAt) => retryAt <= now + MAX_RECONNECT_BACKOFF * MILLI
    case Connecting => true
    case Connected(_, _, probation) => probation.Some? ==> probation.value <= now + MAX_PROBATION * MILLI
  }

  ghost predicate TaskFits(task: Task, now: nat) {
    match task
    case Loaded(_, backoff) => BackoffFits(backoff)
    case Numbered(_, backoff) => BackoffFits(backoff)
    case Holding(next, save) => ConnFits(next, now) && BackoffFits(save)
    case Saving(save) => BackoffFits(save)
    case _ => true
  }

  ghost predicate TasksFit(s: State) {
    forall t :: t in s.tasks ==> TaskFits(s.tasks[t], s.now)
  }

  ghost predicate WaitsFit(s: State) {
    BackoffFits(s.shared.backoff) && ConnFits(s.shared.conn, s.now) && TasksFit(s)
  }

  lemma TaskKeepsWaits(s: State, t: nat, step: TaskStep)
    requires WaitsFit(s) && TaskCan(s, t, step)
    ensures WaitsFit(TaskDo(s, t, step))
  {
    assert TaskFits(s.tasks[t], s.now);
  }

  lemma QueryKeepsWaits(s: State, q: nat, what: QueryStep)
    requires WaitsFit(s) && QueryCan(s, q, what)
    ensures WaitsFit(QueryDo(s, q, what))
  {
  }

  // ---- Every run ----

  ghost predicate Invariant(s: State) {
    && NotStuck(s) && HoldsOutcomes(s) && NoneAsleep(s)
    && Named(s) && Accounted(s) && AllSendsFit(s) && WaitsFit(s)
  }

  lemma InitialHolds(s: State)
    requires Initial(s)
    ensures Invariant(s)
  {
  }

  lemma TickKeeps(s: State, elapsed: nat)
    requires Invariant(s)
    ensures Invariant(s.(now := s.now + elapsed))
  {
    var s' := s.(now := s.now + elapsed);
    forall q | q in s'.running ensures Awake(s', s'.running[q].phase) {
      assert Awake(s, s.running[q].phase);
    }
  }

  lemma BeginKeeps(s: State)
    requires Invariant(s)
    ensures Invariant(DoBegin(s))
  {
    var s' := DoBegin(s);
    BeginKeepsAccounted(s);
    forall q | q in s'.running
      ensures Awake(s', s'.running[q].phase) && PhaseNamed(s'.made, s'.running[q].phase) && SendsFit(s'.running[q])
    {
      if q != s.shared.queries {
        assert Awake(s, s.running[q].phase) && PhaseNamed(s.made, s.running[q].phase) && SendsFit(s.running[q]);
      }
    }
  }

  lemma TaskKeeps(s: State, t: nat, step: TaskStep)
    requires Invariant(s) && TaskCan(s, t, step)
    ensures Invariant(TaskDo(s, t, step))
  {
    TaskKeepsNotStuck(s, t, step);
    TaskKeepsNoneAsleep(s, t, step);
    TaskKeepsNamed(s, t, step);
    TaskKeepsWaits(s, t, step);
    var s' := TaskDo(s, t, step);
    assert s'.running == s.running && s'.answered == s.answered && s'.cancelled == s.cancelled;
    assert s'.shared.queries == s.shared.queries && s'.shared.failures == s.shared.failures;
  }

  lemma QueryKeeps(s: State, q: nat, what: QueryStep)
    requires Invariant(s) && QueryCan(s, q, what)
    ensures Invariant(QueryDo(s, q, what))
  {
    QueryKeepsNotStuck(s, q, what);
    QueryKeepsNoneAsleep(s, q, what);
    QueryKeepsNamed(s, q, what);
    QueryKeepsAccounted(s, q, what);
    QueryKeepsSends(s, q, what);
    QueryKeepsWaits(s, q, what);
  }

  lemma StepKeeps(s: State, a: Action)
    requires Invariant(s) && Can(s, a)
    ensures Invariant(Do(s, a))
  {
    match a
    case Tick(elapsed) => TickKeeps(s, elapsed);
    case Begin => BeginKeeps(s);
    case OfTask(t, step) => TaskKeeps(s, t, step);
    case OfQuery(q, what) => QueryKeeps(s, q, what);
  }

  lemma {:induction false} RunKeeps(states: seq<State>, actions: seq<Action>, i: nat)
    requires Run(states, actions) && i < |states|
    ensures Invariant(states[i])
  {
    if i == 0 {
      InitialHolds(states[0]);
    } else {
      RunKeeps(states, actions, i - 1);
      StepKeeps(states[i - 1], actions[i - 1]);
    }
  }

  // ---- What a live repair does ----

  /** Steps a repair task has left before it bumps the version, at most. */
  function Rank(task: Task): nat {
    match task
    case Spawning => 8
    case Building => 7
    case Built(_) => 6
    case Loaded(_, _) => 5
    case Numbered(_, _) => 4
    case Holding(_, _) => 3
    case Saving(_) => 2
    case Guarding => 1
    case Bumping => 0
  }

  function NextStep(task: Task): TaskStep {
    match task
    case Spawning => Spawn
    case Building => Abandon
    case Built(_) => Load
    case Loaded(ok, _) => if ok then Number else ReadClock
    case Numbered(_, _) => ReadClock
    case Holding(_, _) => Install
    case Saving(_) => Save
    case Guarding => Guard
    case Bumping => Bump
  }

  lemma OwnStepAdvances(s: State, t: nat, step: TaskStep)
    requires TaskCan(s, t, step)
    ensures if step.Bump? then TaskDo(s, t, step).shared.version == s.shared.version + 1 && t !in TaskDo(s, t, step).tasks
            else t in TaskDo(s, t, step).tasks && Rank(TaskDo(s, t, step).tasks[t]) < Rank(s.tasks[t])
    ensures forall u :: u in s.tasks && u != t ==> u in TaskDo(s, t, step).tasks && TaskDo(s, t, step).tasks[u] == s.tasks[u]
  {
  }

  lemma QueriesLeaveTasks(s: State, q: nat, what: QueryStep, t: nat)
    requires QueryCan(s, q, what) && t in s.tasks && t < s.nextTask
    ensures t in QueryDo(s, q, what).tasks && QueryDo(s, q, what).tasks[t] == s.tasks[t]
  {
  }

  /**
   A live repair always can step, only its own steps move it, and each brings it closer
   to the bump that wakes whoever waits.
   */
  lemma RepairConcludes(s: State, a: Action, t: nat)
    requires Invariant(s) && Can(s, a) && t in s.tasks
    ensures TaskCan(s, t, NextStep(s.tasks[t]))
    ensures if a.OfTask? && a.t == t
            then if t in Do(s, a).tasks then Rank(Do(s, a).tasks[t]) < Rank(s.tasks[t])
                 else Do(s, a).shared.version == s.shared.version + 1
            else t in Do(s, a).tasks && Do(s, a).tasks[t] == s.tasks[t]
  {
    match a
    case OfTask(u, step) => OwnStepAdvances(s, u, step);
    case OfQuery(q, what) => QueriesLeaveTasks(s, q, what, t);
    case _ =>
  }

  // ---- Main results ----

  /** No stuck upstream: in every run, connecting implies a repair task that will still end it. */
  lemma NeverStuck(states: seq<State>, actions: seq<Action>, i: nat)
    requires Run(states, actions) && i < |states| && states[i].shared.conn.Connecting?
    ensures exists t :: t in states[i].tasks && Rank(states[i].tasks[t]) >= 1
  {
    RunKeeps(states, actions, i);
    var t :| t in states[i].tasks && !states[i].tasks[t].Bumping?;
  }

  /** No lost wake-up: a waiting query can wake now, or a live repair has yet to bump the version. */
  lemma NoLostWakeUp(states: seq<State>, actions: seq<Action>, i: nat, q: nat)
    requires Run(states, actions) && i < |states|
    requires q in states[i].running && states[i].running[q].phase.Waiting?
    ensures QueryCan(states[i], q, Wake) || exists t :: t in states[i].tasks
  {
    RunKeeps(states, actions, i);
    assert Awake(states[i], states[i].running[q].phase);
    if states[i].tasks != map[] {
      assert states[i].tasks.Keys != {};
    }
  }

  /**
   Generations are pairwise distinct, and a failed send only ever takes down the very
   connection it was made on.
   */
  lemma GenerationIsolation(states: seq<State>, actions: seq<Action>, i: nat)
    requires Run(states, actions) && i < |actions|
    ensures Distinct<nat>(states[i].installed)
    ensures actions[i].OfQuery? && actions[i].what.Condemn? && states[i + 1].shared.conn != states[i].shared.conn ==>
              && states[i].shared.conn.Connected?
              && states[i].shared.conn.generation == states[i].running[actions[i].q].phase.generation
              && states[i].shared.conn.transport == states[i].running[actions[i].q].phase.transport
  {
    RunKeeps(states, actions, i);
    if actions[i].OfQuery? && actions[i].what.Condemn? { CondemnsItsOwn(states[i], actions[i].q); }
  }

  /** Queries are conserved, and none sends more than twice. */
  lemma EveryQueryAccounted(states: seq<State>, actions: seq<Action>, i: nat)
    requires Run(states, actions) && i < |states|
    ensures var s := states[i]; s.shared.queries == s.answered + s.shared.failures + s.cancelled + |s.running|
    ensures forall q :: q in states[i].running ==> states[i].running[q].sends <= 2
  {
    RunKeeps(states, actions, i);
    forall q | q in states[i].running ensures states[i].running[q].sends <= 2 {
      assert SendsFit(states[i].running[q]);
    }
  }

  /** Backoff stays within 500 ms and 30 s, a retry within 30 s, a probation within 5 s. */
  lemma WaitsBounded(states: seq<State>, actions: seq<Action>, i: nat)
    requires Run(states, actions) && i < |states|
    ensures MIN_RECONNECT_BACKOFF <= states[i].shared.backoff <= MAX_RECONNECT_BACKOFF
    ensures ConnFits(states[i].shared.conn, states[i].now)
  {
    RunKeeps(states, actions, i);
  }
}
