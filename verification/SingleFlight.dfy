/**
 Lookups shared by all clients that miss on the same key: runs in which each locked
 section, send, receive and drop is a step of its own, leaders may die at any await and
 clients may be cancelled while they wait.
 */
module SingleFlight {
  import opened Wrappers
  import opened Answers
  import opened Lru
  import opened Server

  // ---- State ----

  /** Where a leader task is. */
  datatype Stage = Spawning | Resolving | Settled(answer: Option<Message>) | Sent | Dying

  /**
   A lookup: its leader task and its broadcast channel. `guard` and `sender` say what the
   leader still holds; `messages` is what has been sent.
   */
  datatype Flight = Flight(key: CacheKey, stage: Stage, guard: bool, sender: bool, messages: seq<Option<Message>>)

  datatype Outcome = Answered(answer: Option<Message>) | Closed

  /** A client that missed the cache; `from` is how many messages had been sent when it subscribed. */
  datatype Client =
    | Missed(key: CacheKey)
    | Waiting(key: CacheKey, channel: nat, from: nat)
    | Finished(key: CacheKey, channel: nat, outcome: Outcome)

  datatype State = State(lookups: map<CacheKey, nat>, flights: map<nat, Flight>, clients: map<nat, Client>,
                         nextFlight: nat, nextClient: nat)

  datatype FlightStep = Spawn | Resolve(answer: Option<Message>) | Die | DropGuard | Publish | DropSender

  datatype Action =
    | Miss(key: CacheKey)
    | Join(c: nat)
    | Receive(c: nat)
    | Cancel(c: nat)
    | OfFlight(f: nat, step: FlightStep)

  const START: State := State(map[], map[], map[], 0, 0)

  // ---- Steps ----

  /** The senders of a channel: the one in the map and the leader's. */
  predicate Open(s: State, f: nat)
    requires f in s.flights
  {
    s.flights[f].sender || (s.flights[f].key in s.lookups && s.lookups[s.flights[f].key] == f)
  }

  predicate CanReceive(s: State, c: nat) {
    && c in s.clients && s.clients[c].Waiting? && s.clients[c].channel in s.flights
    && (s.clients[c].from < |s.flights[s.clients[c].channel].messages| || !Open(s, s.clients[c].channel))
  }

  predicate FlightCan(s: State, f: nat, step: FlightStep) {
    f in s.flights &&
    var x := s.flights[f];
    match step
    case Spawn => x.stage.Spawning?
    case Resolve(_) => x.stage.Resolving?
    case Die => x.stage.Resolving? || (x.stage.Settled? && x.guard)
    case DropGuard => x.guard && (x.stage.Settled? || x.stage.Dying?)
    case Publish => x.stage.Settled? && !x.guard
    case DropSender => x.sender && (x.stage.Sent? || x.stage.Dying?)
  }

  predicate Can(s: State, a: Action) {
    match a
    case Miss(_) => true
    case Join(c) => c in s.clients && s.clients[c].Missed?
    case Receive(c) => CanReceive(s, c)
    case Cancel(c) => c in s.clients && s.clients[c].Waiting?
    case OfFlight(f, step) => FlightCan(s, f, step)
  }

  function SetFlight(s: State, f: nat, x: Flight): State {
    s.(flights := s.flights[f := x])
  }

  function FlightDo(s: State, f: nat, step: FlightStep): State
    requires FlightCan(s, f, step)
  {
    var x := s.flights[f];
    match step
    case Spawn => SetFlight(s, f, x.(stage := Resolving))
    case Resolve(answer) => SetFlight(s, f, x.(stage := Settled(answer)))
    case Die => SetFlight(s, f, x.(stage := Dying))
    case DropGuard => SetFlight(s.(lookups := s.lookups - {x.key}), f, x.(guard := false))
    case Publish => SetFlight(s, f, x.(stage := Sent, messages := x.messages + [x.stage.answer]))
    case DropSender => SetFlight(s, f, x.(sender := false))
  }

  /** Subscribe to the lookup under way, or become the leader of a new one. */
  function DoJoin(s: State, c: nat): State
    requires Can(s, Join(c))
  {
    var key := s.clients[c].key;
    var channel := if key in s.lookups then s.lookups[key] else s.nextFlight;
    var flights := if key in s.lookups then s.flights else s.flights[channel := Flight(key, Spawning, true, true, [])];
    var from := if channel in flights then |flights[channel].messages| else 0;
    s.(lookups := Joined(s.lookups, key, s.nextFlight), flights := flights,
    nextFlight := if key in s.lookups then s.nextFlight else s.nextFlight + 1,
    clients := s.clients[c := Waiting(key, channel, from)])
  }

  function DoReceive(s: State, c: nat): State
    requires CanReceive(s, c)
  {
    var w := s.clients[c];
    var messages := s.flights[w.channel].messages;
    s.(clients := s.clients[c := Finished(w.key, w.channel,
                                          if w.from < |messages| then Answered(messages[w.from]) else Closed)])
  }

  function Do(s: State, a: Action): State
    requires Can(s, a)
  {
    match a
    case Miss(key) => s.(clients := s.clients[s.nextClient := Missed(key)], nextClient := s.nextClient + 1)
    case Join(c) => DoJoin(s, c)
    case Receive(c) => DoReceive(s, c)
    case Cancel(c) => s.(clients := s.clients - {c})
    case OfFlight(f, step) => FlightDo(s, f, step)
  }

  ghost predicate Run(states: seq<State>, actions: seq<Action>) {
    && |states| == |actions| + 1 && states[0] == START
    && forall i :: 0 <= i < |actions| ==> Can(states[i], actions[i]) && states[i + 1] == Do(states[i], actions[i])
  }

  // ---- Invariants ----

  /** What holds of a flight by itself at each stage. */
  ghost predicate Sensible(x: Flight) {
    match x.stage
    case Spawning => x.guard && x.sender && x.messages == []
    case Resolving => x.guard && x.sender && x.messages == []
    case Settled(_) => x.sender && x.messages == []
    case Sent => !x.guard && |x.messages| == 1
    case Dying => x.messages == []
  }

  /** A key is in the map exactly while a leader holds its guard, and the entry is that leader's channel. */
  ghost predicate GuardsOwnEntries(s: State) {
    && (forall key :: key in s.lookups ==> s.lookups[key] in s.flights && s.flights[s.lookups[key]].guard
                                           && s.flights[s.lookups[key]].key == key)
    && (forall f :: f in s.flights && s.flights[f].guard ==>
          s.flights[f].key in s.lookups && s.lookups[s.flights[f].key] == f)
  }

  ghost predicate FlightsSensible(s: State) {
    forall f :: f in s.flights ==> f < s.nextFlight && Sensible(s.flights[f])
  }

  /** Subscribed before anything was published; finished with what was published, or with nothing from a dead leader. */
  ghost predicate ClientFits(flights: map<nat, Flight>, c: Client) {
    match c
    case Missed(_) => true
    case Waiting(key, channel, from) => channel in flights && flights[channel].key == key && from == 0
    case Finished(key, channel, outcome) =>
      && channel in flights && flights[channel].key == key
      && match outcome
         case Answered(answer) => flights[channel].messages == [answer]
         case Closed => flights[channel].stage.Dying? && !flights[channel].guard && !flights[channel].sender
  }

  ghost predicate ClientsFit(s: State) {
    forall c :: c in s.clients ==> c < s.nextClient && ClientFits(s.flights, s.clients[c])
  }

  ghost predicate Invariant(s: State) {
    GuardsOwnEntries(s) && FlightsSensible(s) && ClientsFit(s)
  }

  // ---- Steps keep them ----

  /** A guard never removes an entry that is not its own leader's. */
  lemma GuardRemovesItsOwn(s: State, f: nat)
    requires Invariant(s) && FlightCan(s, f, DropGuard)
    ensures s.flights[f].key in s.lookups && s.lookups[s.flights[f].key] == f
    ensures forall key :: key in s.lookups && s.lookups[key] != f ==>
              key in FlightDo(s, f, DropGuard).lookups && FlightDo(s, f, DropGuard).lookups[key] == s.lookups[key]
  {
  }

  lemma FlightKeepsClients(s: State, f: nat, step: FlightStep)
    requires Invariant(s) && FlightCan(s, f, step)
    ensures ClientsFit(FlightDo(s, f, step))
  {
    var s' := FlightDo(s, f, step);
    forall c | c in s'.clients ensures c < s'.nextClient && ClientFits(s'.flights, s'.clients[c]) {
      assert ClientFits(s.flights, s.clients[c]) && Sensible(s.flights[f]);
    }
  }

  lemma FlightKeepsGuards(s: State, f: nat, step: FlightStep)
    requires Invariant(s) && FlightCan(s, f, step)
    ensures GuardsOwnEntries(FlightDo(s, f, step))
  {
  }

  lemma FlightKeeps(s: State, f: nat, step: FlightStep)
    requires Invariant(s) && FlightCan(s, f, step)
    ensures Invariant(FlightDo(s, f, step))
  {
    FlightKeepsClients(s, f, step);
    FlightKeepsGuards(s, f, step);
    assert Sensible(s.flights[f]);
  }

  lemma JoinKeeps(s: State, c: nat)
    requires Invariant(s) && Can(s, Join(c))
    ensures Invariant(DoJoin(s, c))
  {
    var s' := DoJoin(s, c);
    assert s.nextFlight !in s.flights;
    forall d | d in s'.clients ensures d < s'.nextClient && ClientFits(s'.flights, s'.clients[d]) {
      if d == c {
        if s.clients[c].key in s.lookups { assert Sensible(s.flights[s.lookups[s.clients[c].key]]); }
      } else {
        assert ClientFits(s.flights, s.clients[d]);
      }
    }
  }

  lemma ReceiveKeeps(s: State, c: nat)
    requires Invariant(s) && CanReceive(s, c)
    ensures Invariant(DoReceive(s, c))
  {
    var w := s.clients[c];
    assert ClientFits(s.flights, w) && Sensible(s.flights[w.channel]);
    var s' := DoReceive(s, c);
    forall d | d in s'.clients ensures d < s'.nextClient && ClientFits(s'.flights, s'.clients[d]) {
      if d != c { assert ClientFits(s.flights, s.clients[d]); }
    }
  }

  lemma StepKeeps(s: State, a: Action)
    requires Invariant(s) && Can(s, a)
    ensures Invariant(Do(s, a))
  {
    match a
    case Join(c) => JoinKeeps(s, c);
    case Receive(c) => ReceiveKeeps(s, c);
    case OfFlight(f, step) => FlightKeeps(s, f, step);
    case Miss(key) =>
    case Cancel(c) =>
  }

  lemma {:induction false} RunKeeps(states: seq<State>, actions: seq<Action>, i: nat)
    requires Run(states, actions) && i < |states|
    ensures Invariant(states[i])
  {
    if i > 0 {
      RunKeeps(states, actions, i - 1);
      StepKeeps(states[i - 1], actions[i - 1]);
    }
  }

  // ---- Main results ----

  /** `f` is a leader for `key` that still holds its guard. */
  ghost predicate Leads(s: State, f: nat, key: CacheKey) {
    f in s.flights && s.flights[f].key == key && s.flights[f].guard
  }

  /** The map and the guards: a key is in the map iff exactly one leader for it holds its guard. */
  lemma MappedIffOneLeader(states: seq<State>, actions: seq<Action>, i: nat, key: CacheKey)
    requires Run(states, actions) && i < |states|
    ensures key in states[i].lookups <==> exists f :: Leads(states[i], f, key)
    ensures forall f, g :: Leads(states[i], f, key) && Leads(states[i], g, key) ==> f == g
  {
    RunKeeps(states, actions, i);
    if key in states[i].lookups { assert Leads(states[i], states[i].lookups[key], key); }
  }

  /** At most one leader per key is asking the upstream. */
  lemma OneResolverPerKey(states: seq<State>, actions: seq<Action>, i: nat, f: nat, g: nat)
    requires Run(states, actions) && i < |states| && f in states[i].flights && g in states[i].flights
    requires states[i].flights[f].stage.Resolving? && states[i].flights[g].stage.Resolving?
    requires states[i].flights[f].key == states[i].flights[g].key
    ensures f == g
  {
    RunKeeps(states, actions, i);
    assert Sensible(states[i].flights[f]) && Sensible(states[i].flights[g]);
    MappedIffOneLeader(states, actions, i, states[i].flights[f].key);
    assert Leads(states[i], f, states[i].flights[f].key) && Leads(states[i], g, states[i].flights[f].key);
  }

  /** Each channel carries at most one message, and every subscriber joined before it. */
  lemma OneMessage(states: seq<State>, actions: seq<Action>, i: nat)
    requires Run(states, actions) && i < |states|
    ensures forall f :: f in states[i].flights ==> |states[i].flights[f].messages| <= 1
    ensures forall c :: c in states[i].clients && states[i].clients[c].Waiting? ==> states[i].clients[c].from == 0
  {
    RunKeeps(states, actions, i);
    forall f | f in states[i].flights ensures |states[i].flights[f].messages| <= 1 {
      assert Sensible(states[i].flights[f]);
    }
    forall c | c in states[i].clients && states[i].clients[c].Waiting? ensures states[i].clients[c].from == 0 {
      assert ClientFits(states[i].flights, states[i].clients[c]);
    }
  }

  /**
   Clients that shared a lookup end alike: the same answer, or all of them nothing when
   the leader died.
   */
  lemma SharedOutcome(states: seq<State>, actions: seq<Action>, i: nat, c: nat, d: nat)
    requires Run(states, actions) && i < |states| && c in states[i].clients && d in states[i].clients
    requires states[i].clients[c].Finished? && states[i].clients[d].Finished?
    requires states[i].clients[c].channel == states[i].clients[d].channel
    ensures states[i].clients[c].outcome == states[i].clients[d].outcome
    ensures states[i].clients[c].key == states[i].clients[d].key
  {
    RunKeeps(states, actions, i);
    var s := states[i];
    assert ClientFits(s.flights, s.clients[c]) && ClientFits(s.flights, s.clients[d]);
    assert Sensible(s.flights[s.clients[c].channel]);
  }

  // ---- Nobody is stranded ----

  /** Steps a flight's leader has left, at most. */
  function Rank(x: Flight): nat {
    (match x.stage
     case Spawning => 5
     case Resolving => 4
     case Settled(_) => 3
     case Dying => 0
     case Sent => 0) + (if x.guard then 1 else 0) + (if x.sender then 1 else 0)
  }

  /** A step a live leader can always take. */
  function NextStep(x: Flight): FlightStep {
    match x.stage
    case Spawning => Spawn
    case Resolving => Die
    case Settled(_) => if x.guard then DropGuard else Publish
    case Sent => DropSender
    case Dying => if x.guard then DropGuard else DropSender
  }

  /**
   A waiting client can receive now, or its leader is live: the leader can step, each of
   its steps brings it closer to its end, and nothing else moves it.
   */
  lemma NobodyStranded(states: seq<State>, actions: seq<Action>, i: nat, c: nat)
    requires Run(states, actions) && i < |actions| && c in states[i].clients && states[i].clients[c].Waiting?
    ensures var f := states[i].clients[c].channel;
            && f in states[i].flights && f in states[i + 1].flights
            && (CanReceive(states[i], c) || FlightCan(states[i], f, NextStep(states[i].flights[f])))
            && if actions[i].OfFlight? && actions[i].f == f
               then Rank(states[i + 1].flights[f]) < Rank(states[i].flights[f])
               else states[i + 1].flights[f] == states[i].flights[f]
  {
    RunKeeps(states, actions, i);
    var s, a := states[i], actions[i];
    assert ClientFits(s.flights, s.clients[c]);
    var f := s.clients[c].channel;
    assert Sensible(s.flights[f]);
    LeaderMoves(s, a, f);
  }

  lemma LeaderMoves(s: State, a: Action, f: nat)
    requires Invariant(s) && Can(s, a) && f in s.flights
    ensures f in Do(s, a).flights
    ensures if a.OfFlight? && a.f == f then Rank(Do(s, a).flights[f]) < Rank(s.flights[f])
            else Do(s, a).flights[f] == s.flights[f]
  {
    assert f < s.nextFlight && Sensible(s.flights[f]);
  }

  // ---- What is delivered ----

  /** A client that misses waits on the lookup under way for its key, or starts one that is to be spawned. */
  lemma JoinExactly(s: State, c: nat)
    requires Invariant(s) && Can(s, Join(c))
    ensures var key := s.clients[c].key; var s' := Do(s, Join(c));
            && c in s'.clients && s'.clients[c].Waiting? && s'.clients[c].key == key
            && if key in s.lookups then s'.clients[c].channel == s.lookups[key] && s'.flights == s.flights
               else s'.clients[c].channel !in s.flights
                    && s'.flights == s.flights[s'.clients[c].channel := Flight(key, Spawning, true, true, [])]
  {
  }

  /** The leader has this answer, or has sent it, or has died. */
  ghost predicate Carries(s: State, f: nat, answer: Option<Message>) {
    f in s.flights &&
    match s.flights[f].stage
    case Settled(a) => a == answer
    case Sent => s.flights[f].messages == [answer]
    case Dying => true
    case _ => false
  }

  lemma StepCarries(s: State, a: Action, f: nat, answer: Option<Message>)
    requires Invariant(s) && Can(s, a) && Carries(s, f, answer)
    ensures Carries(Do(s, a), f, answer)
  {
    LeaderMoves(s, a, f);
    assert Sensible(s.flights[f]);
  }

  lemma {:induction false} RunCarries(states: seq<State>, actions: seq<Action>, i: nat, j: nat, f: nat, answer: Option<Message>)
    requires Run(states, actions) && i < j < |states| && actions[i] == OfFlight(f, Resolve(answer))
    ensures Carries(states[j], f, answer)
  {
    if j == i + 1 {
      assert Can(states[i], actions[i]);
    } else {
      RunCarries(states, actions, i, j - 1, f, answer);
      RunKeeps(states, actions, j - 1);
      StepCarries(states[j - 1], actions[j - 1], f, answer);
    }
  }

  /** Whatever answer a client of a lookup ends with is the one its leader resolved. */
  lemma DeliveredExactly(states: seq<State>, actions: seq<Action>, i: nat, j: nat, f: nat, answer: Option<Message>, c: nat)
    requires Run(states, actions) && i < j < |states| && actions[i] == OfFlight(f, Resolve(answer))
    requires c in states[j].clients && states[j].clients[c].Finished? && states[j].clients[c].channel == f
    requires states[j].clients[c].outcome.Answered?
    ensures states[j].clients[c].outcome.answer == answer
  {
    RunCarries(states, actions, i, j, f, answer);
    RunKeeps(states, actions, j);
    assert ClientFits(states[j].flights, states[j].clients[c]) && Sensible(states[j].flights[f]);
  }

  // ---- Serve-stale refreshes ----

  /** A refresh task; `guard` until it has dropped its guard. */
  datatype Refresh = Refresh(key: CacheKey, guard: bool)

  datatype Refreshes = Refreshes(refreshing: set<CacheKey>, tasks: seq<Refresh>)

  datatype RefreshAction = StaleHit(key: CacheKey) | EndRefresh(r: nat)

  predicate RefreshCan(s: Refreshes, a: RefreshAction) {
    a.EndRefresh? ==> a.r < |s.tasks| && s.tasks[a.r].guard
  }

  function RefreshDo(s: Refreshes, a: RefreshAction): Refreshes
    requires RefreshCan(s, a)
  {
    match a
    case StaleHit(key) =>
      if key in s.refreshing then s else Refreshes(s.refreshing + {key}, s.tasks + [Refresh(key, true)])
    case EndRefresh(r) => Refreshes(s.refreshing - {s.tasks[r].key}, s.tasks[r := s.tasks[r].(guard := false)])
  }

  ghost predicate RefreshRun(states: seq<Refreshes>, actions: seq<RefreshAction>) {
    && |states| == |actions| + 1 && states[0] == Refreshes({}, [])
    && forall i :: 0 <= i < |actions| ==>
         RefreshCan(states[i], actions[i]) && states[i + 1] == RefreshDo(states[i], actions[i])
  }

  ghost predicate Runs(s: Refreshes, r: nat, key: CacheKey) {
    r < |s.tasks| && s.tasks[r].guard && s.tasks[r].key == key
  }

  ghost predicate OneRefreshEach(s: Refreshes) {
    && (forall r: nat :: r < |s.tasks| && s.tasks[r].guard ==> s.tasks[r].key in s.refreshing)
    && (forall key :: key in s.refreshing ==> exists r: nat :: Runs(s, r, key))
    && (forall key: CacheKey, r: nat, t: nat :: Runs(s, r, key) && Runs(s, t, key) ==> r == t)
  }

  lemma RefreshStepKeeps(s: Refreshes, a: RefreshAction)
    requires OneRefreshEach(s) && RefreshCan(s, a)
    ensures OneRefreshEach(RefreshDo(s, a))
  {
    var s' := RefreshDo(s, a);
    forall key | key in s'.refreshing ensures exists r: nat :: Runs(s', r, key) {
      if key in s.refreshing {
        var r :| Runs(s, r, key);
        if a.EndRefresh? && r == a.r { assert false; }
        assert Runs(s', r, key);
      } else {
        assert Runs(s', |s.tasks|, key);
      }
    }
    forall key: CacheKey, r: nat, t: nat | Runs(s', r, key) && Runs(s', t, key) ensures r == t {
      if r < |s.tasks| && t < |s.tasks| { assert Runs(s, r, key) && Runs(s, t, key); }
    }
    forall r: nat | r < |s'.tasks| && s'.tasks[r].guard ensures s'.tasks[r].key in s'.refreshing {
      if r < |s.tasks| {
        assert Runs(s, r, s.tasks[r].key);
        if a.EndRefresh? { assert Runs(s, a.r, s.tasks[a.r].key); }
      }
    }
  }

  /** A key is marked as being refreshed iff exactly one refresh of it runs. */
  lemma {:induction false} OneRefreshPerKey(states: seq<Refreshes>, actions: seq<RefreshAction>, i: nat)
    requires RefreshRun(states, actions) && i < |states|
    ensures OneRefreshEach(states[i])
  {
    if i > 0 {
      OneRefreshPerKey(states, actions, i - 1);
      RefreshStepKeeps(states[i - 1], actions[i - 1]);
    }
  }

  /** A stale hit leaves a refresh of its key running, and starts one exactly if none was. */
  lemma StaleHitRefreshes(states: seq<Refreshes>, actions: seq<RefreshAction>, i: nat, key: CacheKey)
    requires RefreshRun(states, actions) && i < |states|
    ensures var s := states[i]; var after := RefreshDo(s, StaleHit(key));
            && (exists r: nat :: Runs(after, r, key))
            && after.tasks == if exists r: nat :: Runs(s, r, key) then s.tasks else s.tasks + [Refresh(key, true)]
  {
    OneRefreshPerKey(states, actions, i);
    var s := states[i];
    if key in s.refreshing {
      var r: nat :| Runs(s, r, key);
      assert Runs(RefreshDo(s, StaleHit(key)), r, key);
    } else {
      assert Runs(RefreshDo(s, StaleHit(key)), |s.tasks|, key);
    }
  }

  // ---- Admission ----

  /** Queries being handled, by whether they were admitted or shed. */
  datatype Handling = Handling(inFlight: nat, admitted: nat, shed: nat)

  datatype HandleAction = Enters | AdmittedLeaves | ShedLeaves

  predicate HandleCan(s: Handling, a: HandleAction) {
    match a
    case Enters => true
    case AdmittedLeaves => s.admitted > 0 && s.inFlight > 0
    case ShedLeaves => s.shed > 0 && s.inFlight > 0
  }

  function HandleDo(s: Handling, a: HandleAction): Handling
    requires HandleCan(s, a)
  {
    match a
    case Enters =>
      if Admits(s.inFlight) then Handling(s.inFlight + 1, s.admitted + 1, s.shed)
      else Handling(s.inFlight + 1, s.admitted, s.shed + 1)
    case AdmittedLeaves => Handling(s.inFlight - 1, s.admitted - 1, s.shed)
    case ShedLeaves => Handling(s.inFlight - 1, s.admitted, s.shed - 1)
  }

  ghost predicate HandleRun(states: seq<Handling>, actions: seq<HandleAction>) {
    && |states| == |actions| + 1 && states[0] == Handling(0, 0, 0)
    && forall i :: 0 <= i < |actions| ==>
         HandleCan(states[i], actions[i]) && states[i + 1] == HandleDo(states[i], actions[i])
  }

  /** A query that comes is admitted exactly if fewer than 512 are being handled, shed ones included. */
  lemma AdmittedExactly(s: Handling)
    ensures var after := HandleDo(s, Enters);
            && after.inFlight == s.inFlight + 1
            && after.admitted == s.admitted + (if s.inFlight < 512 then 1 else 0)
            && after.shed == s.shed + (if s.inFlight < 512 then 0 else 1)
  {
  }

  /** Never more than 512 queries admitted at once; the counter counts the shed ones too. */
  lemma {:induction false} AdmissionBounded(states: seq<Handling>, actions: seq<HandleAction>, i: nat)
    requires HandleRun(states, actions) && i < |states|
    ensures states[i].inFlight == states[i].admitted + states[i].shed
    ensures states[i].admitted <= MAX_IN_FLIGHT_QUERIES
  {
    if i > 0 {
      AdmissionBounded(states, actions, i - 1);
    }
  }
}
