/**
 An upstream that can be used again is used again: what each step does to the connection
 and to the query, and that from every state of every run the next query can be answered.
 */
module UpstreamRecovery {
  import opened Basics
  import opened Wrappers
  import opened Upstream
  import opened UpstreamRuns
  import opened UpstreamRates

  // ---- What a query finds ----

  /** A query fails at once exactly while the retry time has not come, and sends exactly on the connection installed. */
  lemma LookUpExactly(s: State, q: nat)
    requires QueryCan(s, q, LookUp)
    ensures var s' := Do(s, OfQuery(q, LookUp)); var before, after := s.running[q], s'.running[q];
            && s'.shared == s.shared && s'.tasks == s.tasks
            && (after.phase.Failing? <==> s.shared.conn.Down? && s.now < s.shared.conn.retryAt)
            && (after.phase.Sending? <==> s.shared.conn.Connected?)
            && (after.phase.Triggering? <==> s.shared.conn.Connecting? || (s.shared.conn.Down? && s.shared.conn.retryAt <= s.now))
            && (after.phase.Sending? ==>
                  && after.phase == Sending(s.shared.conn.generation, s.shared.conn.transport, before.phase.again)
                  && after.sends == before.sends + 1)
            && (after.phase.Triggering? ==> after.phase == Triggering(before.phase.seen, before.phase.again))
  {
  }

  /** Asking for a repair starts one exactly if the upstream is down and its retry time has come. */
  lemma TriggerExactly(s: State, q: nat, what: QueryStep)
    requires QueryCan(s, q, what) && (what.Trigger? || what.Retrigger?)
    ensures var s' := Do(s, OfQuery(q, what));
            if s.shared.conn.Down? && s.shared.conn.retryAt <= s.now
            then s'.shared == s.shared.(conn := Connecting) && s'.nextTask == s.nextTask + 1
                 && s'.tasks == s.tasks[s.nextTask := Spawning]
            else s'.shared == s.shared && s'.tasks == s.tasks && s'.nextTask == s.nextTask
    ensures var after := Do(s, OfQuery(q, what)).running[q].phase;
            && (what.Trigger? ==> after.Waiting? && after.seen == s.running[q].phase.seen)
            && (what.Retrigger? ==> after == if s.running[q].phase.retry then Entering(true) else Failing)
  {
  }

  /**
   A good answer is accepted; a bad one and an error about the query leave the connection alone;
   a dead connection and a hang condemn it, and only a query that has lost none before sends again.
   */
  lemma ReplyExactly(s: State, q: nat, reply: Reply)
    requires QueryCan(s, q, Receive(reply))
    ensures var s' := Do(s, OfQuery(q, Receive(reply))); var was, after := s.running[q].phase, s'.running[q].phase;
            && s'.shared == s.shared && s'.tasks == s.tasks
            && (after.Accepting? <==> reply.Good?)
            && (after.Failing? <==> reply.BadRcode? || reply.QueryError?)
            && (after.Condemning? <==> reply.Fatal? || reply.Hang?)
            && (after.Condemning? ==>
                  && after.generation == was.generation && after.transport == was.transport
                  && (after.retry <==> reply.Fatal? && !was.again))
  {
  }

  /** A condemned connection goes down until its probation is over, and nothing else does. */
  lemma CondemnExactly(s: State, q: nat)
    requires QueryCan(s, q, Condemn)
    ensures var s' := Do(s, OfQuery(q, Condemn)); var was, after := s.running[q].phase, s'.running[q].phase;
            && s'.tasks == s.tasks
            && if s.shared.conn.Connected? && s.shared.conn.generation == was.generation
               then s'.shared == s.shared.(conn := Down(match s.shared.conn.probation case None => s.now case Some(end) => end))
                    && after == Rebuilding(was.retry)
               else s'.shared == s.shared && after == if was.retry then Entering(true) else Failing
  {
  }

  /** An answer resets the backoff to 500 ms and ends the probation of the connection installed. */
  lemma AnswerExactly(s: State, q: nat)
    requires QueryCan(s, q, Accept)
    ensures var s1 := Do(s, OfQuery(q, Accept));
            && s1.shared == s.shared.(backoff := 500) && QueryCan(s1, q, Prove)
            && var s2 := Do(s1, OfQuery(q, Prove));
               && s2.answered == s.answered + 1 && q !in s2.running && s2.shared.backoff == 500
               && s2.shared.conn == match s.shared.conn
                                    case Connected(g, t, _) => Connected(g, t, None)
                                    case _ => s.shared.conn
  {
  }

  /** The guard ends nothing but a connecting left behind, which is then due at once. */
  lemma GuardExactly(s: State, t: nat)
    requires TaskCan(s, t, Guard)
    ensures var s' := Do(s, OfTask(t, Guard));
            s'.shared == s.shared.(conn := if s.shared.conn.Connecting? then Down(s.now) else s.shared.conn)
  {
  }

  // ---- Going on from a state ----

  /** Some sequence of steps leads from `s` to `u`. */
  ghost predicate Onward(s: State, u: State) {
    exists steps :: Leads(s, steps, u)
  }

  function Then(steps: Steps, a: Action): Steps {
    match steps
    case Done => First(a, Done)
    case First(b, rest) => First(b, Then(rest, a))
  }

  lemma {:induction false} LeadsFurther(s: State, steps: Steps, u: State, a: Action)
    requires Leads(s, steps, u) && Can(u, a)
    ensures Leads(s, Then(steps, a), Do(u, a))
    decreases steps
  {
    match steps
    case Done => assert Leads(Do(u, a), Done, Do(u, a));
    case First(b, rest) => LeadsFurther(Do(s, b), rest, u, a);
  }

  lemma Further(s: State, u: State, a: Action) returns (v: State)
    requires Onward(s, u) && Invariant(u) && Can(u, a)
    ensures v == Do(u, a) && Onward(s, v) && Invariant(v)
  {
    v := Do(u, a);
    var steps :| Leads(s, steps, u);
    LeadsFurther(s, steps, u, a);
    StepKeeps(u, a);
  }

  lemma Here(s: State)
    ensures Onward(s, s)
  {
    assert Leads(s, Done, s);
  }

  // ---- Recovery ----

  /** A query that has just come and has subscribed. */
  lemma NewQuery(s: State, u: State) returns (v: State, q: nat)
    requires Onward(s, u) && Invariant(u)
    ensures Onward(s, v) && Invariant(v) && q !in u.running
    ensures v == u.(shared := u.shared.(queries := q + 1), running := u.running[q := Query(Subscribed(u.shared.version, false), 0)])
  {
    q := u.shared.queries;
    v := Further(s, u, Begin);
    v := Further(s, v, OfQuery(q, Subscribe));
  }

  /** Down and due: the next query starts a build and waits for it. */
  lemma DueIsRepaired(s: State, u: State) returns (v: State, q: nat, t: nat)
    requires Onward(s, u) && Invariant(u) && u.shared.conn.Down? && u.shared.conn.retryAt <= u.now
    ensures Onward(s, v) && Invariant(v) && v.shared.conn == Connecting
    ensures q !in u.running && q in v.running && v.running[q] == Query(Waiting(v.shared.version, false), 0)
    ensures t !in u.tasks && t in v.tasks && v.tasks[t] == Spawning
    ensures v.answered == u.answered && v.shared.failures == u.shared.failures && v.installed == u.installed
  {
    v, q := NewQuery(s, u);
    LookUpExactly(v, q);
    v := Further(s, v, OfQuery(q, LookUp));
    t := v.nextTask;
    assert t !in u.tasks;
    TriggerExactly(v, q, Trigger);
    v := Further(s, v, OfQuery(q, Trigger));
  }

  /** What the tail of a good build leaves. */
  ghost predicate Rebuilt(before: State, after: State, t: nat) {
    && after.shared.conn.Connected? && after.shared.conn.transport == t && after.shared.conn.generation !in before.installed
    && after.installed == before.installed + [after.shared.conn.generation]
    && after.running == before.running && after.answered == before.answered && after.shared.failures == before.shared.failures
  }

  lemma BuildIsNumbered(s: State, u: State, t: nat) returns (v: State)
    requires Onward(s, u) && Invariant(u) && t in u.tasks && u.tasks[t] == Spawning
    ensures Onward(s, v) && Invariant(v) && t in v.tasks && v.tasks[t].Numbered?
    ensures v.installed == u.installed && v.running == u.running && v.answered == u.answered
    ensures v.shared.failures == u.shared.failures && v.shared.version == u.shared.version
  {
    v := Further(s, u, OfTask(t, Spawn));
    v := Further(s, v, OfTask(t, Finish(true)));
    v := Further(s, v, OfTask(t, Load));
    v := Further(s, v, OfTask(t, Number));
  }

  /** A build that succeeds is installed with a fresh generation. */
  lemma BuildInstalls(s: State, u: State, t: nat) returns (v: State)
    requires Onward(s, u) && Invariant(u) && t in u.tasks && u.tasks[t] == Spawning
    ensures Onward(s, v) && Invariant(v) && Rebuilt(u, v, t)
    ensures t in v.tasks && v.tasks[t].Saving? && v.shared.version == u.shared.version
  {
    v := BuildIsNumbered(s, u, t);
    assert TaskNamed(v.made, v.installed, t, v.tasks[t]);
    v := Further(s, v, OfTask(t, ReadClock));
    v := Further(s, v, OfTask(t, Install));
  }

  /** The end of that build wakes whoever waits. */
  lemma BuildEnds(s: State, u: State, t: nat) returns (v: State)
    requires Onward(s, u) && Invariant(u) && t in u.tasks && u.tasks[t].Saving? && u.shared.conn.Connected?
    ensures Onward(s, v) && Invariant(v) && v.shared.conn == u.shared.conn && v.running == u.running
    ensures v.shared.version == u.shared.version + 1 && v.answered == u.answered
    ensures v.shared.failures == u.shared.failures && v.installed == u.installed
  {
    v := Further(s, u, OfTask(t, Save));
    v := Further(s, v, OfTask(t, Guard));
    v := Further(s, v, OfTask(t, Bump));
  }

  /** A subscribed query on a connected upstream is answered if the answer comes. */
  lemma ConnectedAnswers(s: State, u: State, q: nat) returns (v: State)
    requires Onward(s, u) && Invariant(u) && u.shared.conn.Connected?
    requires q in u.running && u.running[q].phase.Subscribed?
    ensures Onward(s, v) && v.answered == u.answered + 1 && q !in v.running && v.shared.failures == u.shared.failures
    ensures v.shared.conn == u.shared.conn.(probation := None) && v.shared.backoff == 500
  {
    v := Further(s, u, OfQuery(q, LookUp));
    v := Further(s, v, OfQuery(q, Receive(Good)));
    v := Further(s, v, OfQuery(q, Accept));
    v := Further(s, v, OfQuery(q, Prove));
  }

  /** Down and due: the next query can be answered, on a new connection. */
  lemma DueIsAnswered(s: State, u: State) returns (v: State)
    requires Onward(s, u) && Invariant(u) && u.shared.conn.Down? && u.shared.conn.retryAt <= u.now
    ensures Onward(s, v) && v.answered == u.answered + 1 && v.shared.failures == u.shared.failures
    ensures v.shared.conn.Connected? && v.shared.conn.probation.None? && v.shared.conn.generation !in u.installed
    ensures v.shared.backoff == 500
  {
    var q, t;
    v, q, t := DueIsRepaired(s, u);
    var seen := v.shared.version;
    v := BuildInstalls(s, v, t);
    v := BuildEnds(s, v, t);
    assert v.running[q].phase == Waiting(seen, false);
    v := Further(s, v, OfQuery(q, Wake));
    v := Further(s, v, OfQuery(q, Subscribe));
    v := ConnectedAnswers(s, v, q);
  }

  /** A repair that has yet to run its guard can run it, and then nothing is connecting. */
  lemma {:induction false} RepairReleases(s: State, u: State, t: nat) returns (v: State)
    requires Onward(s, u) && Invariant(u) && t in u.tasks && !u.tasks[t].Bumping?
    ensures Onward(s, v) && Invariant(v) && !v.shared.conn.Connecting?
    ensures v.answered == u.answered && v.shared.failures == u.shared.failures
    decreases Rank(u.tasks[t])
  {
    RepairConcludes(u, OfTask(t, NextStep(u.tasks[t])), t);
    v := Further(s, u, OfTask(t, NextStep(u.tasks[t])));
    if !u.tasks[t].Guarding? {
      v := RepairReleases(s, v, t);
    }
  }

  /**
   No state of any run is a dead end: the next query can be answered, and then the connection
   is proven and the backoff is back at 500 ms.
   */
  lemma AlwaysAnswerable(states: seq<State>, actions: seq<Action>, i: nat) returns (v: State)
    requires Run(states, actions) && i < |states|
    ensures Onward(states[i], v) && v.answered == states[i].answered + 1 && v.shared.failures == states[i].shared.failures
    ensures v.shared.conn.Connected? && v.shared.conn.probation.None? && v.shared.backoff == 500
  {
    var s := states[i];
    RunKeeps(states, actions, i);
    Here(s);
    var u := s;
    if s.shared.conn.Connecting? {
      var t :| t in s.tasks && !s.tasks[t].Bumping?;
      u := RepairReleases(s, u, t);
    }
    if u.shared.conn.Down? {
      if u.now < u.shared.conn.retryAt {
        u := Further(s, u, Tick(u.shared.conn.retryAt - u.now));
      }
      v := DueIsAnswered(s, u);
    } else {
      var q;
      v, q := NewQuery(s, u);
      v := ConnectedAnswers(s, v, q);
    }
  }

  /** From every down and due state of every run the next query's own steps lead to a build under way. */
  lemma DueIsNeverRefused(states: seq<State>, actions: seq<Action>, i: nat) returns (v: State, q: nat, t: nat)
    requires Run(states, actions) && i < |states|
    requires states[i].shared.conn.Down? && states[i].shared.conn.retryAt <= states[i].now
    ensures q !in states[i].running
    ensures Leads(states[i], First(Begin, First(OfQuery(q, Subscribe), First(OfQuery(q, LookUp), First(OfQuery(q, Trigger), Done)))), v)
    ensures v.shared.conn == Connecting && t !in states[i].tasks && t in v.tasks && v.tasks[t] == Spawning
    ensures q in v.running && v.running[q].phase.Waiting?
  {
    var s := states[i];
    RunKeeps(states, actions, i);
    q, t := s.shared.queries, s.nextTask;
    var s1 := Do(s, Begin);
    var s2 := Do(s1, OfQuery(q, Subscribe));
    LookUpExactly(s2, q);
    var s3 := Do(s2, OfQuery(q, LookUp));
    TriggerExactly(s3, q, Trigger);
    v := Do(s3, OfQuery(q, Trigger));
    assert Leads(v, Done, v);
    assert Leads(s3, First(OfQuery(q, Trigger), Done), v);
    assert Leads(s2, First(OfQuery(q, LookUp), First(OfQuery(q, Trigger), Done)), v);
    assert Leads(s1, First(OfQuery(q, Subscribe), First(OfQuery(q, LookUp), First(OfQuery(q, Trigger), Done))), v);
  }
}
