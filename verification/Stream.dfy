/** The parser as it runs: rules go to a vector, or straight into the engine while the text is still being read. */
module Streams {
  import opened Wrappers
  import opened Rules
  import opened Text
  import opened EngineModel
  import opened Engines
  import opened Parse
  import opened ParseProperties

  // ---- What adding rules in order makes of an engine ----

  /** The engine after these rules, one by one. */
  function AddedAll(v: EngineView, rules: seq<Rule>): (r: EngineView)
    requires v.store.Parallel()
    ensures r.store.Parallel() && r.listCount == v.listCount
  {
    if rules == [] then v else AddedAll(v, rules[..|rules| - 1]).Added(rules[|rules| - 1])
  }

  /** The log after these rules of one list. */
  function LoggedAll(log: seq<Logged>, list: nat, rules: seq<Rule>): (r: seq<Logged>)
    ensures |r| == |log| + |rules|
  {
    if rules == [] then log
    else LoggedAll(log, list, rules[..|rules| - 1]) + [Logged(list, rules[|rules| - 1])]
  }

  predicate AllStorable(rules: seq<Rule>) {
    forall i :: 0 <= i < |rules| ==> Storable(rules[i])
  }

  lemma AddedStep(v: EngineView, done: seq<Rule>, rule: Rule)
    requires v.store.Parallel()
    ensures AddedAll(v, done + [rule]) == AddedAll(v, done).Added(rule)
  {
    assert (done + [rule])[..|done|] == done;
  }

  lemma LoggedStep(log: seq<Logged>, list: nat, done: seq<Rule>, rule: Rule)
    ensures LoggedAll(log, list, done + [rule]) == LoggedAll(log, list, done) + [Logged(list, rule)]
  {
    assert (done + [rule])[..|done|] == done;
  }

  lemma PrefixNext(rules: seq<Rule>, done: seq<Rule>)
    requires done <= rules && |done| < |rules|
    ensures done + [rules[|done|]] <= rules
  {
  }

  lemma PrefixWhole(done: seq<Rule>, rules: seq<Rule>)
    requires done <= rules && |done| == |rules|
    ensures done == rules
  {
  }

  lemma StorableAt(rules: seq<Rule>, i: nat)
    requires AllStorable(rules) && i < |rules|
    ensures Storable(rules[i])
  {
  }

  /** `w` and `logged` are what `done` makes of `v` and `log`. */
  ghost predicate AddedSoFar(v: EngineView, log: seq<Logged>, list: nat, done: seq<Rule>, w: EngineView, logged: seq<Logged>) {
    v.store.Parallel() && w == AddedAll(v, done) && logged == LoggedAll(log, list, done)
  }

  lemma OneMore(v: EngineView, log: seq<Logged>, list: nat, done: seq<Rule>, rule: Rule, w: EngineView, logged: seq<Logged>)
    requires AddedSoFar(v, log, list, done, w, logged)
    ensures AddedSoFar(v, log, list, done + [rule], w.Added(rule), logged + [Logged(list, rule)])
  {
    AddedStep(v, done, rule);
    LoggedStep(log, list, done, rule);
  }

  lemma NothingAdded(v: EngineView, log: seq<Logged>, list: nat)
    requires v.store.Parallel()
    ensures AddedSoFar(v, log, list, [], v, log)
  {
  }

  // ---- The parser, handing rules to its sink and issues to its caller ----

  /** The sink is a vector, or with an engine that engine's current list too. */
  class Parser {
    const ipOf: IpOf
    /** The engine rules are added to as they are emitted, if any. */
    const engine: Engine?
    ghost const start: EngineView
    ghost const log0: seq<Logged>
    ghost const list: nat
    /** The rules handed to the sink, in call order. */
    var emitted: seq<Rule>
    var issues: seq<LineIssue>

    function Out(): Outcome
      reads this
    {
      Outcome(emitted, issues)
    }

    ghost function Fed(): set<object> {
      if engine == null then {} else {engine, engine.store, engine.subtree, engine.exact}
    }

    /** Whatever has been emitted so far is in the engine already. */
    ghost predicate Feeding()
      reads this`emitted, Fed()
    {
      engine != null ==>
        && engine.Valid() && engine.listCount == list + 1 <= MAX_LISTS
        && AddedSoFar(start, log0, list, emitted, engine.View(), engine.log)
    }

    /** Collect rules and issues. */
    constructor Collecting(ipOf: IpOf)
      ensures this.ipOf == ipOf && engine == null && Feeding() && Out() == NOTHING
    {
      this.ipOf := ipOf;
      engine := null;
      start, log0, list := EMPTY_ENGINE, [], 0;
      emitted, issues := [], [];
    }

    /** Add rules to the current list of `engine` as they are found. */
    constructor Into(ipOf: IpOf, engine: Engine)
      requires engine.Valid() && 0 < engine.listCount <= MAX_LISTS
      ensures this.ipOf == ipOf && this.engine == engine && Feeding() && Out() == NOTHING
      ensures start == engine.View() && log0 == engine.log && list == engine.listCount - 1
    {
      this.ipOf := ipOf;
      this.engine := engine;
      start, log0, list := engine.View(), engine.log, engine.listCount - 1;
      emitted, issues := [], [];
      new;
      NothingAdded(start, log0, list);
    }

    method Sink(rule: Rule)
      requires Feeding() && Storable(rule)
      modifies this, Fed()
      ensures Feeding() && Out() == old(Out()).Then(Outcome([rule], []))
    {
      if engine != null {
        OneMore(start, log0, list, emitted, rule, engine.View(), engine.log);
        engine.AddRule(rule);
      }
      emitted := emitted + [rule];
    }

    method Issue(lineNo: nat, text: string, reason: IssueReason)
      modifies this`issues
      ensures Out() == old(Out()).Then(Outcome([], [LineIssue(lineNo, text, reason)]))
    {
      issues := issues + [LineIssue(lineNo, text, reason)];
    }

    method ParseListStreamed(text: string)
      requires Feeding()
      modifies this, Fed()
      ensures Feeding() && Out() == old(Out()).Then(ListOutcome(text, ipOf))
    {
      var lines := Lines(text);
      ghost var parts := Outcomes(lines, ipOf);
      ghost var before := Out();
      ThenAssociates(before, NOTHING, NOTHING);
      var idx := 0;
      while idx < |lines|
        invariant 0 <= idx <= |lines|
        invariant Feeding() && Out() == before.Then(Merged(parts[..idx]))
      {
        ParseRaw(lines[idx], LineNumber(idx));
        MergedStep(before, parts, idx);
        idx := idx + 1;
      }
      assert parts[..idx] == parts;
    }

    /** The body of the loop over the lines. */
    method ParseRaw(raw: string, lineNo: nat)
      requires Feeding()
      modifies this, Fed()
      ensures Feeding() && Out() == old(Out()).Then(LineOutcome(Trim(raw), lineNo, ipOf))
    {
      var line := Trim(raw);
      var skip := SkipOrReportComment(line, lineNo);
      if !skip {
        ParseLine(line, lineNo);
      }
    }

    method SkipOrReportComment(line: string, lineNo: nat) returns (skip: bool)
      modifies this`issues
      ensures skip == Skipped(line)
      ensures Out() == if skip then old(Out()).Then(LineOutcome(line, lineNo, ipOf)) else old(Out())
    {
      if line == [] || line[0] == '!' { return true; }
      if line[0] == '[' && line[|line| - 1] == ']' { return true; }
      if line[0] == '#' {
        if CosmeticComment(line) {
          Issue(lineNo, line, CosmeticRule);
        }
        return true;
      }
      return false;
    }

    method ParseLine(line: string, lineNo: nat)
      requires Feeding()
      modifies this, Fed()
      ensures Feeding() && Out() == old(Out()).Then(ParsedLine(line, lineNo, ipOf))
    {
      var ip := HostIp(line, ipOf);
      if ip.Some? {
        ParseHostsLine(line, ip.value, lineNo);
      } else {
        ParseEntry(line, lineNo);
      }
    }

    /** The rest of `ParseLine`: exactly one rule or one issue. */
    method ParseEntry(line: string, lineNo: nat)
      requires Feeding()
      modifies this, Fed()
      ensures Feeding() && Out() == old(Out()).Then(EntryOutcome(line, lineNo))
    {
      if Cosmetic(line) {
        Issue(lineNo, line, CosmeticRule);
        return;
      }
      if '$' in line {
        Issue(lineNo, line, UnsupportedModifier);
        return;
      }
      if RegexLine(line) {
        Issue(lineNo, line, UnsupportedSyntax);
        return;
      }
      var action := if "@@" <= line then RuleAction.Except else RuleAction.Block;
      var rest := StripPrefix(line, "@@");
      var subtree := "||" <= rest;
      rest := StripCaret(StripPrefix(rest, "||"));
      if '^' in rest || (rest != [] && rest[0] == '|') {
        Issue(lineNo, line, UnsupportedSyntax);
        return;
      }
      var pattern := PatternOf(rest, subtree);
      if pattern.None? {
        Issue(lineNo, line, InvalidDomain);
        return;
      }
      EntryEmittable(line, lineNo);
      Sink(Rule(action, pattern.value, line, lineNo));
    }

    method ParseHostsLine(line: string, ip: Ip, lineNo: nat)
      requires Feeding()
      modifies this, Fed()
      ensures Feeding() && Out() == old(Out()).Then(HostsOutcome(line, ip, lineNo))
    {
      var names := HostNames(line);
      ThenAssociates(Out(), NOTHING, NOTHING);
      if names == [] { return; }
      if ip.Routable? {
        Issue(lineNo, line, UnsupportedHostsEntry);
        return;
      }
      ghost var before := Out();
      var i := 0;
      while i < |names|
        invariant 0 <= i <= |names|
        invariant Feeding() && Out() == before.Then(NamesOutcome(names[..i], line, lineNo))
      {
        ParseHostName(i, names[i], line, lineNo);
        NamesStep(before, names, i, line, lineNo);
        i := i + 1;
      }
      assert names[..i] == names;
    }

    method ParseHostName(ghost i: nat, name: string, line: string, lineNo: nat)
      requires Feeding() && i < |HostNames(line)| && name == HostNames(line)[i]
      modifies this, Fed()
      ensures Feeding() && Out() == old(Out()).Then(NameOutcome(name, line, lineNo))
    {
      var domain := NormalizeDomain(name);
      match domain {
        case Some(d) =>
          NameEmittable(line, lineNo, i, d);
          Sink(Rule(RuleAction.Block, Pattern.Exact(d), line, lineNo));
        case None => Issue(lineNo, line, InvalidDomain);
      }
    }
  }

  /** Parse `text` into the current list of `engine`, each rule added before parsing goes on. */
  method Feed(engine: Engine, text: string, ipOf: IpOf, ghost list: nat)
    returns (ghost emitted: seq<Rule>, rules: nat, issues: seq<LineIssue>)
    requires engine.Valid() && engine.listCount == list + 1 <= MAX_LISTS
    modifies engine, engine.store, engine.subtree, engine.exact
    ensures emitted == ListOutcome(text, ipOf).rules && rules == |emitted| && issues == ListOutcome(text, ipOf).issues
    ensures engine.Valid() && engine.listCount == list + 1
    ensures AddedSoFar(old(engine.View()), old(engine.log), list, emitted, engine.View(), engine.log)
  {
    ghost var v, log0 := engine.View(), engine.log;
    var parser := new Parser.Into(ipOf, engine);
    assert parser.start == v && parser.log0 == log0 && parser.list == list;
    parser.ParseListStreamed(text);
    ThenAssociates(NOTHING, ListOutcome(text, ipOf), NOTHING);
    emitted, rules, issues := parser.emitted, |parser.emitted|, parser.issues;
  }
}
