/** Building an engine from lists, parsed beforehand or streamed line by line. */
module Builder {
  import opened Rules
  import opened EngineModel
  import opened Engines
  import opened Parse
  import opened ParseProperties
  import opened Streams
  import opened Readable

  /** The log of several list texts in order. */
  function LogOfTexts(texts: seq<string>, ipOf: IpOf): seq<Logged> {
    if texts == [] then []
    else
      var last := |texts| - 1;
      LoggedAll(LogOfTexts(texts[..last], ipOf), last, ListOutcome(texts[last], ipOf).rules)
  }

  lemma LogStep(texts: seq<string>, i: nat, ipOf: IpOf)
    requires i < |texts|
    ensures LogOfTexts(texts[..i + 1], ipOf)
            == LoggedAll(LogOfTexts(texts[..i], ipOf), i, ListOutcome(texts[i], ipOf).rules)
  {
    assert texts[..i + 1][..i] == texts[..i];
  }

  ghost predicate SafeLog(log: seq<Logged>) {
    forall i :: 0 <= i < |log| ==> Safe(log[i].rule)
  }

  datatype AddedList = AddedList(index: nat, rules: nat, issues: seq<LineIssue>)

  /** The rules the parser hands to its sink, in call order, and the rejected lines. */
  method ParseText(text: string, ipOf: IpOf) returns (rules: seq<Rule>, issues: seq<LineIssue>)
    ensures rules == ListOutcome(text, ipOf).rules && issues == ListOutcome(text, ipOf).issues
    ensures AllStorable(rules)
  {
    var parser := new Parser.Collecting(ipOf);
    parser.ParseListStreamed(text);
    rules, issues := parser.emitted, parser.issues;
    ThenAssociates(NOTHING, ListOutcome(text, ipOf), NOTHING);
    ListIsSafe(text, ipOf);
    forall i | 0 <= i < |rules| ensures Storable(rules[i]) {
      assert rules[i] in rules;
    }
  }

  class EngineBuilder {
    const engine: Engine

    ghost predicate Valid()
      reads engine, engine.store, engine.subtree, engine.exact
    {
      engine.Valid()
    }

    constructor ()
      ensures Valid() && engine.log == [] && engine.View() == EMPTY_ENGINE
      ensures fresh(engine) && fresh(engine.store) && fresh(engine.subtree) && fresh(engine.exact)
    {
      engine := new Engine();
    }

    /** Rules parsed beforehand, as a new list. */
    method AddList(rules: seq<Rule>) returns (index: nat)
      requires Valid() && engine.listCount < MAX_LISTS
      requires AllStorable(rules)
      modifies engine, engine.store, engine.subtree, engine.exact
      ensures Valid() && index == old(engine.listCount)
      ensures AddedSoFar(old(engine.View()).(listCount := index + 1), old(engine.log), index, rules,
                         engine.View(), engine.log)
    {
      index := engine.BeginList();
      ghost var v, log0 := engine.View(), engine.log;
      AddRules(rules, index);
      assert AddedSoFar(v, log0, index, rules, engine.View(), engine.log);
    }

    /** Add these rules to the current list, which is number `list`. */
    method AddRules(rules: seq<Rule>, ghost list: nat)
      requires Valid() && engine.listCount == list + 1 <= MAX_LISTS
      requires AllStorable(rules)
      modifies engine`wild, engine`log, engine.store, engine.subtree, engine.exact
      ensures Valid() && AddedSoFar(old(engine.View()), old(engine.log), list, rules, engine.View(), engine.log)
    {
      ghost var v, log0 := engine.View(), engine.log;
      ghost var done: seq<Rule> := [];
      var i := 0;
      while i < |rules|
        invariant |done| == i <= |rules| && done <= rules
        invariant Valid() && AddedSoFar(v, log0, list, done, engine.View(), engine.log)
      {
        StorableAt(rules, i);
        PrefixNext(rules, done);
        AddOne(rules[i], v, log0, list, done);
        done := done + [rules[i]];
        i := i + 1;
      }
      PrefixWhole(done, rules);
    }

    method AddOne(rule: Rule, ghost v: EngineView, ghost log0: seq<Logged>, ghost list: nat, ghost done: seq<Rule>)
      requires Valid() && engine.listCount == list + 1 <= MAX_LISTS && Storable(rule)
      requires AddedSoFar(v, log0, list, done, engine.View(), engine.log)
      modifies engine`wild, engine`log, engine.store, engine.subtree, engine.exact
      ensures Valid() && AddedSoFar(v, log0, list, done + [rule], engine.View(), engine.log)
    {
      OneMore(v, log0, list, done, rule, engine.View(), engine.log);
      engine.AddRule(rule);
    }

    /** Parse a whole list straight into the engine, rule by rule; rejected lines are returned. */
    method AddListText(text: string, ipOf: IpOf) returns (added: AddedList)
      requires Valid() && engine.listCount < MAX_LISTS
      modifies engine, engine.store, engine.subtree, engine.exact
      ensures Valid() && added.index == old(engine.listCount) && engine.listCount == added.index + 1
      ensures AddedSoFar(old(engine.View()).(listCount := added.index + 1), old(engine.log), added.index,
                         ListOutcome(text, ipOf).rules, engine.View(), engine.log)
      ensures added.rules == |ListOutcome(text, ipOf).rules| && added.issues == ListOutcome(text, ipOf).issues
    {
      var index := engine.BeginList();
      ghost var emitted;
      var rules, issues;
      emitted, rules, issues := Feed(engine, text, ipOf, index);
      added := AddedList(index, rules, issues);
    }

    /** Add several list texts in order. */
    method AddTexts(texts: seq<string>, ipOf: IpOf)
      requires Valid() && engine.listCount == 0 && engine.log == [] && |texts| <= MAX_LISTS
      modifies engine, engine.store, engine.subtree, engine.exact
      ensures Valid() && engine.log == LogOfTexts(texts, ipOf)
    {
      var i := 0;
      while i < |texts|
        invariant 0 <= i <= |texts| && engine.listCount == i
        invariant Valid()
        invariant engine.log == LogOfTexts(texts[..i], ipOf)
      {
        LogStep(texts, i, ipOf);
        var added := AddListText(texts[i], ipOf);
        i := i + 1;
      }
      assert texts[..i] == texts;
    }

    /** The engine of the lists added so far, ready to be asked. */
    method Build() returns (built: Engine)
      requires Valid()
      modifies engine.store, engine.subtree, engine.exact
      ensures built == engine && engine.Ready() && engine.log == old(engine.log)
    {
      engine.Finish();
      built := engine;
    }
  }

  /** The rules and issues a list would contribute, without building anything. */
  method CountRules(text: string, ipOf: IpOf) returns (rules: nat, issues: nat)
    ensures rules == |ListOutcome(text, ipOf).rules| && issues == |ListOutcome(text, ipOf).issues|
  {
    var emitted, rejected := ParseText(text, ipOf);
    rules, issues := |emitted|, |rejected|;
  }

  lemma LogOfTextsIsSafe(texts: seq<string>, ipOf: IpOf)
    ensures SafeLog(LogOfTexts(texts, ipOf))
  {
    if texts != [] {
      var last := |texts| - 1;
      LogOfTextsIsSafe(texts[..last], ipOf);
      ListIsSafe(texts[last], ipOf);
      LoggedAllIsSafe(LogOfTexts(texts[..last], ipOf), last, ListOutcome(texts[last], ipOf).rules);
    }
  }

  lemma {:induction false} LoggedAllIsSafe(log: seq<Logged>, list: nat, rules: seq<Rule>)
    requires SafeLog(log) && forall r :: r in rules ==> Safe(r)
    ensures SafeLog(LoggedAll(log, list, rules))
  {
    if rules != [] { LoggedAllIsSafe(log, list, rules[..|rules| - 1]); }
  }

  ghost predicate ParsedLog(log: seq<Logged>) {
    forall i :: 0 <= i < |log| ==> ParsedPattern(log[i].rule.pattern)
  }

  lemma {:induction false} LoggedAllIsParsed(log: seq<Logged>, list: nat, rules: seq<Rule>)
    requires ParsedLog(log) && forall r :: r in rules ==> ParsedPattern(r.pattern)
    ensures ParsedLog(LoggedAll(log, list, rules))
  {
    if rules != [] { LoggedAllIsParsed(log, list, rules[..|rules| - 1]); }
  }

  lemma {:induction false} LogIsParsed(texts: seq<string>, ipOf: IpOf)
    ensures ParsedLog(LogOfTexts(texts, ipOf))
  {
    if texts != [] {
      var last := |texts| - 1;
      LogIsParsed(texts[..last], ipOf);
      ListIsParsed(texts[last], ipOf);
      LoggedAllIsParsed(LogOfTexts(texts[..last], ipOf), last, ListOutcome(texts[last], ipOf).rules);
    }
  }

  lemma LogOfTextsIsParsed(texts: seq<string>, ipOf: IpOf)
    ensures AllParsed(RulesOf(LogOfTexts(texts, ipOf)))
  {
    LogIsParsed(texts, ipOf);
  }

  /** Load several lists and compile them. */
  method Load(texts: seq<string>, ipOf: IpOf) returns (engine: Engine)
    requires |texts| <= MAX_LISTS
    ensures fresh(engine) && engine.Ready() && engine.log == LogOfTexts(texts, ipOf)
    ensures ProperRules(RulesOf(engine.log)) && SafeLog(engine.log)
  {
    var builder := new EngineBuilder();
    builder.AddTexts(texts, ipOf);
    engine := builder.Build();
    LogOfTextsIsSafe(texts, ipOf);
  }

  /** A reported rule is one of the log that matches by the reference, shown as it was written. */
  ghost predicate Truthful(v: Verdict, log: seq<Logged>, query: string) {
    v.NoMatch? || exists id :: 0 <= id < |log| && Shows(v, log[id], query)
  }

  ghost predicate Shows(v: Verdict, l: Logged, query: string)
    requires !v.NoMatch?
  {
    && PatternMatches(l.rule.pattern, Normalized(query))
    && v.list == l.list && v.rule.line == l.rule.line && v.rule.action == l.rule.action
    && (v.ExceptedBy? <==> l.rule.action.Except?)
    && v.rule.text <= l.rule.text && (|l.rule.text| <= 255 ==> v.rule.text == l.rule.text)
  }

  lemma JustifiedIsTruthful(v: Verdict, log: seq<Logged>, query: string)
    requires Justified(v, log, query) && SafeLog(log) && AllParsed(RulesOf(log)) && ReadRight(Normalized(query))
    requires KindOf(v) == EngineDecision(RulesOf(log), query)
    ensures Truthful(v, log, query)
  {
    if !v.NoMatch? {
      var id :| 0 <= id < |log| && Names(v, log[id], query);
      assert RulesOf(log)[id] == log[id].rule;
      ParsedMatches(log[id].rule.pattern, Normalized(query));
      RebuiltIsPrefix(log[id].rule);
      assert Shows(v, log[id], query);
    }
  }

  /** What the compiled engine answers once these texts are loaded. */
  ghost function Answered(texts: seq<string>, ipOf: IpOf, query: string): Kind {
    EngineDecision(RulesOf(LogOfTexts(texts, ipOf)), query)
  }

  /**
   The whole path: for every set of list texts and every name that reads right, the
   compiled engine gives the reference verdict on the rules parsed from those texts, and
   any rule it reports is one of them that matches, with its own list, line and text.
   */
  method LoadAndAsk(texts: seq<string>, ipOf: IpOf, query: string) returns (v: Verdict)
    requires |texts| <= MAX_LISTS
    ensures ReadRight(Normalized(query)) ==>
              && KindOf(v) == Reference(RulesOf(LogOfTexts(texts, ipOf)), query)
              && Truthful(v, LogOfTexts(texts, ipOf), query)
    ensures KindOf(v) == Answered(texts, ipOf, query)
  {
    var engine := Load(texts, ipOf);
    v := engine.Verdict(query);
    if ReadRight(Normalized(query)) {
      LogOfTextsIsParsed(texts, ipOf);
      ParsedDecision(RulesOf(engine.log), query);
      JustifiedIsTruthful(v, engine.log, query);
    }
  }
}
