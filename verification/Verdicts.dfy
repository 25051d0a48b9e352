/** From the text of the lists and the name typed to the verdict, in terms of what they say. */
module Verdicts {
  import opened Wrappers
  import opened Labels
  import opened Rules
  import opened Text
  import opened EngineModel
  import opened Engines
  import opened Parse
  import opened ParseProperties
  import opened Streams
  import opened Readable
  import opened Builder
  import opened Exactness
  import opened Meaning
  import opened Layout
  import opened Grammar

  // ---- Which rules are loaded ----

  /** Line `i` of list `k` is a rule with this action and pattern. */
  ghost predicate SaysAt(texts: seq<string>, ipOf: IpOf, k: nat, i: nat, action: RuleAction, p: Pattern) {
    k < |texts| && i < |Lines(texts[k])| && LineSays(Trim(Lines(texts[k])[i]), ipOf, action, p)
  }

  ghost predicate Says(texts: seq<string>, ipOf: IpOf, action: RuleAction, p: Pattern) {
    exists k, i :: SaysAt(texts, ipOf, k, i, action, p)
  }

  ghost predicate Loaded(rules: seq<Rule>, action: RuleAction, p: Pattern) {
    exists r :: r in rules && r.action == action && r.pattern == p
  }

  lemma {:induction false} LoggedMembers(log: seq<Logged>, list: nat, rules: seq<Rule>, r: Rule)
    ensures r in RulesOf(LoggedAll(log, list, rules)) <==> r in RulesOf(log) || r in rules
  {
    if rules != [] {
      var front, last := rules[..|rules| - 1], rules[|rules| - 1];
      LoggedMembers(log, list, front, r);
      assert RulesOf(LoggedAll(log, list, rules)) == RulesOf(LoggedAll(log, list, front)) + [last];
      assert rules == front + [last];
    }
  }

  ghost predicate InList(texts: seq<string>, ipOf: IpOf, k: nat, r: Rule) {
    k < |texts| && r in ListOutcome(texts[k], ipOf).rules
  }

  ghost predicate InSome(texts: seq<string>, ipOf: IpOf, r: Rule) {
    exists k :: InList(texts, ipOf, k, r)
  }

  lemma InSomeStep(front: seq<string>, last: string, ipOf: IpOf, r: Rule)
    ensures InSome(front + [last], ipOf, r) <==> InSome(front, ipOf, r) || r in ListOutcome(last, ipOf).rules
  {
    var texts := front + [last];
    if k: nat :| InList(front, ipOf, k, r) {
      assert texts[k] == front[k];
      assert InList(texts, ipOf, k, r);
    }
    if r in ListOutcome(last, ipOf).rules { assert InList(texts, ipOf, |front|, r); }
    if k: nat :| InList(texts, ipOf, k, r) {
      if k < |front| { assert InList(front, ipOf, k, r); }
    }
  }

  lemma {:induction false} LogMembers(texts: seq<string>, ipOf: IpOf, r: Rule)
    ensures r in RulesOf(LogOfTexts(texts, ipOf)) <==> InSome(texts, ipOf, r)
  {
    if texts != [] {
      var last := |texts| - 1;
      var front := texts[..last];
      LogMembers(front, ipOf, r);
      LoggedMembers(LogOfTexts(front, ipOf), last, ListOutcome(texts[last], ipOf).rules, r);
      InSomeStep(front, texts[last], ipOf, r);
      assert texts == front + [texts[last]];
    }
  }

  /** A rule is loaded exactly if some line says it. */
  lemma LoadedExactly(texts: seq<string>, ipOf: IpOf, action: RuleAction, p: Pattern)
    ensures Loaded(RulesOf(LogOfTexts(texts, ipOf)), action, p) <==> Says(texts, ipOf, action, p)
  {
    if Loaded(RulesOf(LogOfTexts(texts, ipOf)), action, p) {
      var r :| r in RulesOf(LogOfTexts(texts, ipOf)) && r.action == action && r.pattern == p;
      LogMembers(texts, ipOf, r);
      var k: nat :| InList(texts, ipOf, k, r);
      ListGrammar(texts[k], ipOf, r);
      var i: nat :| RuleAt(texts[k], ipOf, r, i);
      assert SaysAt(texts, ipOf, k, i, action, p);
    }
    if k: nat, i: nat :| SaysAt(texts, ipOf, k, i, action, p) {
      var r := Rule(action, p, Trim(Lines(texts[k])[i]), NumberOf(i));
      assert RuleAt(texts[k], ipOf, r, i);
      ListGrammar(texts[k], ipOf, r);
      assert InList(texts, ipOf, k, r);
      LogMembers(texts, ipOf, r);
    }
  }

  // ---- The verdict ----

  /** Some line with this action means the name. */
  ghost predicate SaysOf(texts: seq<string>, ipOf: IpOf, action: RuleAction, name: string) {
    exists p :: Says(texts, ipOf, action, p) && Means(p, name)
  }

  ghost predicate MatchedBy(rules: seq<Rule>, action: RuleAction, name: string) {
    exists j :: 0 <= j < |rules| && rules[j].action == action && PatternMatches(rules[j].pattern, name)
  }

  lemma LoadedMatches(rules: seq<Rule>, action: RuleAction, p: Pattern, name: string)
    requires Loaded(rules, action, p) && PatternMatches(p, name)
    ensures MatchedBy(rules, action, name)
  {
    var r :| r in rules && r.action == action && r.pattern == p;
    var j :| 0 <= j < |rules| && rules[j] == r;
  }

  lemma MatcherLoaded(rules: seq<Rule>, action: RuleAction, name: string) returns (p: Pattern)
    requires MatchedBy(rules, action, name)
    ensures Loaded(rules, action, p) && PatternMatches(p, name)
  {
    var j :| 0 <= j < |rules| && rules[j].action == action && PatternMatches(rules[j].pattern, name);
    p := rules[j].pattern;
    assert rules[j] in rules;
  }

  lemma MatchedExactly(texts: seq<string>, ipOf: IpOf, action: RuleAction, name: string)
    ensures MatchedBy(RulesOf(LogOfTexts(texts, ipOf)), action, name) <==> SaysOf(texts, ipOf, action, name)
  {
    var rules := RulesOf(LogOfTexts(texts, ipOf));
    if MatchedBy(rules, action, name) {
      var p := MatcherLoaded(rules, action, name);
      LoadedExactly(texts, ipOf, action, p);
      PatternMeaning(p, name);
    }
    if SaysOf(texts, ipOf, action, name) {
      var p :| Says(texts, ipOf, action, p) && Means(p, name);
      LoadedExactly(texts, ipOf, action, p);
      PatternMeaning(p, name);
      LoadedMatches(rules, action, p, name);
    }
  }

  lemma ScanIsMatching(rules: seq<Rule>, name: string)
    ensures Scan(rules, name, 0, false) ==
            if MatchedBy(rules, RuleAction.Except, name) then KExcept
            else if MatchedBy(rules, RuleAction.Block, name) then KBlock else KNoMatch
  {
    ScanMeaning(rules, name, 0, false);
    if j :| 0 <= j < |rules| && PatternMatches(rules[j].pattern, name) {
      assert rules[j].action.Except? || rules[j].action.Block?;
    }
  }

  /**
   The whole program in one statement: whatever list texts are loaded and however a name is
   typed, an exception line that means the name lets it through, else a line that blocks
   it blocks it, else it passes. For every name that reads right and does not itself end in a dot.
   */
  lemma VerdictMeaning(texts: seq<string>, ipOf: IpOf, typed: string, name: string)
    requires Spells(typed, name) && NoCapitals(name) && !EndsInDot(name) && ReadRight(name)
    ensures Answered(texts, ipOf, typed) ==
            if !(1 <= |name| <= 253) then KNoMatch
            else if SaysOf(texts, ipOf, RuleAction.Except, name) then KExcept
            else if SaysOf(texts, ipOf, RuleAction.Block, name) then KBlock
            else KNoMatch
  {
    NormalizedExactly(typed, name);
    ListsReadRight(texts, ipOf, typed);
    if 1 <= |name| <= 253 {
      MatchedExactly(texts, ipOf, RuleAction.Except, name);
      MatchedExactly(texts, ipOf, RuleAction.Block, name);
      ScanIsMatching(RulesOf(LogOfTexts(texts, ipOf)), name);
    }
  }

  /** Names that differ in case alone are answered alike, whatever is loaded. */
  lemma AnyCase(texts: seq<string>, ipOf: IpOf, a: string, b: string)
    requires SameButCase(a, b)
    ensures Answered(texts, ipOf, a) == Answered(texts, ipOf, b)
  {
    CaseIsInvisible(RulesOf(LogOfTexts(texts, ipOf)), a, b);
  }

  // ---- One domain and what is below it ----

  ghost predicate AtOrBelow(name: string, d: string) {
    name == d || Behind(name, d)
  }

  /** A name at or below `d` as it may be typed. */
  ghost predicate TypedBelow(typed: string, name: string, d: string) {
    Spells(typed, name) && NoCapitals(name) && !EndsInDot(name) && 1 <= |name| <= 253 && AtOrBelow(name, d)
  }

  /** The engine's probe for a legal domain is right on every name that does not end in a dot. */
  lemma ProbeMeaning(d: string, name: string)
    requires LegalDomain(d) && name != "" && !EndsInDot(name)
    ensures EngineMatches(Subtree(d), name) <==> AtOrBelow(name, d)
  {
    DomainExactly(d);
    SubtreeReadRight(name, d);
    BehindExactly(name, d);
  }

  /** With the one line `||d^` loaded exactly `d` and the names below it are blocked, in any case and with or without a final dot. */
  lemma SubtreeBlocked(d: string, ipOf: IpOf, typed: string, name: string)
    requires LegalDomain(d) && AddressSyntax(ipOf)
    requires Spells(typed, name) && NoCapitals(name) && !EndsInDot(name) && 1 <= |name| <= 253
    ensures Answered(["||" + d + "^"], ipOf, typed) == if AtOrBelow(name, d) then KBlock else KNoMatch
  {
    DomainExactly(d);
    NormalizedExactly(typed, name);
    SubtreeLine(d, ipOf);
    OneLineList("||" + d + "^", ipOf, Subtree(d));
    ProbeMeaning(d, name);
    OneRuleDecides(["||" + d + "^"], ipOf, typed, name, Subtree(d));
  }

  lemma OneRuleDecides(texts: seq<string>, ipOf: IpOf, typed: string, name: string, p: Pattern)
    requires HoldsOnly(texts, ipOf, p) && Normalized(typed) == name && 1 <= |name| <= 253
    ensures Answered(texts, ipOf, typed) == if EngineMatches(p, name) then KBlock else KNoMatch
  {
    var rules := RulesOf(LogOfTexts(texts, ipOf));
    assert rules[0].pattern == p && rules[0].action.Block?;
  }

  /** In whatever lists it stands and whatever else they say, `@@||d^` lets `d` and the names below it through. */
  lemma ExceptionWins(texts: seq<string>, ipOf: IpOf, d: string, typed: string, name: string)
    requires Says(texts, ipOf, RuleAction.Except, Subtree(d)) && LegalDomain(d)
    requires TypedBelow(typed, name, d)
    ensures Answered(texts, ipOf, typed) == KExcept
  {
    NormalizedExactly(typed, name);
    LoadedExactly(texts, ipOf, RuleAction.Except, Subtree(d));
    ProbeMeaning(d, name);
    var rules := RulesOf(LogOfTexts(texts, ipOf));
    var r :| r in rules && r.action == RuleAction.Except && r.pattern == Subtree(d);
    var j :| 0 <= j < |rules| && rules[j] == r;
  }

  // ---- Exceptions as they are written ----

  lemma SpelledAsIs(s: string)
    ensures Spells(s, s)
  {
  }

  /** A line of entry bytes that no address holds is a list of one entry. */
  lemma EntryAlone(line: string, ipOf: IpOf)
    requires line != "" && EntryBytesOnly(line) && AddressSyntax(ipOf) && '@' in line
    ensures Lines(line) == [line] && Trim(line) == line && HostIp(line, ipOf) == None
  {
    NoBreak(line);
    PlainTokens(line);
    NoZone(line);
  }

  lemma NoZone(line: string)
    requires EntryBytesOnly(line)
    ensures '%' !in line
  {
  }

  lemma EntrySays(line: string, exception: bool, p: Pattern, caret: bool)
    requires LegalPattern(p) && line == Entry(exception, WithSubdomains(p), Core(p), caret)
    ensures line != "" && EntryBytesOnly(line)
    ensures EntryWith(line, if exception then RuleAction.Except else RuleAction.Block, p, Core(p), caret)
  {
    CoreBytes(p);
    EntryBytesOf(exception, WithSubdomains(p), Core(p), caret);
    SpelledAsIs(Core(p));
  }

  lemma ExceptionAlone(line: string, p: Pattern, caret: bool, ipOf: IpOf)
    requires LegalPattern(p) && AddressSyntax(ipOf) && line == Entry(true, WithSubdomains(p), Core(p), caret)
    ensures Trim(line) == line && LineSays(line, ipOf, RuleAction.Except, p)
    ensures ListOutcome(line, ipOf) == Outcome([Rule(RuleAction.Except, p, line, 1)], [])
  {
    EntrySays(line, true, p, caret);
    assert line[0] == '@';
    EntryAlone(line, ipOf);
    EntryIsRead(line, 1, RuleAction.Except, p, Core(p), caret);
    OneLineOutcome(line, ipOf);
  }

  lemma WrittenOut(d: string)
    ensures Entry(true, true, d, true) == "@@||" + d + "^"
    ensures Entry(false, true, d, true) == "||" + d + "^"
  {
  }

  lemma WrittenShort(d: string)
    ensures Entry(true, false, d, false) == "@@" + d
    ensures Entry(true, false, d, true) == "@@" + d + "^"
  {
  }

  /** `@@||d^` alone in a list is exactly that exception. */
  lemma SubtreeException(d: string, ipOf: IpOf)
    requires LegalDomain(d) && AddressSyntax(ipOf)
    ensures ListOutcome("@@||" + d + "^", ipOf) == Outcome([Rule(RuleAction.Except, Subtree(d), "@@||" + d + "^", 1)], [])
  {
    WrittenOut(d);
    ExceptionAlone("@@||" + d + "^", Subtree(d), true, ipOf);
  }

  /** And so are `@@d` and `@@d^`, which leave out the names below. */
  lemma ExactException(d: string, ipOf: IpOf, caret: bool)
    requires LegalDomain(d) && AddressSyntax(ipOf)
    ensures var line := if caret then "@@" + d + "^" else "@@" + d;
            ListOutcome(line, ipOf) == Outcome([Rule(RuleAction.Except, Exact(d), line, 1)], [])
  {
    WrittenShort(d);
    ExceptionAlone(if caret then "@@" + d + "^" else "@@" + d, Exact(d), caret, ipOf);
  }

  lemma LineWins(texts: seq<string>, ipOf: IpOf, k: nat, i: nat, line: string, d: string, typed: string, name: string)
    requires LegalDomain(d) && LineSays(line, ipOf, RuleAction.Except, Subtree(d)) && TypedBelow(typed, name, d)
    requires k < |texts| && i < |Lines(texts[k])| && Trim(Lines(texts[k])[i]) == line
    ensures Answered(texts, ipOf, typed) == KExcept
  {
    assert SaysAt(texts, ipOf, k, i, RuleAction.Except, Subtree(d));
    ExceptionWins(texts, ipOf, d, typed, name);
  }

  /** Wherever among the lists a line is `@@||d^`, the names at and below `d` get through. */
  lemma ExceptionLineWins(texts: seq<string>, ipOf: IpOf, k: nat, i: nat, d: string, typed: string, name: string)
    requires LegalDomain(d) && AddressSyntax(ipOf) && TypedBelow(typed, name, d)
    requires k < |texts| && i < |Lines(texts[k])| && Trim(Lines(texts[k])[i]) == "@@||" + d + "^"
    ensures Answered(texts, ipOf, typed) == KExcept
  {
    var line := Trim(Lines(texts[k])[i]);
    WrittenOut(d);
    ExceptionAlone(line, Subtree(d), true, ipOf);
    LineWins(texts, ipOf, k, i, line, d, typed, name);
  }

  lemma OwnLine(line: string, end: string, rest: string)
    requires line != "" && EntryBytesOnly(line) && end == "\n" && '\n' !in rest && rest != ""
    ensures Lines(line + end + rest) == [line, rest] && Trim(line) == line
  {
    FirstLine(line, end, rest);
    NoBreak(rest);
    PlainTokens(line);
  }

  /** With `||d^` and `@@||d^` loaded, in either order and in one list or two, the exception wins. */
  lemma EitherOrder(d: string, ipOf: IpOf, typed: string, name: string)
    requires LegalDomain(d) && AddressSyntax(ipOf) && TypedBelow(typed, name, d)
    ensures Answered(["||" + d + "^" + "\n" + ("@@||" + d + "^")], ipOf, typed) == KExcept
    ensures Answered(["@@||" + d + "^" + "\n" + ("||" + d + "^")], ipOf, typed) == KExcept
    ensures Answered(["||" + d + "^", "@@||" + d + "^"], ipOf, typed) == KExcept
    ensures Answered(["@@||" + d + "^", "||" + d + "^"], ipOf, typed) == KExcept
  {
    WrittenOut(d);
    EntrySays("||" + d + "^", false, Subtree(d), true);
    EntrySays("@@||" + d + "^", true, Subtree(d), true);
    ExceptionAlone("@@||" + d + "^", Subtree(d), true, ipOf);
    var b, e, end := "||" + d + "^", "@@||" + d + "^", "\n";
    FirstOrSecond([b + end + e], 0, 1, b, e, end, d, ipOf, typed, name);
    FirstOrSecond([e + end + b], 0, 0, b, e, end, d, ipOf, typed, name);
    FirstOrSecond([b, e], 1, 0, b, e, end, d, ipOf, typed, name);
    FirstOrSecond([e, b], 0, 0, b, e, end, d, ipOf, typed, name);
  }

  lemma PlaceOf(text: string, i: nat, b: string, e: string, end: string)
    requires b != "" && e != "" && EntryBytesOnly(b) && EntryBytesOnly(e) && end == "\n"
    requires (text == b + end + e && i == 1) || (text == e + end + b && i == 0) || (text == e && i == 0)
    ensures i < |Lines(text)| && Trim(Lines(text)[i]) == e
  {
    OwnLine(e, end, b);
    if text == b + end + e {
      OwnLine(b, end, e);
    } else if text == e {
      NoBreak(e);
    }
  }

  lemma FirstOrSecond(texts: seq<string>, k: nat, i: nat, b: string, e: string, end: string, d: string, ipOf: IpOf,
                      typed: string, name: string)
    requires LegalDomain(d) && LineSays(e, ipOf, RuleAction.Except, Subtree(d)) && TypedBelow(typed, name, d)
    requires b != "" && e != "" && EntryBytesOnly(b) && EntryBytesOnly(e) && end == "\n" && k < |texts|
    requires (texts[k] == b + end + e && i == 1) || (texts[k] == e + end + b && i == 0) || (texts[k] == e && i == 0)
    ensures Answered(texts, ipOf, typed) == KExcept
  {
    PlaceOf(texts[k], i, b, e, end);
    LineWins(texts, ipOf, k, i, e, d, typed, name);
  }
}
