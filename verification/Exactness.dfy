/** For exactly which names the engine answers like the reference, over all lists that can be loaded. */
module Exactness {
  import opened Wrappers
  import opened Labels
  import opened Rules
  import opened Text
  import opened EngineModel
  import opened Parse
  import opened ParseProperties
  import opened StarNames
  import opened Streams
  import opened Readable
  import opened Builder
  import Glob

  /** No IP address is written with a star, a bar or an at sign. */
  ghost predicate AddressSyntax(ipOf: IpOf) {
    forall token: string :: '*' in token || '|' in token || '@' in token ==> ipOf(token).None?
  }

  // ---- One-line lists ----

  lemma PlainTokens(s: string)
    requires s != [] && AllPlain(s)
    ensures Trim(s) == s && Tokens(s) == [s]
  {
    PlainFrontUnmarked(s, |s|);
    var mask := Mask(s);
    assert Next(mask, 0, false) == 0 && Next(mask, 0, true) == |s| && LastEnd(mask, |s|) == |s|;
    assert Spans(mask, |s|) == [] && Spans(mask, 0) == [(0, |s|)];
    assert s[0..|s|] == s;
  }

  /** A plain byte that occurs in no special syntax of a list line. */
  predicate EntryByte(c: char) {
    PlainByte(c) && c !in "#$/%!["
  }

  predicate EntryBytes(s: string) {
    forall i :: 0 <= i < |s| ==> EntryByte(s[i])
  }

  lemma {:induction false} NotContained(s: string, part: string)
    requires part != [] && '#' in part && '#' !in s
    ensures !Contains(s, part)
  {
    if s != [] {
      var i :| 0 <= i < |part| && part[i] == '#';
      assert i < |s| ==> s[i] != part[i];
      NotContained(s[1..], part);
    }
  }

  lemma NotCosmetic(s: string)
    requires '#' !in s
    ensures !Cosmetic(s)
  {
    var a, b, c, d, e := "##", "#@#", "#?#", "#$#", "#%#";
    assert a[0] == '#' && b[0] == '#' && c[0] == '#' && d[0] == '#' && e[0] == '#';
    NotContained(s, a);
    NotContained(s, b);
    NotContained(s, c);
    NotContained(s, d);
    NotContained(s, e);
  }

  lemma {:induction false} NoBreak(s: string)
    requires s != [] && '\n' !in s
    ensures Lines(s) == [s]
  {
    assert Find(s, '\n') == None;
  }

  /** A list of one line yields what that line yields. */
  lemma OneLineOutcome(line: string, ipOf: IpOf)
    requires Lines(line) == [line] && Trim(line) == line
    ensures ListOutcome(line, ipOf) == LineOutcome(line, 1, ipOf)
  {
    var parts := Outcomes(Lines(line), ipOf);
    assert parts == [LineOutcome(line, 1, ipOf)] && parts[..0] == [];
    assert Merged(parts[..0]) == NOTHING;
    ThenAssociates(LineOutcome(line, 1, ipOf), NOTHING, NOTHING);
  }

  lemma NoAddress(line: string, ipOf: IpOf)
    requires Tokens(line) == [line] && '%' !in line && AddressSyntax(ipOf) && ('*' in line || '|' in line)
    ensures HostIp(line, ipOf) == None
  {
  }

  /** A one-line list of such bytes is read as an entry. */
  lemma EntryList(line: string, ipOf: IpOf)
    requires line != [] && EntryBytes(line) && AddressSyntax(ipOf) && ('*' in line || '|' in line)
    ensures ListOutcome(line, ipOf) == EntryOutcome(line, 1)
    ensures !Cosmetic(line) && '$' !in line && !RegexLine(line)
  {
    NoneOf(line);
    NoBreak(line);
    PlainTokens(line);
    NotCosmetic(line);
    NoAddress(line, ipOf);
    OneLineOutcome(line, ipOf);
  }

  lemma NoneOf(line: string)
    requires line != [] && EntryBytes(line)
    ensures '\n' !in line && '#' !in line && '$' !in line && '%' !in line && AllPlain(line)
    ensures !Skipped(line) && !RegexLine(line)
  {
  }

  lemma LowerFixed(s: string)
    requires forall i :: 0 <= i < |s| ==> !('A' <= s[i] <= 'Z')
    ensures Lower(s) == s
  {
  }

  lemma ExprEnds(expr: string)
    requires ValidExpr(expr)
    ensures !EndsInDot(expr)
  {
    LastLabelEmpty(expr);
  }

  lemma NoPrefix(s: string, prefix: string)
    requires prefix != [] && s != [] && s[0] != prefix[0]
    ensures !(prefix <= s) && StripPrefix(s, prefix) == s
  {
  }

  lemma EntryIs(line: string, rest: string, subtree: bool, p: Pattern)
    requires !Cosmetic(line) && '$' !in line && !RegexLine(line) && !("@@" <= line)
    requires subtree == ("||" <= line) && rest == StripCaret(StripPrefix(line, "||"))
    requires '^' !in rest && rest != [] && rest[0] != '|' && PatternOf(rest, subtree) == Some(p)
    ensures EntryOutcome(line, 1).rules == [Rule(RuleAction.Block, p, line, 1)]
  {
  }

  lemma ExprBytes(expr: string)
    requires ValidExpr(expr)
    ensures EntryBytes(expr) && '^' !in expr && expr[0] != '|' && expr[0] != '@'
  {
    forall i | 0 <= i < |expr| ensures EntryByte(expr[i]) && expr[i] != '^' && expr[i] != '|' && expr[i] != '@' {
      assert ExprChar(expr[i]);
    }
  }

  lemma WildcardPattern(expr: string)
    requires ValidExpr(expr) && '*' in expr
    ensures PatternOf(expr, false) == Some(Pattern.Wildcard(expr, false))
  {
    ExprEnds(expr);
    forall i | 0 <= i < |expr| ensures !('A' <= expr[i] <= 'Z') {
      assert ExprChar(expr[i]);
    }
    LowerFixed(expr);
  }

  /** A valid expression, alone on a line, is a wildcard without subdomains. */
  lemma WildcardLine(expr: string, ipOf: IpOf)
    requires ValidExpr(expr) && '*' in expr && AddressSyntax(ipOf)
    ensures ListOutcome(expr, ipOf).rules == [Rule(RuleAction.Block, Pattern.Wildcard(expr, false), expr, 1)]
  {
    ExprBytes(expr);
    EntryList(expr, ipOf);
    WildcardPattern(expr);
    NoPrefix(expr, "@@");
    NoPrefix(expr, "||");
    EntryIs(expr, expr, false, Pattern.Wildcard(expr, false));
  }

  lemma DomainBytes(domain: string)
    requires ValidDomain(domain)
    ensures EntryBytes("||" + domain + "^") && domain[0] != '|' && '^' !in domain && '*' !in domain
  {
    ValidDomainChars(domain);
    var line := "||" + domain + "^";
    forall i | 0 <= i < |line| ensures EntryByte(line[i]) {
      if 2 <= i < |line| - 1 { assert line[i] == domain[i - 2]; }
    }
  }

  lemma SubtreePattern(domain: string)
    requires ValidDomain(domain)
    ensures PatternOf(domain, true) == Some(Pattern.Subtree(domain))
  {
    ValidDomainChars(domain);
    DomainEnds(domain);
    LowerFixed(domain);
  }

  lemma SubtreeParts(domain: string)
    requires domain != []
    ensures "||" <= "||" + domain + "^" && !("@@" <= "||" + domain + "^")
    ensures StripCaret(StripPrefix("||" + domain + "^", "||")) == domain
  {
    var line := "||" + domain + "^";
    assert line[0] == '|';
    assert line == "||" + (domain + "^");
    assert StripPrefix(line, "||") == domain + "^";
  }

  /** A valid domain between `||` and `^` is a subtree rule. */
  lemma SubtreeLine(domain: string, ipOf: IpOf)
    requires ValidDomain(domain) && AddressSyntax(ipOf)
    ensures ListOutcome("||" + domain + "^", ipOf).rules
            == [Rule(RuleAction.Block, Pattern.Subtree(domain), "||" + domain + "^", 1)]
  {
    var line := "||" + domain + "^";
    DomainBytes(domain);
    SubtreeParts(domain);
    assert line[0] == '|';
    EntryList(line, ipOf);
    SubtreePattern(domain);
    EntryIs(line, domain, true, Pattern.Subtree(domain));
  }

  /** A list of one line that holds just the rule of pattern `p`. */
  ghost predicate HoldsOnly(texts: seq<string>, ipOf: IpOf, p: Pattern) {
    exists line: string :: RulesOf(LogOfTexts(texts, ipOf)) == [Rule(RuleAction.Block, p, line, 1)]
  }

  lemma OneLineList(line: string, ipOf: IpOf, p: Pattern)
    requires ListOutcome(line, ipOf).rules == [Rule(RuleAction.Block, p, line, 1)]
    ensures HoldsOnly([line], ipOf, p)
  {
    var texts := [line];
    var rule := Rule(RuleAction.Block, p, line, 1);
    assert texts[..0] == [];
    LoggedStep([], 0, [], rule);
    assert [] + [rule] == [rule];
    assert RulesOf(LogOfTexts(texts, ipOf)) == [rule];
  }

  lemma ListFor(p: Pattern, ipOf: IpOf) returns (texts: seq<string>)
    requires ParsedPattern(p) && (p.Subtree? || (p.Wildcard? && !p.includeSubdomains)) && AddressSyntax(ipOf)
    ensures |texts| == 1 && HoldsOnly(texts, ipOf, p)
  {
    if p.Subtree? {
      SubtreeLine(p.domain, ipOf);
      OneLineList("||" + p.domain + "^", ipOf, p);
      texts := ["||" + p.domain + "^"];
    } else {
      WildcardLine(p.expr, ipOf);
      OneLineList(p.expr, ipOf, p);
      texts := [p.expr];
    }
  }

  // ---- Main results ----

  /** The engine loaded with these lists answers the query as the linear scan does. */
  ghost predicate Agrees(texts: seq<string>, ipOf: IpOf, query: string) {
    EngineDecision(RulesOf(LogOfTexts(texts, ipOf)), query) == Reference(RulesOf(LogOfTexts(texts, ipOf)), query)
  }

  /** Whatever lists are loaded, a name that reads right is answered as the reference does. */
  lemma ListsReadRight(texts: seq<string>, ipOf: IpOf, query: string)
    requires ReadRight(Normalized(query))
    ensures Agrees(texts, ipOf, query)
  {
    LogOfTextsIsParsed(texts, ipOf);
    ParsedDecision(RulesOf(LogOfTexts(texts, ipOf)), query);
  }

  /** A list of a single rule whose test is wrong on the name gives the wrong answer. */
  lemma MisreadDisagrees(texts: seq<string>, ipOf: IpOf, query: string, p: Pattern)
    requires HoldsOnly(texts, ipOf, p) && Answerable(Normalized(query))
    requires EngineMatches(p, Normalized(query)) != PatternMatches(p, Normalized(query))
    ensures !Agrees(texts, ipOf, query)
    ensures EngineDecision(RulesOf(LogOfTexts(texts, ipOf)), query) ==
            if EngineMatches(p, Normalized(query)) then KBlock else KNoMatch
  {
    var rules := RulesOf(LogOfTexts(texts, ipOf));
    ScanMeaning(rules, Normalized(query), 0, false);
    assert rules[0].pattern == p && rules[0].action.Block?;
  }

  /**
   Exactness over loaded lists: a query is answered like the linear scan whatever lists
   are loaded if and only if it is out of range or reads right. This holds of every name
   without an inner star, and of every name spelled with the labels rules are spelled with.
   */
  lemma ListsReadRightIff(query: string, ipOf: IpOf)
    requires AddressSyntax(ipOf)
    requires Glob.NoInnerStar(Normalized(query)) || Spelled(Normalized(query))
    ensures (forall texts: seq<string> :: Agrees(texts, ipOf, query))
            <==> !Answerable(Normalized(query)) || ReadRight(Normalized(query))
  {
    var name := Normalized(query);
    if ReadRight(name) {
      forall texts: seq<string> ensures Agrees(texts, ipOf, query) {
        ListsReadRight(texts, ipOf, query);
      }
    } else if Answerable(name) {
      var p := SomeParsedRuleMisreads(name);
      var texts := ListFor(p, ipOf);
      MisreadDisagrees(texts, ipOf, query, p);
    }
  }

  /** Both answers for a list of a single block rule whose test is wrong on the name. */
  lemma AnswersOfOne(texts: seq<string>, ipOf: IpOf, query: string, name: string, p: Pattern)
    requires HoldsOnly(texts, ipOf, p) && Normalized(query) == name && Answerable(name)
    requires EngineMatches(p, name) != PatternMatches(p, name)
    ensures EngineDecision(RulesOf(LogOfTexts(texts, ipOf)), query) == if PatternMatches(p, name) then KNoMatch else KBlock
    ensures Reference(RulesOf(LogOfTexts(texts, ipOf)), query) == if PatternMatches(p, name) then KBlock else KNoMatch
  {
    MisreadDisagrees(texts, ipOf, query, p);
    var rules := RulesOf(LogOfTexts(texts, ipOf));
    ScanMeaning(rules, name, 0, false);
    assert rules[0].pattern == p && rules[0].action.Block?;
  }

  lemma WildcardMissed(expr: string, ipOf: IpOf, query: string, name: string)
    requires ValidExpr(expr) && '*' in expr && AddressSyntax(ipOf) && Normalized(query) == name && Answerable(name)
    requires Misread(expr, name)
    ensures EngineDecision(RulesOf(LogOfTexts([expr], ipOf)), query) == KNoMatch
    ensures Reference(RulesOf(LogOfTexts([expr], ipOf)), query) == KBlock
  {
    WildcardLine(expr, ipOf);
    OneLineList(expr, ipOf, Wildcard(expr, false));
    AnswersOfOne([expr], ipOf, query, name, Wildcard(expr, false));
  }

  lemma SubtreeOvershoots(domain: string, ipOf: IpOf, query: string, name: string)
    requires ValidDomain(domain) && AddressSyntax(ipOf) && Normalized(query) == name && Answerable(name)
    requires Probed(name, domain) && !Within(name, domain)
    ensures EngineDecision(RulesOf(LogOfTexts(["||" + domain + "^"], ipOf)), query) == KBlock
    ensures Reference(RulesOf(LogOfTexts(["||" + domain + "^"], ipOf)), query) == KNoMatch
  {
    SubtreeLine(domain, ipOf);
    OneLineList("||" + domain + "^", ipOf, Subtree(domain));
    AnswersOfOne(["||" + domain + "^"], ipOf, query, name, Subtree(domain));
  }

  /**
   With the list line `*.com` the name `*a.com` is let through, although the rule matches
   it; and so with every domain that holds a letter or digit and every letter in front.
   */
  lemma StarIsMissed(c: char, domain: string, ipOf: IpOf)
    requires AddressSyntax(ipOf) && ValidDomain(domain) && HasAlnum(domain) && |domain| <= 250 && LabelChar(c)
    ensures EngineDecision(RulesOf(LogOfTexts(["*." + domain], ipOf)), ['*', c] + "." + domain) == KNoMatch
    ensures Reference(RulesOf(LogOfTexts(["*." + domain], ipOf)), ['*', c] + "." + domain) == KBlock
  {
    var expr, name := "*." + domain, ['*', c] + "." + domain;
    ValidDomainChars(domain);
    DomainEnds(domain);
    StarExprValid(domain);
    StarExprMisread(c, domain);
    PlainNormalized(name);
    WildcardMissed(expr, ipOf, name, name);
  }

  lemma PlainNormalized(name: string)
    requires !EndsInDot(name) && forall i :: 0 <= i < |name| ==> !('A' <= name[i] <= 'Z')
    ensures Normalized(name) == name
  {
    LowerFixed(name);
  }

  lemma DottedNormalized(name: string)
    requires forall i :: 0 <= i < |name| ==> !('A' <= name[i] <= 'Z')
    ensures Normalized(name + ".") == name
  {
    LowerFixed(name + ".");
  }

  lemma StarExprValid(domain: string)
    requires ValidDomain(domain) && HasAlnum(domain) && |domain| <= 250
    ensures ValidExpr("*." + domain) && '*' in "*." + domain
  {
    var expr := "*." + domain;
    ValidDomainChars(domain);
    assert expr[0] == '*' && expr == "*" + "." + domain;
    var i :| 0 <= i < |domain| && Alnum(domain[i]);
    assert expr[i + 2] == domain[i];
    SplitDotFree("*");
    SplitAtDot("*", domain);
  }

  lemma StarExprMisread(c: char, domain: string)
    requires ValidDomain(domain) && LabelChar(c)
    ensures Misread("*." + domain, ['*', c] + "." + domain)
  {
    var name, rest := ['*', c] + "." + domain, "." + domain;
    ValidDomainChars(domain);
    assert name[2..] == rest && name[..1] + rest == "*." + domain;
    LiteralMatchesItself(rest);
    PrefixThen(name, 0, rest, 2);
    Stuck(name, 1, rest, 0);
  }

  lemma {:induction false} LiteralMatchesItself(s: string)
    requires Glob.StarFree(s)
    ensures Glob.Matches(s, s)
  {
    if s != [] { LiteralMatchesItself(s[1..]); }
  }

  /**
   With the list line `||com^` the name `com..` is blocked, although no rule matches it;
   and so with every domain.
   */
  lemma DotOvershoots(domain: string, ipOf: IpOf)
    requires AddressSyntax(ipOf) && ValidDomain(domain) && |domain| < MAX_NAME
    ensures EngineDecision(RulesOf(LogOfTexts(["||" + domain + "^"], ipOf)), domain + "." + ".") == KBlock
    ensures Reference(RulesOf(LogOfTexts(["||" + domain + "^"], ipOf)), domain + "." + ".") == KNoMatch
  {
    var name := domain + ".";
    ValidDomainChars(domain);
    DottedNormalized(name);
    DottedIsProbed(domain);
    SubtreeOvershoots(domain, ipOf, name + ".", name);
  }

  lemma DottedIsProbed(domain: string)
    requires ValidDomain(domain)
    ensures Probed(domain + ".", domain) && !Within(domain + ".", domain)
  {
    var name := domain + ".";
    assert name[..|domain|] == domain;
    DomainEnds(domain);
    DotDropsOut(name);
    assert Boundary(Reversed(name), |Reversed(name)|) && Reversed(name)[..|Reversed(name)|] == Reversed(domain);
    EndsWithLast(name, domain);
  }
}
