/** Which names the engine reads as the reference does, for every rule a list can hold. */
module Readable {
  import opened Wrappers
  import opened Labels
  import opened Rules
  import opened Parse
  import opened ParseProperties
  import opened StarNames
  import Glob

  /** A pattern as the parser emits it. */
  ghost predicate ParsedPattern(p: Pattern) {
    match p
    case Exact(d) => ValidDomain(d)
    case Subtree(d) => ValidDomain(d)
    case Wildcard(expr, _) => ValidExpr(expr) && '*' in expr
  }

  function LastLabel(s: string): string {
    Split(s)[|Split(s)| - 1]
  }

  /** A name that ends in a dot is misread unless its last label that is not empty names no domain. */
  predicate DotsReadable(name: string) {
    EndsInDot(name) ==> TrimTrailingDots(name) == [] || !ValidLabel(LastLabel(TrimTrailingDots(name)))
  }

  predicate ReadRight(name: string) {
    DotsReadable(name) && StarsReadable(name)
  }

  // ---- The engine's tests on names it reads right ----

  lemma DomainEndsLikeName(core: string, domain: string)
    requires ValidDomain(domain) && Within(core, domain)
    ensures ValidLabel(LastLabel(core))
  {
    SuffixOfLabels(core, domain);
    var n, d := Split(core), Split(domain);
    assert n[|n| - |d|..][|d| - 1] == d[|d| - 1];
  }

  lemma SubtreeReadRight(name: string, domain: string)
    requires name != [] && DotsReadable(name) && ValidDomain(domain)
    ensures Probed(name, domain) <==> Within(name, domain)
  {
    DomainEnds(domain);
    if !EndsInDot(name) {
      ProbeExact(name, domain);
    } else {
      TrimKeepsReversal(name);
      EndsWithLast(name, domain);
      var core := TrimTrailingDots(name);
      if core == [] {
        ProbeExactIff(name);
      } else if Probed(core, domain) {
        ProbeExact(core, domain);
        DomainEndsLikeName(core, domain);
      }
    }
  }

  lemma ExprHasAlnum(expr: string)
    requires ValidExpr(expr)
    ensures HasAlnum(expr)
  {
    var i :| 0 <= i < |expr| && ('a' <= expr[i] <= 'z' || '0' <= expr[i] <= '9');
    assert Alnum(expr[i]);
  }

  lemma WildcardReadRight(expr: string, sub: bool, name: string)
    requires StarsReadable(name) && ValidExpr(expr)
    ensures RunOnName(expr, sub, name) <==> PatternMatches(Wildcard(expr, sub), name)
  {
    ExprHasAlnum(expr);
    ReadableIsReadRight(expr, name);
    var rests := Suffixes(name);
    forall i | 0 <= i < |rests|
      ensures Glob.Run(expr, rests[i]) == Glob.Matches(expr, rests[i])
    {
      SuffixesExact(name, rests[i]);
      EndsWithDotted(name, rests[i]);
      ReadableTail(name, |name| - |rests[i]|);
      ReadableIsReadRight(expr, rests[i]);
    }
  }

  /** On names that read right the engine's test for a parsed rule is the reference's. */
  lemma ParsedMatches(p: Pattern, name: string)
    requires name != [] && ReadRight(name) && ParsedPattern(p)
    ensures EngineMatches(p, name) <==> PatternMatches(p, name)
  {
    match p
    case Exact(_) =>
    case Subtree(d) => SubtreeReadRight(name, d);
    case Wildcard(expr, sub) => WildcardReadRight(expr, sub, name);
  }

  ghost predicate AllParsed(rules: seq<Rule>) {
    forall i :: 0 <= i < |rules| ==> ParsedPattern(rules[i].pattern)
  }

  /** On names that read right the engine decides as the linear scan does, for all parsed rules. */
  lemma ParsedDecision(rules: seq<Rule>, query: string)
    requires AllParsed(rules) && ReadRight(Normalized(query))
    ensures EngineDecision(rules, query) == Reference(rules, query)
  {
    var name := Normalized(query);
    if Answerable(name) {
      ScanMeaning(rules, name, 0, false);
      forall j | 0 <= j < |rules|
        ensures EngineMatches(rules[j].pattern, name) <==> PatternMatches(rules[j].pattern, name)
      {
        ParsedMatches(rules[j].pattern, name);
      }
    }
  }

  // ---- Names that are misread by some parsed rule ----

  /**
   Written with the bytes and labels rules are written with: every label holds a star or
   is a valid one, but for empty ones at the end.
   */
  predicate Spelled(name: string) {
    && (forall i :: 0 <= i < |name| ==> ExprChar(name[i]))
    && forall i :: 0 <= i < |Split(name)| ==> SpelledLabel(Split(name), i)
  }

  predicate SpelledLabel(labels: seq<string>, i: nat)
    requires i < |labels|
  {
    '*' in labels[i] || ValidLabel(labels[i]) || forall j :: i <= j < |labels| ==> labels[j] == ""
  }

  /** Labels continued by other labels: the last one of the first and the first of the others grow together. */
  function Continued(s: seq<string>, t: seq<string>): seq<string>
    requires s != [] && t != []
  {
    s[..|s| - 1] + [s[|s| - 1] + t[0]] + t[1..]
  }

  function Stepped(c: char, s: seq<string>): (r: seq<string>)
    requires s != []
    ensures r != []
  {
    if c == '.' then [""] + s else [[c] + s[0]] + s[1..]
  }

  lemma ConcatStep(c: char, s: seq<string>, t: seq<string>)
    requires s != [] && t != []
    ensures Continued(Stepped(c, s), t) == Stepped(c, Continued(s, t))
  {
    if c != '.' && |s| == 1 {
      assert ([c] + s[0]) + t[0] == [c] + (s[0] + t[0]);
    }
  }

  lemma SplitStepped(a: string)
    requires a != []
    ensures Split(a) == Stepped(a[0], Split(a[1..]))
  {
    SplitStep(a[0], a[1..]);
    assert a == [a[0]] + a[1..];
  }

  lemma NothingContinued(t: seq<string>)
    requires t != []
    ensures Continued([""], t) == t
  {
    assert "" + t[0] == t[0];
  }

  /** Splitting a text that is continued changes its last label only. */
  lemma {:induction false} SplitConcat(a: string, b: string)
    ensures Split(a + b) == Continued(Split(a), Split(b))
  {
    if a == [] {
      assert a + b == b;
      NothingContinued(Split(b));
    } else {
      SplitConcat(a[1..], b);
      assert (a + b)[1..] == a[1..] + b && (a + b)[0] == a[0];
      SplitStepped(a + b);
      SplitStepped(a);
      ConcatStep(a[0], Split(a[1..]), Split(b));
    }
  }

  lemma CutAtDot(rest: string, i: nat)
    requires DotOnce(rest) && i < |rest| && rest[i] == '.'
    ensures rest == rest[..i] + "." + rest[i + 1..]
    ensures DotFree(rest[..i]) && DotFree(rest[i + 1..]) && '*' in rest[i + 1..]
  {
    var v := rest[i + 1..];
    assert forall j :: 0 <= j < |v| ==> v[j] == rest[i + 1 + j];
  }

  lemma AtMostTwoLabels(rest: string)
    requires DotOnce(rest)
    ensures |Split(rest)| <= 2 && (|Split(rest)| == 2 ==> '*' in Split(rest)[1])
  {
    SplitDotFree(rest);
    if i: nat :| i < |rest| && rest[i] == '.' {
      CutAtDot(rest, i);
      TwoLabels(rest[..i], rest[i + 1..]);
    }
  }

  lemma TwoLabels(u: string, v: string)
    requires DotFree(u) && DotFree(v)
    ensures Split(u + "." + v) == [u, v]
  {
    SplitAtDot(u, v);
    SplitDotFree(u);
    SplitDotFree(v);
  }

  /** The labels of a spelled name up to a star, and then a short rest, are labels of a valid expression. */
  lemma WitnessLabels(name: string, k: nat, rest: string, i: nat)
    requires Spelled(name) && k < |name| && name[k] == '*' && DotOnce(rest)
    requires i < |Split(name[..k + 1] + rest)|
    ensures var text := Split(name[..k + 1] + rest)[i];
            '*' in text || (0 < |text| <= 63 && !HyphenBounded(text))
  {
    var p, q := name[..k], name[k + 1..];
    var n := |Split(p)| - 1;
    var star := Split(p)[n] + "*";
    FrontLabels(name, k, rest);
    FrontLabels(name, k, q);
    assert name == name[..k + 1] + q;
    AtMostTwoLabels(rest);
    if i < n {
      assert Split(name)[n] == star + Split(q)[0] && '*' in Split(name)[n];
      assert SpelledLabel(Split(name), i);
    } else if i == n {
      assert star[|star| - 1] == '*';
    }
  }

  lemma FrontLabels(name: string, k: nat, rest: string)
    requires k < |name| && name[k] == '*'
    ensures var n := |Split(name[..k])| - 1;
            Split(name[..k + 1] + rest)
            == Split(name[..k])[..n] + [Split(name[..k])[n] + "*" + Split(rest)[0]] + Split(rest)[1..]
  {
    var p := name[..k];
    var n := |Split(p)| - 1;
    assert name[..k + 1] == p + "*";
    SplitDotFree("*");
    SplitConcat(p, "*");
    SplitConcat(p + "*", rest);
    assert Split(p + "*") == Split(p)[..n] + [Split(p)[n] + "*"];
    assert Split(p + "*")[..n] == Split(p)[..n];
  }

  /** A witness against a spelled name is an expression a list can hold. */
  lemma WitnessIsValid(name: string, k: nat, rest: string)
    requires Spelled(name) && |name| <= MAX_NAME && Witness(name, k, rest)
    ensures ValidExpr(name[..k + 1] + rest) && '*' in name[..k + 1] + rest
  {
    var expr := name[..k + 1] + rest;
    assert expr[k] == '*';
    var i :| 0 <= i < |expr| && Alnum(expr[i]);
    assert 'a' <= expr[i] <= 'z' || '0' <= expr[i] <= '9';
    forall i | 0 <= i < |expr| ensures ExprChar(expr[i]) {
      if i > k { assert rest[i - k - 1] in rest; }
    }
    forall i | 0 <= i < |Split(expr)|
      ensures '*' in Split(expr)[i] || (0 < |Split(expr)[i]| <= 63 && !HyphenBounded(Split(expr)[i]))
    {
      WitnessLabels(name, k, rest, i);
    }
  }

  lemma LabelIsDomain(s: string)
    requires ValidLabel(s) && DotFree(s)
    ensures ValidDomain(s) && Split(s) == [s]
  {
    SplitDotFree(s);
  }

  /** The dot half: the last label that is not empty, as a subtree rule. */
  lemma DotMisreads(name: string) returns (domain: string)
    requires !DotsReadable(name)
    ensures ValidDomain(domain) && Probed(name, domain) && !Within(name, domain)
  {
    var core := TrimTrailingDots(name);
    TrimKeepsReversal(name);
    SplitDotFree(core);
    domain := LastLabel(core);
    LabelIsDomain(domain);
    DomainEnds(domain);
    SuffixOfLabels(core, domain);
    assert Split(core)[|Split(core)| - 1..] == [domain];
    ProbeExact(core, domain);
    EndsWithLast(name, domain);
  }

  /** Some parsed rule, block or exception, is misread: a subtree rule, or a wildcard without subdomains. */
  lemma SomeParsedRuleMisreads(name: string) returns (p: Pattern)
    requires !ReadRight(name) && |name| <= MAX_NAME && (Glob.NoInnerStar(name) || Spelled(name))
    ensures ParsedPattern(p) && (p.Subtree? || (p.Wildcard? && !p.includeSubdomains))
    ensures EngineMatches(p, name) != PatternMatches(p, name)
  {
    if !DotsReadable(name) {
      var d := DotMisreads(name);
      p := Subtree(d);
    } else {
      var k, rest := UnreadableIsMisread(name);
      WitnessIsValid(name, k, rest);
      p := Wildcard(name[..k + 1] + rest, false);
    }
  }

  lemma ListIsParsed(text: string, ipOf: IpOf)
    ensures forall r :: r in ListOutcome(text, ipOf).rules ==> ParsedPattern(r.pattern)
  {
    forall r | r in ListOutcome(text, ipOf).rules ensures ParsedPattern(r.pattern) {
      var i := RuleFromLine(text, ipOf, r);
    }
  }
}
