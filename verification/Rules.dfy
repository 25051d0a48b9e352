/**
 Rules, names and the reference meaning of a rule set: a linear scan in which
 an exception beats every block rule.
 */
module Rules {
  import opened Wrappers
  import opened Labels
  import Glob

  datatype RuleAction = Block | Except

  datatype Pattern =
    | Exact(domain: string)
    | Subtree(domain: string)
    | Wildcard(expr: string, includeSubdomains: bool)

  /** One parsed rule; `text` is the trimmed source line. */
  datatype Rule = Rule(action: RuleAction, pattern: Pattern, text: string, line: nat)

  datatype Kind = KNoMatch | KBlock | KExcept

  const MAX_NAME := 253

  // ---- Names ----

  function LowerChar(c: char): char {
    if 'A' <= c <= 'Z' then (c as int + 32) as char else c
  }

  function Lower(s: string): (r: string)
    ensures |r| == |s|
  {
    seq(|s|, i requires 0 <= i < |s| => LowerChar(s[i]))
  }

  function StripDot(s: string): string {
    if EndsInDot(s) then s[..|s| - 1] else s
  }

  /** Lower case, one trailing dot removed. */
  function Normalized(name: string): string {
    StripDot(Lower(name))
  }

  /** Position of the first `c` in `s`. */
  function Find(s: string, c: char): (at: Option<nat>)
    ensures at.Some? ==> at.value < |s| && s[at.value] == c && c !in s[..at.value]
    ensures at.None? ==> c !in s
  {
    if s == [] then None
    else if s[0] == c then Some(0)
    else
      var rest := Find(s[1..], c);
      if rest.None? then None
      else
        assert s[..rest.value + 1] == [s[0]] + s[1..][..rest.value];
        Some(rest.value + 1)
  }

  /** What follows each dot of `name`, the longest first. */
  function Suffixes(name: string): seq<string>
    decreases |name|
  {
    var dot := Find(name, '.');
    if dot.None? then [] else [name[dot.value + 1..]] + Suffixes(name[dot.value + 1..])
  }

  lemma {:induction false} SuffixesExact(name: string, rest: string)
    ensures rest in Suffixes(name) <==> EndsWith(name, "." + rest)
    decreases |name|
  {
    EndsWithDotted(name, rest);
    var dot := Find(name, '.');
    if dot.Some? {
      var tail := name[dot.value + 1..];
      SuffixesExact(tail, rest);
      EndsWithDotted(tail, rest);
      var at := |name| - |rest| - 1;
      if 0 <= at < dot.value {
        assert name[..dot.value][at] == name[at];
      } else if dot.value < at {
        assert tail[at - dot.value - 1] == name[at];
        assert tail[|tail| - |rest|..] == name[|name| - |rest|..];
      }
    }
  }

  lemma {:induction false} SuffixesShrink(name: string)
    ensures forall i :: 0 <= i < |Suffixes(name)| ==> |Suffixes(name)[i]| < |name|
    ensures forall i, j :: 0 <= i < j < |Suffixes(name)| ==> |Suffixes(name)[j]| < |Suffixes(name)[i]|
    decreases |name|
  {
    var dot := Find(name, '.');
    if dot.Some? { SuffixesShrink(name[dot.value + 1..]); }
  }

  lemma WithinTransitive(a: string, b: string, c: string)
    requires Within(a, b) && EndsWith(b, "." + c)
    ensures EndsWith(a, "." + c)
  {
    var dotted := "." + c;
    if a != b {
      var db := "." + b;
      assert a[|a| - |db|..][1..] == b;
      assert a[|a| - |dotted|..] == b[|b| - |dotted|..];
    }
  }

  // ---- The reference ----

  /** Does `pattern` match the normalized name? */
  predicate PatternMatches(pattern: Pattern, name: string) {
    match pattern
    case Exact(d) => name == d
    case Subtree(d) => Within(name, d)
    case Wildcard(expr, includeSubdomains) =>
      || Glob.Matches(expr, name)
      || (includeSubdomains && exists i :: 0 <= i < |Suffixes(name)| && Glob.Matches(expr, Suffixes(name)[i]))
  }

  /** Linear scan over the rules from `i` on; the first matching exception decides. */
  function Scan(rules: seq<Rule>, name: string, i: nat, blocked: bool): Kind
    requires i <= |rules|
    decreases |rules| - i
  {
    if i == |rules| then (if blocked then KBlock else KNoMatch)
    else if !PatternMatches(rules[i].pattern, name) then Scan(rules, name, i + 1, blocked)
    else if rules[i].action.Except? then KExcept
    else Scan(rules, name, i + 1, true)
  }

  predicate Answerable(name: string) {
    0 < |name| <= MAX_NAME
  }

  /** The reference verdict for one query name. */
  function Reference(rules: seq<Rule>, query: string): Kind {
    var name := Normalized(query);
    if !Answerable(name) then KNoMatch else Scan(rules, name, 0, false)
  }

  /** The reference in terms of which rules match. */
  lemma {:induction false} ScanMeaning(rules: seq<Rule>, name: string, i: nat, blocked: bool)
    requires i <= |rules|
    ensures Scan(rules, name, i, blocked) ==
            if exists j :: i <= j < |rules| && rules[j].action.Except? && PatternMatches(rules[j].pattern, name)
            then KExcept
            else if blocked || exists j :: i <= j < |rules| && PatternMatches(rules[j].pattern, name)
            then KBlock
            else KNoMatch
    decreases |rules| - i
  {
    if i < |rules| {
      ScanMeaning(rules, name, i + 1, blocked || PatternMatches(rules[i].pattern, name));
    }
  }

  // ---- What the engine tests for each pattern ----

  /** The engine's own test: reversed-prefix probe and two-pointer matcher. */
  ghost predicate EngineMatches(pattern: Pattern, name: string) {
    match pattern
    case Exact(d) => name == d
    case Subtree(d) => Probed(name, d)
    case Wildcard(expr, includeSubdomains) => RunOnName(expr, includeSubdomains, name)
  }

  ghost predicate RunOnName(expr: string, includeSubdomains: bool, name: string) {
    || Glob.Run(expr, name)
    || (includeSubdomains && exists i :: 0 <= i < |Suffixes(name)| && Glob.Run(expr, Suffixes(name)[i]))
  }

  /** A rule whose subtree domain is a proper key. */
  predicate ProperPattern(pattern: Pattern) {
    pattern.Subtree? ==> pattern.domain != [] && !EndsInDot(pattern.domain)
  }

  predicate ProperRules(rules: seq<Rule>) {
    forall i :: 0 <= i < |rules| ==> ProperPattern(rules[i].pattern)
  }

  /** Names the engine reads as the reference does. */
  predicate Faithful(name: string) {
    && (EndsInDot(name) ==> TrimTrailingDots(name) == [])
    && Glob.NoInnerStar(name)
  }

  lemma EngineMatchesReference(pattern: Pattern, name: string)
    requires name != [] && Faithful(name) && ProperPattern(pattern)
    ensures EngineMatches(pattern, name) <==> PatternMatches(pattern, name)
  {
    match pattern
    case Exact(_) =>
    case Subtree(d) =>
      ProbeExactIff(name);
    case Wildcard(expr, sub) =>
      Glob.Completeness(expr, name);
      var rests := Suffixes(name);
      forall i | 0 <= i < |rests|
        ensures Glob.Run(expr, rests[i]) == Glob.Matches(expr, rests[i])
      {
        SuffixesExact(name, rests[i]);
        SuffixKeepsNoInnerStar(name, rests[i]);
        Glob.Completeness(expr, rests[i]);
      }
  }

  lemma SuffixKeepsNoInnerStar(name: string, rest: string)
    requires Glob.NoInnerStar(name) && EndsWith(name, "." + rest)
    ensures Glob.NoInnerStar(rest)
  {
    var dotted := "." + rest;
    forall i | 0 <= i < |rest| - 1 ensures rest[i] != '*' {
      assert name[|name| - |dotted|..][i + 1] == dotted[i + 1];
    }
  }

  /** The engine's tests are those of the reference on every rule exactly on faithful names. */
  lemma EngineMatchesIff(name: string)
    requires name != []
    ensures (forall p: Pattern :: ProperPattern(p) ==> (EngineMatches(p, name) <==> PatternMatches(p, name)))
            <==> Faithful(name)
  {
    if Faithful(name) {
      forall p: Pattern | ProperPattern(p)
        ensures EngineMatches(p, name) <==> PatternMatches(p, name)
      {
        EngineMatchesReference(p, name);
      }
    } else if !Glob.NoInnerStar(name) {
      var k :| 0 <= k < |name| - 1 && name[k] == '*';
      Glob.InnerStarIsMissed(name, k);
      var p := Wildcard(name[..k + 1], false);
      assert PatternMatches(p, name) && !EngineMatches(p, name);
    } else {
      ProbeExactIff(name);
      var d: string :| d != [] && !EndsInDot(d) && (Probed(name, d) != Within(name, d));
      var p := Subtree(d);
      assert PatternMatches(p, name) != EngineMatches(p, name);
    }
  }

  /** What the engine decides, from its own tests. */
  ghost function EngineKind(rules: seq<Rule>, name: string): Kind {
    if exists j :: 0 <= j < |rules| && rules[j].action.Except? && EngineMatches(rules[j].pattern, name) then KExcept
    else if exists j :: 0 <= j < |rules| && EngineMatches(rules[j].pattern, name) then KBlock
    else KNoMatch
  }

  ghost function EngineDecision(rules: seq<Rule>, query: string): Kind {
    var name := Normalized(query);
    if !Answerable(name) then KNoMatch else EngineKind(rules, name)
  }

  /** On faithful names the engine's decision is the reference verdict, for every rule set. */
  lemma DecisionMatchesReference(rules: seq<Rule>, query: string)
    requires ProperRules(rules) && Faithful(Normalized(query))
    ensures EngineDecision(rules, query) == Reference(rules, query)
  {
    var name := Normalized(query);
    if Answerable(name) {
      ScanMeaning(rules, name, 0, false);
      forall j | 0 <= j < |rules|
        ensures EngineMatches(rules[j].pattern, name) <==> PatternMatches(rules[j].pattern, name)
      {
        EngineMatchesReference(rules[j].pattern, name);
      }
    }
  }

  /** The refinement holds for every rule set exactly when the name is out of range or faithful. */
  lemma DecisionMatchesReferenceIff(query: string)
    ensures (forall rules: seq<Rule> :: ProperRules(rules) ==>
               EngineDecision(rules, query) == Reference(rules, query))
            <==> !Answerable(Normalized(query)) || Faithful(Normalized(query))
  {
    var name := Normalized(query);
    if !Answerable(name) {
    } else if Faithful(name) {
      forall rules: seq<Rule> | ProperRules(rules)
        ensures EngineDecision(rules, query) == Reference(rules, query)
      {
        DecisionMatchesReference(rules, query);
      }
    } else {
      EngineMatchesIff(name);
      var p: Pattern :| ProperPattern(p) && EngineMatches(p, name) != PatternMatches(p, name);
      var rules := [Rule(Block, p, "", 1)];
      ScanMeaning(rules, name, 0, false);
      assert rules[0].pattern == p;
      assert ProperRules(rules) && EngineDecision(rules, query) != Reference(rules, query);
    }
  }
}
