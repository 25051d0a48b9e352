/**
 The blocklist parser: an ABP-DNS subset and hosts lines, mixed line by line.
 Whether a token is an IP address, and of which kind, is a parameter.
 */
module Parse {
  import opened Wrappers
  import opened Labels
  import opened Rules
  import opened Text
  import opened EngineModel

  /** An IP address is a sink when it is unspecified or loopback. */
  datatype Ip = Sink | Routable

  type IpOf = string -> Option<Ip>

  datatype IssueReason =
    CosmeticRule | UnsupportedModifier | UnsupportedHostsEntry | UnsupportedSyntax | InvalidDomain

  datatype LineIssue = LineIssue(line: nat, text: string, reason: IssueReason)

  /** Rules handed to the sink and issues reported, each in order. */
  datatype Outcome = Outcome(rules: seq<Rule>, issues: seq<LineIssue>) {
    function Then(next: Outcome): Outcome {
      Outcome(rules + next.rules, issues + next.issues)
    }
  }

  const NOTHING := Outcome([], [])
  const MAX_LINE: nat := 0xFFFF_FFFF

  const LOCALHOST_NAMES: seq<string> := [
    "localhost", "localhost.localdomain", "local", "broadcasthost", "ip6-localhost", "ip6-loopback",
    "ip6-localnet", "ip6-mcastprefix", "ip6-allnodes", "ip6-allrouters", "ip6-allhosts"]

  // ---- Names and expressions ----

  predicate LabelChar(c: char) {
    'a' <= c <= 'z' || '0' <= c <= '9' || c == '-' || c == '_'
  }

  predicate HyphenBounded(s: string) {
    s != [] && (s[0] == '-' || s[|s| - 1] == '-')
  }

  predicate ValidLabel(s: string) {
    0 < |s| <= 63 && !HyphenBounded(s) && forall i :: 0 <= i < |s| ==> LabelChar(s[i])
  }

  /** A lower-case DNS name without a trailing dot. */
  predicate ValidDomain(d: string) {
    0 < |d| <= MAX_NAME && forall i :: 0 <= i < |Split(d)| ==> ValidLabel(Split(d)[i])
  }

  /** Strip one trailing dot and lower the case. */
  function LowerStrip(s: string): string {
    Lower(StripDot(s))
  }

  function NormalizeDomain(s: string): Option<string> {
    var d := LowerStrip(s);
    if ValidDomain(d) then Some(d) else None
  }

  predicate ExprChar(c: char) {
    LabelChar(c) || c == '.' || c == '*'
  }

  predicate ValidExpr(e: string) {
    && 0 < |e| <= MAX_NAME
    && (exists i :: 0 <= i < |e| && ('a' <= e[i] <= 'z' || '0' <= e[i] <= '9'))
    && (forall i :: 0 <= i < |e| ==> ExprChar(e[i]))
    && (forall i :: 0 <= i < |Split(e)| ==>
          '*' in Split(e)[i] || (0 < |Split(e)[i]| <= 63 && !HyphenBounded(Split(e)[i])))
  }

  function NormalizeWildcard(s: string): Option<string> {
    var e := LowerStrip(s);
    if ValidExpr(e) then Some(e) else None
  }

  // ---- One line ----

  /** Blank lines, comments and headers are consumed; domainless cosmetic rules with an issue. */
  function Skipped(line: string): bool {
    || line == [] || line[0] == '!'
    || (line[0] == '[' && line[|line| - 1] == ']')
    || line[0] == '#'
  }

  function CosmeticComment(line: string): bool {
    && line != [] && line[0] == '#'
    && (|| "#@#" <= line || "#?#" <= line || "#$#" <= line || "#%#" <= line
        || ("##" <= line && |line| > 2 && line[2] != '#' && WsAt(line[2..]) == 0))
  }

  predicate Cosmetic(line: string) {
    Contains(line, "##") || Contains(line, "#@#") || Contains(line, "#?#")
    || Contains(line, "#$#") || Contains(line, "#%#")
  }

  predicate RegexLine(line: string) {
    |line| > 1 && line[0] == '/' && line[|line| - 1] == '/'
  }

  function StripCaret(s: string): string {
    if s != [] && s[|s| - 1] == '^' then s[..|s| - 1] else s
  }

  function PatternOf(rest: string, subtree: bool): Option<Pattern> {
    if '*' in rest then
      var expr := NormalizeWildcard(rest);
      if expr.Some? then Some(Pattern.Wildcard(expr.value, subtree)) else None
    else
      var domain := NormalizeDomain(rest);
      if domain.None? then None
      else if subtree then Some(Pattern.Subtree(domain.value))
      else Some(Pattern.Exact(domain.value))
  }

  /** The outcome of a line that is not a hosts line: exactly one rule or one issue. */
  function EntryOutcome(line: string, lineNo: nat): Outcome {
    if Cosmetic(line) then Outcome([], [LineIssue(lineNo, line, CosmeticRule)])
    else if '$' in line then Outcome([], [LineIssue(lineNo, line, UnsupportedModifier)])
    else if RegexLine(line) then Outcome([], [LineIssue(lineNo, line, UnsupportedSyntax)])
    else
      var action := if "@@" <= line then RuleAction.Except else RuleAction.Block;
      var afterAt := StripPrefix(line, "@@");
      var subtree := "||" <= afterAt;
      var rest := StripCaret(StripPrefix(afterAt, "||"));
      if '^' in rest || (rest != [] && rest[0] == '|') then
        Outcome([], [LineIssue(lineNo, line, UnsupportedSyntax)])
      else
        var pattern := PatternOf(rest, subtree);
        if pattern.None? then Outcome([], [LineIssue(lineNo, line, InvalidDomain)])
        else Outcome([Rule(action, pattern.value, line, lineNo)], [])
  }

  /** The address a hosts line starts with, a `%zone` suffix ignored. */
  function HostIp(line: string, ipOf: IpOf): Option<Ip> {
    var tokens := Tokens(line);
    if tokens == [] then None else ipOf(Before(tokens[0], '%'))
  }

  predicate IsLocalhost(name: string) {
    Lower(StripDot(name)) in LOCALHOST_NAMES
  }

  function WithoutLocalhost(names: seq<string>): (r: seq<string>)
    ensures |r| <= |names|
    ensures forall i :: 0 <= i < |r| ==> r[i] in names
  {
    if names == [] then []
    else (if IsLocalhost(names[0]) then [] else [names[0]]) + WithoutLocalhost(names[1..])
  }

  /** The tokens of a hosts line before its comment. */
  function HostTokens(line: string): seq<string> {
    Tokens(Trim(Before(line, '#')))
  }

  /** The names of a hosts line that do not describe the local machine. */
  function HostNames(line: string): seq<string> {
    if HostTokens(line) == [] then [] else WithoutLocalhost(HostTokens(line)[1..])
  }

  function NameOutcome(name: string, line: string, lineNo: nat): Outcome {
    var d := NormalizeDomain(name);
    if d.Some? then Outcome([Rule(RuleAction.Block, Pattern.Exact(d.value), line, lineNo)], [])
    else Outcome([], [LineIssue(lineNo, line, InvalidDomain)])
  }

  function NamesOutcome(names: seq<string>, line: string, lineNo: nat): Outcome {
    if names == [] then NOTHING
    else NamesOutcome(names[..|names| - 1], line, lineNo).Then(NameOutcome(names[|names| - 1], line, lineNo))
  }

  function HostsOutcome(line: string, ip: Ip, lineNo: nat): Outcome {
    var names := HostNames(line);
    if names == [] then NOTHING
    else if ip.Routable? then Outcome([], [LineIssue(lineNo, line, UnsupportedHostsEntry)])
    else NamesOutcome(names, line, lineNo)
  }

  /** What a trimmed line that was not skipped yields. */
  function ParsedLine(line: string, lineNo: nat, ipOf: IpOf): Outcome {
    var ip := HostIp(line, ipOf);
    if ip.Some? then HostsOutcome(line, ip.value, lineNo) else EntryOutcome(line, lineNo)
  }

  /** What a trimmed line yields. */
  function LineOutcome(line: string, lineNo: nat, ipOf: IpOf): Outcome {
    if Skipped(line) then
      Outcome([], if CosmeticComment(line) then [LineIssue(lineNo, line, CosmeticRule)] else [])
    else ParsedLine(line, lineNo, ipOf)
  }

  function LineNumber(idx: nat): nat {
    if idx + 1 <= MAX_LINE then idx + 1 else MAX_LINE
  }

  /** The outcomes of several lines put together. */
  function Merged(parts: seq<Outcome>): Outcome {
    if parts == [] then NOTHING else Merged(parts[..|parts| - 1]).Then(parts[|parts| - 1])
  }

  function Outcomes(lines: seq<string>, ipOf: IpOf): (parts: seq<Outcome>)
    ensures |parts| == |lines|
  {
    seq(|lines|, i requires 0 <= i < |lines| => LineOutcome(Trim(lines[i]), LineNumber(i), ipOf))
  }

  /** Everything a list yields. */
  function ListOutcome(text: string, ipOf: IpOf): Outcome {
    Merged(Outcomes(Lines(text), ipOf))
  }

  lemma ThenAssociates(a: Outcome, b: Outcome, c: Outcome)
    ensures a.Then(b).Then(c) == a.Then(b.Then(c))
    ensures a.Then(NOTHING) == a && NOTHING.Then(a) == a
  {
  }

  lemma MergedStep(before: Outcome, parts: seq<Outcome>, n: nat)
    requires n < |parts|
    ensures before.Then(Merged(parts[..n])).Then(parts[n]) == before.Then(Merged(parts[..n + 1]))
  {
    assert parts[..n + 1][..n] == parts[..n];
    ThenAssociates(before, Merged(parts[..n]), parts[n]);
  }

  lemma NamesStep(before: Outcome, names: seq<string>, n: nat, line: string, lineNo: nat)
    requires n < |names|
    ensures before.Then(NamesOutcome(names[..n], line, lineNo)).Then(NameOutcome(names[n], line, lineNo))
            == before.Then(NamesOutcome(names[..n + 1], line, lineNo))
  {
    assert names[..n + 1][..n] == names[..n];
    ThenAssociates(before, NamesOutcome(names[..n], line, lineNo), NameOutcome(names[n], line, lineNo));
  }
}
