/** What holds of every rule and issue the parser produces. */
module ParseProperties {
  import opened Wrappers
  import opened Labels
  import opened Rules
  import opened Text
  import opened Stores
  import opened EngineModel
  import opened Parse

  // ---- Accounting ----

  /** How many rules and issues, together, a trimmed line accounts for. */
  function Accounted(line: string, ipOf: IpOf): nat {
    if Skipped(line) then (if CosmeticComment(line) then 1 else 0)
    else
      match HostIp(line, ipOf)
      case None => 1
      case Some(Sink) => |HostNames(line)|
      case Some(Routable) => if HostNames(line) == [] then 0 else 1
  }

  function Total(o: Outcome): nat {
    |o.rules| + |o.issues|
  }

  lemma {:induction false} NamesAccounting(names: seq<string>, line: string, lineNo: nat)
    ensures Total(NamesOutcome(names, line, lineNo)) == |names|
  {
    if names != [] { NamesAccounting(names[..|names| - 1], line, lineNo); }
  }

  lemma EntryAccounting(line: string, lineNo: nat)
    ensures Total(EntryOutcome(line, lineNo)) == 1
  {
  }

  lemma HostsAccounting(line: string, ip: Ip, lineNo: nat)
    ensures Total(HostsOutcome(line, ip, lineNo)) ==
            if ip.Sink? then |HostNames(line)| else if HostNames(line) == [] then 0 else 1
    ensures ip.Routable? ==> HostsOutcome(line, ip, lineNo).rules == []
  {
    NamesAccounting(HostNames(line), line, lineNo);
  }

  /** One rule or one issue a line; on a sink hosts line one for each name. */
  lemma LineAccounting(line: string, lineNo: nat, ipOf: IpOf)
    ensures Total(LineOutcome(line, lineNo, ipOf)) == Accounted(line, ipOf)
    ensures Skipped(line) || HostIp(line, ipOf) == Some(Routable) ==> LineOutcome(line, lineNo, ipOf).rules == []
  {
    if !Skipped(line) {
      var ip := HostIp(line, ipOf);
      if ip.Some? {
        HostsAccounting(line, ip.value, lineNo);
      } else {
        EntryAccounting(line, lineNo);
      }
    }
  }

  function Sum(ns: seq<nat>): nat {
    if ns == [] then 0 else Sum(ns[..|ns| - 1]) + ns[|ns| - 1]
  }

  lemma {:induction false} MergedTotal(parts: seq<Outcome>, ns: seq<nat>)
    requires |parts| == |ns| && forall i :: 0 <= i < |ns| ==> Total(parts[i]) == ns[i]
    ensures Total(Merged(parts)) == Sum(ns)
  {
    if parts != [] { MergedTotal(parts[..|parts| - 1], ns[..|ns| - 1]); }
  }

  /** What each line of a list accounts for. */
  function AccountedLines(lines: seq<string>, ipOf: IpOf): (ns: seq<nat>)
    ensures |ns| == |lines|
  {
    seq(|lines|, i requires 0 <= i < |lines| => Accounted(Trim(lines[i]), ipOf))
  }

  /** No line of a list is dropped silently: rules and issues add up over its lines. */
  lemma ListAccounting(text: string, ipOf: IpOf)
    ensures Total(ListOutcome(text, ipOf)) == Sum(AccountedLines(Lines(text), ipOf))
  {
    var lines := Lines(text);
    forall i | 0 <= i < |lines| ensures Total(Outcomes(lines, ipOf)[i]) == AccountedLines(lines, ipOf)[i] {
      LineAccounting(Trim(lines[i]), LineNumber(i), ipOf);
    }
    MergedTotal(Outcomes(lines, ipOf), AccountedLines(lines, ipOf));
  }

  // ---- Emitted names ----

  lemma DomainEnds(d: string)
    requires ValidDomain(d)
    ensures !EndsInDot(d) && !StartsWithDot(d)
  {
    LastLabelEmpty(d);
    FirstLabelEmpty(d);
  }

  predicate DomainChars(d: string) {
    forall i :: 0 <= i < |d| ==> LabelChar(d[i]) || d[i] == '.'
  }

  predicate LabelChars(s: string) {
    forall i :: 0 <= i < |s| ==> LabelChar(s[i])
  }

  lemma {:induction false} JoinedChars(labels: seq<string>)
    requires forall i :: 0 <= i < |labels| ==> LabelChars(labels[i])
    ensures DomainChars(Join(labels))
  {
    if |labels| > 1 {
      var rest := Join(labels[1..]);
      JoinedChars(labels[1..]);
      var s := labels[0] + "." + rest;
      forall i | 0 <= i < |s| ensures LabelChar(s[i]) || s[i] == '.' {
        if i > |labels[0]| { assert s[i] == rest[i - |labels[0]| - 1]; }
      }
    }
  }

  lemma ValidDomainChars(d: string)
    requires ValidDomain(d)
    ensures DomainChars(d)
  {
    JoinSplit(d);
    JoinedChars(Split(d));
  }

  /** A rule as the parser emits it for `line`: normalized, and safe for the engine. */
  ghost predicate Emittable(rule: Rule, line: string) {
    && rule.text == line
    && Safe(rule)
    && match rule.pattern
       case Exact(d) => ValidDomain(d)
       case Subtree(d) => ValidDomain(d)
       case Wildcard(expr, _) => ValidExpr(expr) && '*' in expr
  }

  lemma StrippedLength(s: string)
    ensures |LowerStrip(s)| <= |s| <= |LowerStrip(s)| + 1
  {
  }

  lemma StarSurvives(s: string)
    requires '*' in s
    ensures '*' in LowerStrip(s)
  {
    var i :| 0 <= i < |s| && s[i] == '*';
    assert StripDot(s)[i] == '*' && LowerStrip(s)[i] == '*';
  }

  lemma EntryEmittable(line: string, lineNo: nat)
    requires EntryOutcome(line, lineNo).rules != []
    ensures |EntryOutcome(line, lineNo).rules| == 1
    ensures Emittable(EntryOutcome(line, lineNo).rules[0], line)
    ensures EntryOutcome(line, lineNo).rules[0].line == lineNo
  {
    var rule := EntryOutcome(line, lineNo).rules[0];
    var afterAt := StripPrefix(line, "@@");
    var rest := StripCaret(StripPrefix(afterAt, "||"));
    assert Body(rule) == afterAt;
    match rule.pattern
    case Wildcard(_, _) =>
      StarSurvives(rest);
    case Subtree(d) =>
      DomainEnds(d);
      ReversedLength(d);
    case Exact(d) =>
      DomainEnds(d);
      StrippedLength(rest);
      assert StripPrefix(afterAt, "||") == afterAt;
  }

  lemma BeforeKeepsFront(line: string, n: nat)
    requires n <= |line| && forall i :: 0 <= i < n ==> line[i] != '#'
    ensures |Before(line, '#')| >= n
  {
  }

  lemma TrimKeepsFront(p: string, n: nat)
    requires 0 < n <= |p| && forall i :: 0 <= i < n ==> PlainByte(p[i])
    ensures |Trim(p)| >= n && Trim(p) <= p
  {
    PlainFrontUnmarked(p, n);
    assert Next(Mask(p), 0, false) == 0;
    assert !Mask(p)[n - 1];
  }

  lemma TokensPastFront(e: string, n: nat, j: nat) returns (at: nat)
    requires 0 < n <= |e| && forall i :: 0 <= i < n ==> PlainByte(e[i])
    requires 0 < j < |Tokens(e)|
    ensures n < at && at + |Tokens(e)[j]| <= |e| && e[at..at + |Tokens(e)[j]|] == Tokens(e)[j]
  {
    PlainFrontUnmarked(e, n);
    at := TokenPlace(e, j);
    assert Next(Mask(e), 0, false) == 0;
  }

  /** The name stands in the line at `at`, past its eighth byte. */
  ghost predicate PlacedAt(line: string, at: nat, name: string) {
    8 <= at && at + |name| <= |line| && line[at..at + |name|] == name
  }

  /** A hosts line that starts with the bytes `0.0.0.0` has no name before its ninth byte. */
  lemma NamePlace(line: string, j: nat) returns (at: nat)
    requires "0.0.0.0" <= line
    requires 0 < j < |HostTokens(line)|
    ensures PlacedAt(line, at, HostTokens(line)[j])
  {
    SinkFront(line);
    BeforeKeepsFront(line, 7);
    var p := Before(line, '#');
    TrimKeepsFront(p, 7);
    at := TokensPastFront(Trim(p), 7, j);
    PrefixSlice(line, Trim(p), at, |Tokens(Trim(p))[j]|);
  }

  lemma SinkFront(line: string)
    requires "0.0.0.0" <= line
    ensures forall i :: 0 <= i < 7 ==> PlainByte(line[i]) && line[i] != '#'
  {
    var sink := "0.0.0.0";
    assert forall i :: 0 <= i < |sink| ==> PlainByte(sink[i]) && sink[i] != '#';
    assert forall i :: 0 <= i < 7 ==> line[i] == sink[i];
  }

  lemma PrefixSlice(s: string, p: string, at: nat, n: nat)
    requires p <= s && at + n <= |p|
    ensures p[at..at + n] == s[at..at + n]
  {
  }

  lemma HostNamesAreTokens(line: string, k: nat) returns (j: nat)
    requires k < |HostNames(line)|
    ensures 0 < j < |HostTokens(line)| && HostTokens(line)[j] == HostNames(line)[k]
  {
    var tail := HostTokens(line)[1..];
    assert HostNames(line)[k] in tail;
    var i :| 0 <= i < |tail| && tail[i] == HostNames(line)[k];
    j := i + 1;
  }

  lemma NameEmittable(line: string, lineNo: nat, k: nat, d: string)
    requires k < |HostNames(line)| && NormalizeDomain(HostNames(line)[k]) == Some(d)
    ensures Emittable(Rule(RuleAction.Block, Pattern.Exact(d), line, lineNo), line)
  {
    if "0.0.0.0" <= line && |line| == 8 + |d| {
      NinthByte(line, k, d);
    }
  }

  /** On a line just long enough for `0.0.0.0 d` the name starts at the ninth byte, an ASCII one. */
  lemma NinthByte(line: string, k: nat, d: string)
    requires k < |HostNames(line)| && NormalizeDomain(HostNames(line)[k]) == Some(d)
    requires "0.0.0.0" <= line && |line| == 8 + |d|
    ensures IsCharBoundary(line, 8)
  {
    var name := HostNames(line)[k];
    StrippedLength(name);
    var at := HostNamePlace(line, k);
    FirstByteKept(name, d);
    FirstByteAscii(d);
    BoundaryBeforeName(line, at, name, d);
  }

  lemma HostNamePlace(line: string, k: nat) returns (at: nat)
    requires "0.0.0.0" <= line && k < |HostNames(line)|
    ensures PlacedAt(line, at, HostNames(line)[k])
  {
    var j := HostNamesAreTokens(line, k);
    at := NamePlace(line, j);
  }

  lemma BoundaryBeforeName(line: string, at: nat, name: string, d: string)
    requires PlacedAt(line, at, name) && |line| == 8 + |d|
    requires 0 < |d| <= |name| && (|name| == |d| ==> LowerChar(name[0]) == d[0]) && d[0] as int < 0x80
    ensures IsCharBoundary(line, 8)
  {
    SliceFront(line, at, name);
  }

  lemma SliceFront(s: string, at: nat, part: string)
    requires at + |part| <= |s| && s[at..at + |part|] == part && part != []
    ensures s[at] == part[0]
  {
    assert s[at..at + |part|][0] == part[0];
  }

  lemma FirstByteAscii(d: string)
    requires ValidDomain(d)
    ensures d[0] as int < 0x80
  {
    ValidDomainChars(d);
  }

  lemma FirstByteKept(name: string, d: string)
    requires NormalizeDomain(name) == Some(d)
    ensures |name| == |d| ==> LowerChar(name[0]) == d[0]
  {
  }

  lemma {:induction false} NamesEmittable(names: seq<string>, line: string, lineNo: nat)
    requires names <= HostNames(line)
    ensures forall r :: r in NamesOutcome(names, line, lineNo).rules ==> Emittable(r, line) && r.line == lineNo
  {
    if names != [] {
      NamesEmittable(names[..|names| - 1], line, lineNo);
      var d := NormalizeDomain(names[|names| - 1]);
      if d.Some? { NameEmittable(line, lineNo, |names| - 1, d.value); }
    }
  }

  /** Every emitted rule is normalized, fits the engine's buffers and carries its own line. */
  lemma LineEmittable(line: string, lineNo: nat, ipOf: IpOf)
    ensures forall r :: r in LineOutcome(line, lineNo, ipOf).rules ==> Emittable(r, line) && r.line == lineNo
  {
    if !Skipped(line) {
      if HostIp(line, ipOf).Some? {
        NamesEmittable(HostNames(line), line, lineNo);
      } else if EntryOutcome(line, lineNo).rules != [] {
        EntryEmittable(line, lineNo);
      }
    }
  }

  /** Where a rule of a list comes from. */
  ghost predicate FromLine(r: Rule, lines: seq<string>, i: nat)
  {
    i < |lines| && Emittable(r, Trim(lines[i])) && r.line == LineNumber(i)
  }

  lemma {:induction false} MergedMembers(parts: seq<Outcome>, r: Rule) returns (i: nat)
    requires r in Merged(parts).rules
    ensures i < |parts| && r in parts[i].rules
  {
    var front := parts[..|parts| - 1];
    if r in Merged(front).rules {
      i := MergedMembers(front, r);
    } else {
      i := |parts| - 1;
    }
  }

  /** Every rule of a list comes from one of its lines, safe for the engine. */
  lemma RuleFromLine(text: string, ipOf: IpOf, r: Rule) returns (i: nat)
    requires r in ListOutcome(text, ipOf).rules
    ensures FromLine(r, Lines(text), i)
  {
    var lines := Lines(text);
    i := MergedMembers(Outcomes(lines, ipOf), r);
    LineEmittable(Trim(lines[i]), LineNumber(i), ipOf);
  }

  /** A rule the engine stores without a panic, matches and displays as the reference says. */
  ghost predicate Safe(rule: Rule) {
    Storable(rule) && ProperPattern(rule.pattern) && TextConsistent(rule)
  }

  lemma ListIsSafe(text: string, ipOf: IpOf)
    ensures forall r :: r in ListOutcome(text, ipOf).rules ==> Safe(r)
  {
    forall r | r in ListOutcome(text, ipOf).rules ensures Safe(r) {
      var i := RuleFromLine(text, ipOf, r);
    }
  }

  // ---- Text round trip ----

  predicate AllPlain(s: string) {
    forall i :: 0 <= i < |s| ==> PlainByte(s[i])
  }

  /** Text without whitespace is one token at most. */
  lemma PlainIsOneToken(s: string)
    requires AllPlain(s)
    ensures |Tokens(s)| <= 1
  {
    PlainFrontUnmarked(s, |s|);
    var mask := Mask(s);
    if s != [] {
      assert Next(mask, 0, false) == 0;
      assert Next(mask, 0, true) == |s|;
      assert Spans(mask, |s|) == [];
    }
  }

  lemma SlicesStayPlain(line: string)
    requires AllPlain(line)
    ensures AllPlain(Trim(Before(line, '#')))
  {
    var p := Before(line, '#');
    assert AllPlain(p) by { assert forall i :: 0 <= i < |p| ==> p[i] == line[i]; }
    var e := Trim(p);
    var a := Next(Mask(p), 0, false);
    assert forall i :: 0 <= i < |e| ==> e[i] == p[a + i];
  }

  /** A line with at most two tokens before its comment names at most one host. */
  lemma ShortHostsLine(line: string)
    requires |HostTokens(line)| <= 2
    ensures |HostNames(line)| <= 1
  {
  }

  lemma CanonicalHostsTokens(line: string, d: string)
    requires ValidDomain(d) && line == "0.0.0.0 " + d
    ensures |HostTokens(line)| <= 2
  {
    ValidDomainChars(d);
    assert line == "0.0.0.0" + (" " + d);
    assert forall i :: 8 <= i < |line| ==> line[i] == d[i - 8];
    assert forall i :: 0 <= i < 8 ==> line[i] == "0.0.0.0 "[i];
    assert '#' !in line;
    TwoTokens(line);
  }

  /** Plain bytes, one space, plain bytes: at most two tokens. */
  lemma TwoTokens(line: string)
    requires |line| > 8 && line[7] == ' '
    requires forall i :: 0 <= i < |line| && i != 7 ==> PlainByte(line[i])
    ensures |Tokens(Trim(line))| <= 2
  {
    var n := |line|;
    var mask := Mask(line);
    PlainFrontUnmarked(line, 7);
    var tail := line[7..];
    assert tail[0] == ' ' && WsAt(tail) == 1;
    assert Mask(tail) == [true] + Mask(tail[1..]);
    assert tail[1..] == line[8..];
    PlainFrontUnmarked(line[8..], n - 8);
    forall i | 8 <= i < n ensures !mask[i] {
      assert mask[7..][i - 7] == Mask(tail)[i - 7] == Mask(line[8..])[i - 8];
    }
    assert mask[7] == mask[7..][0];
    assert Next(mask, 0, false) == 0 && LastEnd(mask, n) == n;
    assert Trim(line) == line;
    assert Next(mask, 0, true) == 7;
    assert Next(mask, 7, false) == 8 && Next(mask, 8, true) == n;
    assert Spans(mask, n) == [];
    assert Spans(mask, 7) == [(8, n)] + Spans(mask, n);
  }

  lemma CanonicalLineIsPlain(d: string, tail: string)
    requires ValidDomain(d) && (tail == "" || tail == "^")
    ensures AllPlain(d + tail)
  {
    ValidDomainChars(d);
  }

  /** A hosts line in a canonical form emits one rule at most. */
  lemma CanonicalHostsLine(line: string, lineNo: nat, r: Rule)
    requires r in NamesOutcome(HostNames(line), line, lineNo).rules && Emittable(r, line)
    requires r.action.Block? && r.pattern.Exact? && FormOf(r) != FORM_VERBATIM
    ensures |HostNames(line)| <= 1
  {
    var d := r.pattern.domain;
    if line == "0.0.0.0 " + d {
      CanonicalHostsTokens(line, d);
    } else {
      CanonicalLineIsPlain(d, "");
      CanonicalLineIsPlain(d, "^");
      assert line == d + "" || line == d + "^";
      SlicesStayPlain(line);
      PlainIsOneToken(Trim(Before(line, '#')));
      assert |HostTokens(line)| <= 1;
    }
    ShortHostsLine(line);
  }

  lemma {:induction false} HostsRulesBlock(names: seq<string>, line: string, lineNo: nat)
    ensures forall r :: r in NamesOutcome(names, line, lineNo).rules ==> r.action.Block? && r.pattern.Exact?
  {
    if names != [] { HostsRulesBlock(names[..|names| - 1], line, lineNo); }
  }

  lemma OnlyRule(o: Outcome, r: Rule)
    requires r in o.rules && Total(o) <= 1
    ensures o.rules == [r]
  {
  }

  /**
   Round trip: the text rebuilt for a canonical rule is the line it came from, and
   parsing that text yields exactly this rule again.
   */
  lemma CanonicalRoundTrip(line: string, lineNo: nat, ipOf: IpOf, r: Rule)
    requires r in LineOutcome(line, lineNo, ipOf).rules && FormOf(r) != FORM_VERBATIM
    ensures RebuiltText(r) == line
    ensures LineOutcome(RebuiltText(r), lineNo, ipOf).rules == [r]
  {
    assert RebuiltText(r) == line by {
      LineEmittable(line, lineNo, ipOf);
      RebuiltIsOriginal(r);
    }
    CanonicalLineIsShort(line, lineNo, ipOf, r);
    OnlyRule(LineOutcome(line, lineNo, ipOf), r);
  }

  lemma CanonicalLineIsShort(line: string, lineNo: nat, ipOf: IpOf, r: Rule)
    requires r in LineOutcome(line, lineNo, ipOf).rules && FormOf(r) != FORM_VERBATIM
    ensures Total(LineOutcome(line, lineNo, ipOf)) <= 1
  {
    LineAccounting(line, lineNo, ipOf);
    if !Skipped(line) && HostIp(line, ipOf).Some? {
      LineEmittable(line, lineNo, ipOf);
      var names := HostNames(line);
      HostsRulesBlock(names, line, lineNo);
      CanonicalHostsLine(line, lineNo, r);
    }
  }
}
