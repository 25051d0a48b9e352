/**
 What the lines of a list say, written out as text: the parser emits a rule exactly for
 the lines that spell it.
 */
module Grammar {
  import opened Wrappers
  import opened Labels
  import opened Rules
  import opened Text
  import opened EngineModel
  import opened Parse
  import opened ParseProperties
  import opened Exactness
  import opened Meaning
  import opened Layout

  // ---- Entries ----

  predicate WithSubdomains(p: Pattern) {
    p.Subtree? || (p.Wildcard? && p.includeSubdomains)
  }

  /** The domain or expression of a pattern. */
  function Core(p: Pattern): string {
    match p
    case Exact(d) => d
    case Subtree(d) => d
    case Wildcard(expr, _) => expr
  }

  ghost predicate LegalPattern(p: Pattern) {
    if p.Wildcard? then LegalExpr(p.expr) else LegalDomain(p.domain)
  }

  /** Written or left out. */
  function Mark(written: bool, mark: string): string {
    if written then mark else ""
  }

  /** `@@` makes an exception, `||` takes in the subdomains; `^` at the end says nothing. */
  function Entry(exception: bool, subdomains: bool, body: string, caret: bool): string {
    Mark(exception, "@@") + (Mark(subdomains, "||") + (body + Mark(caret, "^")))
  }

  /** The body is the domain or expression in any case, with or without a final dot. */
  ghost predicate EntryWith(line: string, action: RuleAction, p: Pattern, body: string, caret: bool) {
    line == Entry(action.Except?, WithSubdomains(p), body, caret) && Spells(body, Core(p)) && LegalPattern(p)
  }

  ghost predicate SpellsEntry(line: string, action: RuleAction, p: Pattern) {
    exists body, caret :: EntryWith(line, action, p, body, caret)
  }

  /** A byte of a domain or expression as it may be typed. */
  predicate TypedByte(c: char) {
    LegalByte(c) || 65 <= c as int <= 90 || c == '.' || c == '*'
  }

  lemma CoreBytes(p: Pattern)
    requires LegalPattern(p)
    ensures NoCapitals(Core(p)) && !EndsInDot(Core(p)) && Core(p) != ""
    ensures forall i :: 0 <= i < |Core(p)| ==> TypedByte(Core(p)[i])
    ensures p.Wildcard? <==> '*' in Core(p)
  {
    var core := Core(p);
    if p.Wildcard? {
      ExprExactly(core);
      ExprEnds(core);
      forall i | 0 <= i < |core| ensures TypedByte(core[i]) && !(65 <= core[i] as int <= 90) {
        assert ExprChar(core[i]);
      }
    } else {
      DomainExactly(core);
      DomainEnds(core);
      ValidDomainChars(core);
    }
  }

  lemma TypedBytes(body: string, core: string)
    requires Spells(body, core) && forall i :: 0 <= i < |core| ==> TypedByte(core[i])
    ensures forall i :: 0 <= i < |body| ==> TypedByte(body[i])
    ensures '*' in body <==> '*' in core
    ensures core != "" ==> body != ""
  {
    forall i | 0 <= i < |body| ensures TypedByte(body[i]) {
      if i < |core| { assert SameButCase(body, core) || SameButCase(body[..|body| - 1], core); }
    }
    if i :| 0 <= i < |core| && core[i] == '*' {
      assert SameLetter(body[i], core[i]);
    }
    if i :| 0 <= i < |body| && body[i] == '*' {
      assert i < |core| && SameLetter(body[i], core[i]);
    }
  }

  /** What is typed for a legal pattern is read as that pattern. */
  lemma TypedPattern(body: string, p: Pattern)
    requires LegalPattern(p) && Spells(body, Core(p))
    ensures PatternOf(body, WithSubdomains(p)) == Some(p)
  {
    CoreBytes(p);
    TypedBytes(body, Core(p));
    NormalizedExactly(body, Core(p));
    StripCommutes(body);
    if p.Wildcard? { ExprExactly(p.expr); } else { DomainExactly(p.domain); }
  }

  /** What is read as a pattern was typed for it. */
  lemma PatternTyped(body: string, subtree: bool, p: Pattern)
    requires PatternOf(body, subtree) == Some(p)
    ensures LegalPattern(p) && Spells(body, Core(p)) && WithSubdomains(p) == subtree
  {
    var core := Core(p);
    StripCommutes(body);
    if p.Wildcard? {
      StarSurvives(body);
      ExprExactly(core);
    } else {
      DomainExactly(core);
    }
    CoreBytes(p);
    NormalizedExactly(body, core);
  }

  // ---- Marks are taken off as they were put on ----

  lemma MarkTakenOff(written: bool, mark: string, rest: string)
    requires mark != "" && !(mark <= rest)
    ensures StripPrefix(Mark(written, mark) + rest, mark) == rest
    ensures mark <= Mark(written, mark) + rest <==> written
  {
    if !written { assert "" + rest == rest; }
  }

  lemma MarkPutBack(s: string, mark: string)
    ensures s == Mark(mark <= s, mark) + StripPrefix(s, mark)
  {
  }

  lemma CaretTakenOff(body: string, caret: bool)
    requires '^' !in body
    ensures StripCaret(body + Mark(caret, "^")) == body
  {
    if caret { assert (body + "^")[..|body|] == body; } else { assert body + "" == body; }
  }

  lemma CaretPutBack(s: string)
    ensures s == StripCaret(s) + Mark(|StripCaret(s)| < |s|, "^")
  {
  }

  predicate TypedBytesOnly(s: string) {
    forall i :: 0 <= i < |s| ==> TypedByte(s[i])
  }

  predicate EntryBytesOnly(s: string) {
    forall i :: 0 <= i < |s| ==> TypedByte(s[i]) || s[i] == '@' || s[i] == '|' || s[i] == '^'
  }

  lemma MarkedBytes(written: bool, mark: string, rest: string)
    requires EntryBytesOnly(mark) && EntryBytesOnly(rest)
    ensures EntryBytesOnly(Mark(written, mark) + rest) && EntryBytesOnly(rest + Mark(written, mark))
  {
  }

  lemma EntryBytesOf(exception: bool, subdomains: bool, body: string, caret: bool)
    requires body != "" && TypedBytesOnly(body)
    ensures EntryBytesOnly(Entry(exception, subdomains, body, caret)) && Entry(exception, subdomains, body, caret) != ""
  {
    var ats, bars, hat := "@@", "||", "^";
    assert EntryBytesOnly(ats) && EntryBytesOnly(bars) && EntryBytesOnly(hat);
    MarkedBytes(caret, hat, body);
    MarkedBytes(subdomains, bars, body + Mark(caret, hat));
    MarkedBytes(exception, ats, Mark(subdomains, bars) + (body + Mark(caret, hat)));
  }

  lemma PlainEntry(line: string)
    requires line != "" && EntryBytesOnly(line)
    ensures !Cosmetic(line) && '$' !in line && !RegexLine(line)
    ensures !Skipped(line)
  {
    assert '#' !in line;
    NotCosmetic(line);
  }

  lemma TypedFront(body: string)
    requires body != "" && TypedBytesOnly(body)
    ensures '^' !in body && body[0] != '|' && body[0] != '@'
  {
  }

  /** What taking the marks off an entry leaves. */
  lemma EntryTakenApart(exception: bool, subdomains: bool, body: string, caret: bool)
    requires body != "" && TypedBytesOnly(body)
    ensures var line := Entry(exception, subdomains, body, caret);
            var afterAt := StripPrefix(line, "@@");
            && ("@@" <= line <==> exception) && ("||" <= afterAt <==> subdomains)
            && StripCaret(StripPrefix(afterAt, "||")) == body
  {
    var end := body + Mark(caret, "^");
    var ats, bars := "@@", "||";
    TypedFront(body);
    assert end[0] == body[0] && bars[0] == '|' && ats[0] == '@';
    MarkTakenOff(subdomains, bars, end);
    assert (Mark(subdomains, bars) + end)[0] != '@';
    MarkTakenOff(exception, ats, Mark(subdomains, bars) + end);
    CaretTakenOff(body, caret);
  }

  lemma PartsAreRead(line: string, lineNo: nat, action: RuleAction, subtree: bool, body: string, p: Pattern)
    requires !Cosmetic(line) && '$' !in line && !RegexLine(line)
    requires action.Except? == ("@@" <= line) && subtree == ("||" <= StripPrefix(line, "@@"))
    requires body == StripCaret(StripPrefix(StripPrefix(line, "@@"), "||"))
    requires '^' !in body && body != "" && body[0] != '|' && PatternOf(body, subtree) == Some(p)
    ensures EntryOutcome(line, lineNo) == Outcome([Rule(action, p, line, lineNo)], [])
  {
  }

  lemma EntryIsRead(line: string, lineNo: nat, action: RuleAction, p: Pattern, body: string, caret: bool)
    requires EntryWith(line, action, p, body, caret)
    ensures EntryOutcome(line, lineNo) == Outcome([Rule(action, p, line, lineNo)], [])
    ensures !Skipped(line)
  {
    CoreBytes(p);
    TypedBytes(body, Core(p));
    EntryBytesOf(action.Except?, WithSubdomains(p), body, caret);
    PlainEntry(line);
    EntryTakenApart(action.Except?, WithSubdomains(p), body, caret);
    TypedFront(body);
    TypedPattern(body, p);
    PartsAreRead(line, lineNo, action, WithSubdomains(p), body, p);
  }

  lemma ReadParts(line: string, lineNo: nat, r: Rule)
    requires r in EntryOutcome(line, lineNo).rules
    ensures r.line == lineNo && r.text == line && r.action.Except? == ("@@" <= line)
    ensures var afterAt := StripPrefix(line, "@@");
            PatternOf(StripCaret(StripPrefix(afterAt, "||")), "||" <= afterAt) == Some(r.pattern)
  {
  }

  lemma PutTogether(line: string)
    ensures var afterAt := StripPrefix(line, "@@"); var end := StripPrefix(afterAt, "||");
            line == Entry("@@" <= line, "||" <= afterAt, StripCaret(end), |StripCaret(end)| < |end|)
  {
    var ats, bars := "@@", "||";
    var afterAt := StripPrefix(line, ats);
    MarkPutBack(line, ats);
    MarkPutBack(afterAt, bars);
    CaretPutBack(StripPrefix(afterAt, bars));
  }

  lemma ReadIsEntry(line: string, lineNo: nat, r: Rule)
    requires r in EntryOutcome(line, lineNo).rules
    ensures r.line == lineNo && r.text == line && SpellsEntry(line, r.action, r.pattern)
  {
    ReadParts(line, lineNo, r);
    PutTogether(line);
    var afterAt := StripPrefix(line, "@@");
    var end := StripPrefix(afterAt, "||");
    PatternTyped(StripCaret(end), "||" <= afterAt, r.pattern);
    assert EntryWith(line, r.action, r.pattern, StripCaret(end), |StripCaret(end)| < |end|);
  }

  /** A line that is no hosts line yields a rule exactly if it spells it. */
  lemma EntryGrammar(line: string, lineNo: nat, r: Rule)
    ensures r in EntryOutcome(line, lineNo).rules
            <==> r.line == lineNo && r.text == line && SpellsEntry(line, r.action, r.pattern)
  {
    if r in EntryOutcome(line, lineNo).rules { ReadIsEntry(line, lineNo, r); }
    if r.line == lineNo && r.text == line && SpellsEntry(line, r.action, r.pattern) {
      var body, caret :| EntryWith(line, r.action, r.pattern, body, caret);
      EntryIsRead(line, lineNo, r.action, r.pattern, body, caret);
      assert r == Rule(r.action, r.pattern, line, lineNo);
    }
  }

  // ---- Hosts lines ----

  /** The name describes the local machine. */
  predicate Local(name: string) {
    exists l :: l in LOCALHOST_NAMES && Spells(name, l)
  }

  lemma LocalNamesAreFolded()
    ensures forall l :: l in LOCALHOST_NAMES ==> NoCapitals(l) && !EndsInDot(l)
  {
  }

  lemma LocalExactly(name: string)
    ensures IsLocalhost(name) <==> Local(name)
  {
    LocalNamesAreFolded();
    StripCommutes(name);
    forall l | l in LOCALHOST_NAMES ensures LowerStrip(name) == l <==> Spells(name, l) {
      NormalizedExactly(name, l);
    }
  }

  lemma {:induction false} RemoteNames(names: seq<string>, name: string)
    ensures name in WithoutLocalhost(names) <==> name in names && !Local(name)
  {
    if names != [] {
      LocalExactly(names[0]);
      RemoteNames(names[1..], name);
      assert name in names <==> name == names[0] || name in names[1..];
    }
  }

  /** The name stands for the domain. */
  ghost predicate Named(name: string, p: Pattern) {
    p.Exact? && LegalDomain(p.domain) && Spells(name, p.domain)
  }

  lemma NameGrammar(name: string, line: string, lineNo: nat, r: Rule)
    ensures r in NameOutcome(name, line, lineNo).rules
            <==> r.action.Block? && r.line == lineNo && r.text == line && Named(name, r.pattern)
  {
    StripCommutes(name);
    if r.pattern.Exact? {
      var d := r.pattern.domain;
      DomainExactly(d);
      if LegalDomain(d) {
        CoreBytes(r.pattern);
        NormalizedExactly(name, d);
      }
    }
  }

  lemma {:induction false} NamesGrammar(names: seq<string>, line: string, lineNo: nat, r: Rule)
    ensures r in NamesOutcome(names, line, lineNo).rules
            <==> r.action.Block? && r.line == lineNo && r.text == line && exists name :: name in names && Named(name, r.pattern)
  {
    if names != [] {
      var front, last := names[..|names| - 1], names[|names| - 1];
      NamesGrammar(front, line, lineNo, r);
      NameGrammar(last, line, lineNo, r);
      assert forall name :: name in names <==> name in front || name == last;
    }
  }

  /** The name is one of the words behind the address and not a local one. */
  ghost predicate Listed(line: string, name: string) {
    HostTokens(line) != [] && name in HostTokens(line)[1..] && !Local(name)
  }

  /** A sink address blocks exactly the domains listed behind it; any other blocks nothing. */
  ghost predicate SpellsHosts(line: string, ip: Ip, action: RuleAction, p: Pattern) {
    ip.Sink? && action.Block? && exists name :: Listed(line, name) && Named(name, p)
  }

  lemma HostsGrammar(line: string, ip: Ip, lineNo: nat, r: Rule)
    ensures r in HostsOutcome(line, ip, lineNo).rules
            <==> r.line == lineNo && r.text == line && SpellsHosts(line, ip, r.action, r.pattern)
  {
    var names := HostNames(line);
    NamesGrammar(names, line, lineNo, r);
    forall name ensures name in names <==> Listed(line, name) {
      if HostTokens(line) != [] { RemoteNames(HostTokens(line)[1..], name); }
    }
  }

  // ---- Lines and lists ----

  /** Comments and headers say nothing. */
  predicate Comment(line: string) {
    || line == "" || line[0] == '!' || line[0] == '#'
    || (line[0] == '[' && line[|line| - 1] == ']')
  }

  /** The trimmed line is a rule with this action and pattern. */
  ghost predicate LineSays(line: string, ipOf: IpOf, action: RuleAction, p: Pattern) {
    match HostIp(line, ipOf)
    case None => SpellsEntry(line, action, p)
    case Some(ip) => !Comment(line) && SpellsHosts(line, ip, action, p)
  }

  lemma LineGrammar(line: string, lineNo: nat, ipOf: IpOf, r: Rule)
    ensures r in LineOutcome(line, lineNo, ipOf).rules
            <==> r.line == lineNo && r.text == line && LineSays(line, ipOf, r.action, r.pattern)
  {
    match HostIp(line, ipOf)
    case None =>
      EntryGrammar(line, lineNo, r);
      if SpellsEntry(line, r.action, r.pattern) {
        var body, caret :| EntryWith(line, r.action, r.pattern, body, caret);
        EntryIsRead(line, lineNo, r.action, r.pattern, body, caret);
      }
    case Some(ip) => HostsGrammar(line, ip, lineNo, r);
  }

  /** Lines are counted from 1, in 32 bits that do not wrap around. */
  function NumberOf(i: nat): nat {
    if i < 4294967295 then i + 1 else 4294967295
  }

  /** Line `i` of the list is this rule. */
  ghost predicate RuleAt(text: string, ipOf: IpOf, r: Rule, i: nat) {
    && i < |Lines(text)| && r.text == Trim(Lines(text)[i]) && r.line == NumberOf(i)
    && LineSays(r.text, ipOf, r.action, r.pattern)
  }

  lemma {:induction false} MergedHolds(parts: seq<Outcome>, i: nat, r: Rule)
    requires i < |parts| && r in parts[i].rules
    ensures r in Merged(parts).rules
  {
    if i < |parts| - 1 { MergedHolds(parts[..|parts| - 1], i, r); }
  }

  /** A list yields exactly the rules its lines say, each with its own text and number. */
  lemma ListGrammar(text: string, ipOf: IpOf, r: Rule)
    ensures r in ListOutcome(text, ipOf).rules <==> exists i :: RuleAt(text, ipOf, r, i)
  {
    var parts := Outcomes(Lines(text), ipOf);
    if r in Merged(parts).rules {
      var i := MergedMembers(parts, r);
      LineGrammar(Trim(Lines(text)[i]), LineNumber(i), ipOf, r);
      assert RuleAt(text, ipOf, r, i);
    }
    if i: nat :| RuleAt(text, ipOf, r, i) {
      LineGrammar(r.text, LineNumber(i), ipOf, r);
      MergedHolds(parts, i, r);
    }
  }

  /** A rule that is not on a hosts line is an exception exactly if its line starts with `@@`. */
  lemma ExceptionExactly(text: string, ipOf: IpOf, r: Rule)
    requires r in ListOutcome(text, ipOf).rules && HostIp(r.text, ipOf) == None
    ensures r.action.Except? <==> "@@" <= r.text
  {
    ListGrammar(text, ipOf, r);
    var i :| RuleAt(text, ipOf, r, i);
    var body, caret :| EntryWith(r.text, r.action, r.pattern, body, caret);
    CoreBytes(r.pattern);
    TypedBytes(body, Core(r.pattern));
    EntryTakenApart(r.action.Except?, WithSubdomains(r.pattern), body, caret);
  }

  /** Hosts lines never make exceptions. */
  lemma HostsLinesBlock(text: string, ipOf: IpOf, r: Rule)
    requires r in ListOutcome(text, ipOf).rules && HostIp(r.text, ipOf).Some?
    ensures r.action.Block? && r.pattern.Exact? && HostIp(r.text, ipOf) == Some(Sink)
  {
    ListGrammar(text, ipOf, r);
  }
}
