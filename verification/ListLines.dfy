/** Hosts lines, comments and the order of what a list yields, on lines as they are laid out. */
module ListLines {
  import opened Wrappers
  import opened Labels
  import opened Rules
  import opened Text
  import opened Parse
  import opened ParseProperties
  import opened Layout
  import opened Meaning
  import opened Grammar

  // ---- Hosts lines ----

  /** An address, with or without a zone, then words; behind them a comment or nothing. */
  predicate HostsLine(line: string, address: string, zone: string, words: seq<string>, gaps: seq<string>, comment: string) {
    && words != [] && LaidOut([address + zone] + words, gaps) && gaps[0] == ""
    && line == Laid([address + zone] + words, gaps) + comment
    && '%' !in address && (zone == "" || zone[0] == '%')
    && (comment == "" || comment[0] == '#')
    && forall i :: 0 <= i < |([address + zone] + words)| ==> '#' !in ([address + zone] + words)[i]
  }

  lemma {:induction false} NoHash(words: seq<string>, gaps: seq<string>)
    requires LaidOut(words, gaps) && forall i :: 0 <= i < |words| ==> '#' !in words[i]
    ensures '#' !in Laid(words, gaps)
  {
    assert forall i :: 0 <= i < |gaps[0]| ==> Space(gaps[0][i]);
    assert '#' !in gaps[0];
    if words != [] { NoHash(words[1..], gaps[1..]); }
  }

  lemma CutBefore(front: string, c: char, rest: string)
    requires c !in front && (rest == "" || rest[0] == c)
    ensures Before(front + rest, c) == front
  {
    if rest != "" {
      FoundAt(front, c, rest[1..]);
      assert front + rest == front + [c] + rest[1..];
      assert (front + rest)[..|front|] == front;
    } else {
      assert front + rest == front;
    }
  }

  lemma FirstToken(word: string, rest: string)
    requires Word(word) && (rest == "" || Space(rest[0]))
    ensures Tokens(word + rest) != [] && Tokens(word + rest)[0] == word
  {
    var s := word + rest;
    assert s[0..] == "" + word + rest;
    NextWord(s, 0, "", word, rest);
  }

  /** On such a line the address decides, and the names are the words up to the comment. */
  lemma HostsLineRead(line: string, address: string, zone: string, words: seq<string>, gaps: seq<string>, comment: string,
                      ipOf: IpOf)
    requires HostsLine(line, address, zone, words, gaps, comment)
    ensures HostIp(line, ipOf) == ipOf(address)
    ensures HostTokens(line) == [address + zone] + words
  {
    var all := [address + zone] + words;
    NoHash(all, gaps);
    CutBefore(Laid(all, gaps), '#', comment);
    TrimmedTokens(all, gaps);
    var rest := Laid(all[1..], gaps[1..]);
    assert all[1..] == words && gaps[1] != "";
    assert rest != "" && rest[0] == gaps[1][0];
    assert line == all[0] + (rest + comment);
    FirstToken(all[0], rest + comment);
    CutBefore(address, '%', zone);
  }

  /** A sink line blocks exactly the domains its words spell, local names left out. */
  lemma HostsLineSays(line: string, address: string, zone: string, words: seq<string>, gaps: seq<string>, comment: string,
                      ipOf: IpOf, action: RuleAction, p: Pattern)
    requires HostsLine(line, address, zone, words, gaps, comment) && ipOf(address).Some? && !Comment(line)
    ensures LineSays(line, ipOf, action, p)
            <==> ipOf(address) == Some(Sink) && action.Block? && exists i :: 0 <= i < |words| && !Local(words[i]) && Named(words[i], p)
  {
    HostsLineRead(line, address, zone, words, gaps, comment, ipOf);
    assert HostTokens(line)[1..] == words;
    if i :| 0 <= i < |words| && !Local(words[i]) && Named(words[i], p) {
      assert Listed(line, words[i]);
    }
  }

  // ---- Comments ----

  lemma StartsWith(mark: string, rest: string, other: string)
    requires |other| == |mark|
    ensures other <= mark + rest <==> other == mark
  {
    assert (mark + rest)[..|mark|] == mark;
  }

  /** A cosmetic rule that looks like a comment: `##` and what is no heading, or `#`, one of `@?$%` and `#`. */
  predicate LooksCosmetic(line: string) {
    |line| > 2 && line[0] == '#' &&
    ((line[1] == '#' && line[2] != '#' && !Space(line[2])) || (line[1] in "@?$%" && line[2] == '#'))
  }

  lemma FrontOf(s: string, mark: string)
    requires |mark| <= |s|
    ensures mark <= s <==> s[..|mark|] == mark
  {
  }

  lemma ThreeBytes(line: string, a: char, b: char, c: char)
    ensures [a, b, c] <= line <==> |line| > 2 && line[0] == a && line[1] == b && line[2] == c
  {
  }

  /** Comments and headers yield nothing, but a cosmetic rule among them is reported. */
  lemma CommentsReported(line: string, lineNo: nat, ipOf: IpOf)
    requires Comment(line) && (|line| > 2 ==> Ascii(line[2]))
    ensures LineOutcome(line, lineNo, ipOf) ==
            Outcome([], if LooksCosmetic(line) then [LineIssue(lineNo, line, CosmeticRule)] else [])
  {
    ThreeBytes(line, '#', '@', '#');
    ThreeBytes(line, '#', '?', '#');
    ThreeBytes(line, '#', '$', '#');
    ThreeBytes(line, '#', '%', '#');
    assert "##" <= line <==> |line| > 1 && line[0] == '#' && line[1] == '#';
    if |line| > 2 {
      assert line[2..][0] == line[2];
      AsciiMask(line[2..], 0);
    }
  }

  // ---- What is not a rule ----

  /** A line that is neither a comment, a hosts line nor a rule is reported, with its text and number. */
  lemma RejectedIsReported(line: string, lineNo: nat, ipOf: IpOf)
    requires !Comment(line) && HostIp(line, ipOf) == None
    requires forall action, p :: !SpellsEntry(line, action, p)
    ensures LineOutcome(line, lineNo, ipOf).rules == [] && |LineOutcome(line, lineNo, ipOf).issues| == 1
    ensures LineOutcome(line, lineNo, ipOf).issues[0].text == line && LineOutcome(line, lineNo, ipOf).issues[0].line == lineNo
  {
    LineAccounting(line, lineNo, ipOf);
    var o := LineOutcome(line, lineNo, ipOf);
    if o.rules != [] {
      EntryGrammar(line, lineNo, o.rules[0]);
    }
  }

  // ---- Order ----

  predicate OnLine(o: Outcome, n: nat) {
    && (forall i :: 0 <= i < |o.rules| ==> o.rules[i].line == n)
    && (forall i :: 0 <= i < |o.issues| ==> o.issues[i].line == n)
  }

  predicate InOrder(o: Outcome, last: nat) {
    && (forall i, j :: 0 <= i <= j < |o.rules| ==> o.rules[i].line <= o.rules[j].line <= last)
    && (forall i, j :: 0 <= i <= j < |o.issues| ==> o.issues[i].line <= o.issues[j].line <= last)
  }

  lemma {:induction false} NamesOnLine(names: seq<string>, line: string, lineNo: nat)
    ensures OnLine(NamesOutcome(names, line, lineNo), lineNo)
  {
    if names != [] { NamesOnLine(names[..|names| - 1], line, lineNo); }
  }

  lemma EntryOnLine(line: string, lineNo: nat)
    ensures OnLine(EntryOutcome(line, lineNo), lineNo)
  {
  }

  lemma HostsOnLine(line: string, ip: Ip, lineNo: nat)
    ensures OnLine(HostsOutcome(line, ip, lineNo), lineNo)
  {
    NamesOnLine(HostNames(line), line, lineNo);
  }

  lemma AllOnLine(line: string, lineNo: nat, ipOf: IpOf)
    ensures OnLine(LineOutcome(line, lineNo, ipOf), lineNo)
  {
    if !Skipped(line) {
      match HostIp(line, ipOf)
      case None => EntryOnLine(line, lineNo);
      case Some(ip) => HostsOnLine(line, ip, lineNo);
    }
  }

  lemma {:induction false} PrefixInOrder(lines: seq<string>, ipOf: IpOf, n: nat)
    requires n <= |lines|
    ensures InOrder(Merged(Outcomes(lines, ipOf)[..n]), if n == 0 then 0 else NumberOf(n - 1))
  {
    var parts := Outcomes(lines, ipOf);
    if n > 0 {
      PrefixInOrder(lines, ipOf, n - 1);
      assert parts[..n][..n - 1] == parts[..n - 1];
      AllOnLine(Trim(lines[n - 1]), LineNumber(n - 1), ipOf);
      ThenInOrder(Merged(parts[..n - 1]), parts[n - 1], if n == 1 then 0 else NumberOf(n - 2), NumberOf(n - 1));
    }
  }

  lemma ThenInOrder(a: Outcome, b: Outcome, m: nat, n: nat)
    requires InOrder(a, m) && OnLine(b, n) && m <= n
    ensures InOrder(a.Then(b), n)
  {
  }

  /** Rules and issues each come in the order of their lines. */
  lemma ListInOrder(text: string, ipOf: IpOf)
    ensures InOrder(ListOutcome(text, ipOf), 4294967295)
  {
    var parts := Outcomes(Lines(text), ipOf);
    PrefixInOrder(Lines(text), ipOf, |parts|);
    assert parts[..|parts|] == parts;
  }
}
