/**
 What names, domains and patterns mean, said on their bytes and without the functions
 that fold, split and match them.
 */
module Meaning {
  import opened Wrappers
  import opened Labels
  import opened Rules
  import opened Parse
  import opened ParseProperties
  import Glob

  // ---- Case ----

  /** Equal bytes, or an ASCII letter and its other case. */
  predicate SameLetter(a: char, b: char) {
    || a == b
    || (65 <= a as int <= 90 && b as int == a as int + 32)
    || (65 <= b as int <= 90 && a as int == b as int + 32)
  }

  predicate SameButCase(a: string, b: string) {
    |a| == |b| && forall i :: 0 <= i < |a| ==> SameLetter(a[i], b[i])
  }

  predicate NoCapitals(s: string) {
    forall i :: 0 <= i < |s| ==> !(65 <= s[i] as int <= 90)
  }

  /** `name` is written as `typed`, in any case and with or without one final dot. */
  predicate Spells(typed: string, name: string) {
    || SameButCase(typed, name)
    || (typed != "" && typed[|typed| - 1] == '.' && SameButCase(typed[..|typed| - 1], name))
  }

  /** Folding identifies exactly the names that differ in case alone. */
  lemma FoldsExactly(a: string, b: string)
    ensures Lower(a) == Lower(b) <==> SameButCase(a, b)
  {
    if Lower(a) == Lower(b) {
      forall i | 0 <= i < |a| ensures SameLetter(a[i], b[i]) {
        assert Lower(a)[i] == Lower(b)[i];
      }
    }
  }

  lemma NoCapitalsFixed(s: string)
    requires NoCapitals(s)
    ensures Lower(s) == s
  {
  }

  /** Stripping a dot and folding commute. */
  lemma StripCommutes(s: string)
    ensures Normalized(s) == LowerStrip(s)
  {
    if s != [] {
      assert Lower(s)[|s| - 1] == '.' <==> s[|s| - 1] == '.';
      assert Lower(s)[..|s| - 1] == Lower(s[..|s| - 1]);
    }
  }

  /** The name asked about is the one typed, up to case and one final dot. */
  lemma NormalizedExactly(typed: string, name: string)
    requires NoCapitals(name) && !EndsInDot(name)
    ensures Normalized(typed) == name <==> Spells(typed, name)
  {
    StripCommutes(typed);
    NoCapitalsFixed(name);
    FoldsExactly(typed, name);
    if EndsInDot(typed) {
      FoldsExactly(typed[..|typed| - 1], name);
    }
  }

  /** Queries that differ in case alone are answered alike, by the engine and the reference, whatever the rules. */
  lemma CaseIsInvisible(rules: seq<Rule>, a: string, b: string)
    requires SameButCase(a, b)
    ensures EngineDecision(rules, a) == EngineDecision(rules, b)
    ensures Reference(rules, a) == Reference(rules, b)
  {
    FoldsExactly(a, b);
  }

  // ---- Domains and expressions ----

  /** A byte of a label: a small ASCII letter, a digit, `-` or `_`. */
  predicate LegalByte(c: char) {
    97 <= c as int <= 122 || 48 <= c as int <= 57 || c as int == 45 || c as int == 95
  }

  predicate LegalLabel(s: string) {
    && 1 <= |s| <= 63 && s[0] != '-' && s[|s| - 1] != '-'
    && forall i :: 0 <= i < |s| ==> LegalByte(s[i])
  }

  /** These labels with dots between them. */
  ghost predicate DomainOf(d: string, labels: seq<string>) {
    labels != [] && d == Join(labels) && forall i :: 0 <= i < |labels| ==> LegalLabel(labels[i])
  }

  /** A domain is at most 253 bytes of legal labels with dots between them. */
  ghost predicate LegalDomain(d: string) {
    |d| <= 253 && exists labels :: DomainOf(d, labels)
  }

  lemma DomainExactly(d: string)
    ensures ValidDomain(d) <==> LegalDomain(d)
  {
    if ValidDomain(d) {
      JoinSplit(d);
      forall i | 0 <= i < |Split(d)| ensures LegalLabel(Split(d)[i]) {
        assert ValidLabel(Split(d)[i]);
      }
      assert DomainOf(d, Split(d));
    }
    if LegalDomain(d) {
      var labels :| DomainOf(d, labels);
      forall i | 0 <= i < |labels| ensures ValidLabel(labels[i]) && DotFree(labels[i]) {
        assert LegalLabel(labels[i]);
        assert forall k :: 0 <= k < |labels[i]| ==> LegalByte(labels[i][k]) && LabelChar(labels[i][k]);
      }
      SplitJoin(labels);
      JoinedLength(labels);
    }
  }

  /** A part of an expression between dots: anything with a star in it, or as a label bounded. */
  predicate LegalPart(s: string) {
    && (forall i :: 0 <= i < |s| ==> LegalByte(s[i]) || s[i] == '*')
    && ('*' in s || (1 <= |s| <= 63 && s[0] != '-' && s[|s| - 1] != '-'))
  }

  ghost predicate ExprOf(e: string, parts: seq<string>) {
    parts != [] && e == Join(parts) && forall i :: 0 <= i < |parts| ==> LegalPart(parts[i])
  }

  predicate HasLetterOrDigit(e: string) {
    exists i :: 0 <= i < |e| && (97 <= e[i] as int <= 122 || 48 <= e[i] as int <= 57)
  }

  ghost predicate LegalExpr(e: string) {
    |e| <= 253 && '*' in e && HasLetterOrDigit(e) && exists parts :: ExprOf(e, parts)
  }

  /** Bytes of the parts of a name are bytes of the name. */
  lemma {:induction false} BytesOfParts(parts: seq<string>)
    ensures forall i, c :: 0 <= i < |parts| && c in parts[i] ==> c in Join(parts)
  {
    if |parts| > 1 { BytesOfParts(parts[1..]); }
  }

  /** Bytes of a name are dots or bytes of its parts. */
  lemma {:induction false} PartsOfBytes(parts: seq<string>)
    ensures forall c :: c in Join(parts) ==> c == '.' || exists i :: 0 <= i < |parts| && c in parts[i]
  {
    if |parts| > 1 {
      PartsOfBytes(parts[1..]);
      forall c | c in Join(parts) ensures c == '.' || exists i :: 0 <= i < |parts| && c in parts[i] {
        if c in Join(parts[1..]) && c != '.' {
          var i :| 0 <= i < |parts[1..]| && c in parts[1..][i];
          assert c in parts[i + 1];
        }
      }
    }
  }

  lemma PartsAreLegal(e: string)
    requires ValidExpr(e)
    ensures ExprOf(e, Split(e))
  {
    JoinSplit(e);
    SplitDotFree(e);
    BytesOfParts(Split(e));
    forall i | 0 <= i < |Split(e)| ensures LegalPart(Split(e)[i]) {
      forall k | 0 <= k < |Split(e)[i]| ensures LegalByte(Split(e)[i][k]) || Split(e)[i][k] == '*' {
        var c := Split(e)[i][k];
        assert c in Split(e)[i] && c in e;
        assert ExprChar(c) && c != '.';
      }
    }
  }

  lemma PartsAreValid(e: string, parts: seq<string>)
    requires ExprOf(e, parts) && |e| <= 253 && HasLetterOrDigit(e)
    ensures ValidExpr(e)
  {
    forall i | 0 <= i < |parts| ensures DotFree(parts[i]) {
      assert LegalPart(parts[i]);
      assert forall k :: 0 <= k < |parts[i]| ==> LegalByte(parts[i][k]) || parts[i][k] == '*';
    }
    SplitJoin(parts);
    PartsOfBytes(parts);
    forall k | 0 <= k < |e| ensures ExprChar(e[k]) {
      assert e[k] in e;
      if e[k] != '.' {
        var i :| 0 <= i < |parts| && e[k] in parts[i];
        assert LegalPart(parts[i]);
      }
    }
    forall i | 0 <= i < |Split(e)|
      ensures '*' in Split(e)[i] || (0 < |Split(e)[i]| <= 63 && !HyphenBounded(Split(e)[i]))
    {
      assert LegalPart(parts[i]);
    }
    var i :| 0 <= i < |e| && (97 <= e[i] as int <= 122 || 48 <= e[i] as int <= 57);
    assert 'a' <= e[i] <= 'z' || '0' <= e[i] <= '9';
  }

  lemma ExprExactly(e: string)
    ensures ValidExpr(e) && '*' in e <==> LegalExpr(e)
  {
    if ValidExpr(e) { PartsAreLegal(e); }
    if LegalExpr(e) {
      var parts :| ExprOf(e, parts);
      PartsAreValid(e, parts);
    }
  }

  // ---- Patterns ----

  /** The pieces with the fills between them. */
  function Woven(pieces: seq<string>, fills: seq<string>): string
    requires |pieces| == |fills| + 1
  {
    if fills == [] then pieces[0] else pieces[0] + fills[0] + Woven(pieces[1..], fills[1..])
  }

  function Stars(n: nat): (r: seq<string>)
    ensures |r| == n
  {
    seq(n, i => "*")
  }

  /** `text` is `expr` with its stars replaced by `fills`. */
  ghost predicate FilledWith(expr: string, text: string, pieces: seq<string>, fills: seq<string>) {
    && |pieces| == |fills| + 1
    && (forall i :: 0 <= i < |pieces| ==> '*' !in pieces[i])
    && expr == Woven(pieces, Stars(|fills|))
    && text == Woven(pieces, fills)
  }

  ghost predicate Fills(expr: string, text: string) {
    exists pieces, fills :: FilledWith(expr, text, pieces, fills)
  }

  lemma StarsStep(n: nat)
    requires n > 0
    ensures Stars(n)[0] == "*" && Stars(n)[1..] == Stars(n - 1)
  {
  }

  lemma LiteralFill(expr: string, text: string, pieces: seq<string>, fills: seq<string>, c: char)
    requires FilledWith(expr, text, pieces, fills) && c != '*'
    ensures Fills([c] + expr, [c] + text)
  {
    var longer := [[c] + pieces[0]] + pieces[1..];
    assert longer[1..] == pieces[1..];
    forall i | 0 <= i < |longer| ensures '*' !in longer[i] {
      assert '*' !in pieces[i];
    }
    assert Woven(longer, fills) == [c] + Woven(pieces, fills);
    assert Woven(longer, Stars(|fills|)) == [c] + Woven(pieces, Stars(|fills|));
    assert FilledWith([c] + expr, [c] + text, longer, fills);
  }

  lemma StarFill(expr: string, text: string, pieces: seq<string>, fills: seq<string>, fill: string)
    requires FilledWith(expr, text, pieces, fills)
    ensures Fills("*" + expr, fill + text)
  {
    var more, filled := [""] + pieces, [fill] + fills;
    StarsStep(|filled|);
    assert more[1..] == pieces && filled[1..] == fills;
    assert Woven(more, filled) == "" + fill + Woven(pieces, fills);
    assert Woven(more, Stars(|filled|)) == "" + "*" + Woven(pieces, Stars(|fills|));
    assert FilledWith("*" + expr, fill + text, more, filled);
  }

  lemma {:induction false} MatchedIsFilled(expr: string, text: string)
    requires Glob.Matches(expr, text)
    ensures Fills(expr, text)
    decreases |expr|
  {
    if expr == [] {
      assert FilledWith(expr, text, [""], []);
    } else {
      var rest, left := expr[1..], text;
      if expr[0] == '*' {
        var skip :| 0 <= skip <= |text| && Glob.Matches(rest, text[skip..]);
        left := text[skip..];
      } else {
        left := text[1..];
      }
      MatchedIsFilled(rest, left);
      var pieces, fills :| FilledWith(rest, left, pieces, fills);
      if expr[0] == '*' {
        StarFill(rest, left, pieces, fills, text[..|text| - |left|]);
        assert expr == "*" + rest && text == text[..|text| - |left|] + left;
      } else {
        LiteralFill(rest, left, pieces, fills, expr[0]);
        assert expr == [expr[0]] + rest && text == [expr[0]] + left;
      }
    }
  }

  lemma {:induction false} LiteralsMatch(piece: string, expr: string, text: string)
    requires '*' !in piece && Glob.Matches(expr, text)
    ensures Glob.Matches(piece + expr, piece + text)
  {
    if piece == [] {
      assert piece + expr == expr && piece + text == text;
    } else {
      var c, rest := piece[0], piece[1..];
      LiteralsMatch(rest, expr, text);
      assert piece + expr == [c] + (rest + expr) && piece + text == [c] + (rest + text);
    }
  }

  lemma StarMatches(fill: string, expr: string, text: string)
    requires Glob.Matches(expr, text)
    ensures Glob.Matches("*" + expr, fill + text)
  {
    var pat, whole := "*" + expr, fill + text;
    assert pat[1..] == expr && whole[|fill|..] == text;
  }

  lemma {:induction false} FilledIsMatched(pieces: seq<string>, fills: seq<string>)
    requires |pieces| == |fills| + 1 && forall i :: 0 <= i < |pieces| ==> '*' !in pieces[i]
    ensures Glob.Matches(Woven(pieces, Stars(|fills|)), Woven(pieces, fills))
    decreases |fills|
  {
    if fills == [] {
      LiteralsMatch(pieces[0], "", "");
      assert pieces[0] + "" == pieces[0];
    } else {
      FilledIsMatched(pieces[1..], fills[1..]);
      StarsStep(|fills|);
      var expr, text := Woven(pieces[1..], Stars(|fills| - 1)), Woven(pieces[1..], fills[1..]);
      StarMatches(fills[0], expr, text);
      LiteralsMatch(pieces[0], "*" + expr, fills[0] + text);
      assert pieces[0] + "*" + expr == pieces[0] + ("*" + expr);
      assert pieces[0] + fills[0] + text == pieces[0] + (fills[0] + text);
    }
  }

  /** An expression matches exactly the texts it becomes when its stars are replaced. */
  lemma GlobMeaning(expr: string, text: string)
    ensures Glob.Matches(expr, text) <==> Fills(expr, text)
  {
    if Glob.Matches(expr, text) { MatchedIsFilled(expr, text); }
    if Fills(expr, text) {
      var pieces, fills :| FilledWith(expr, text, pieces, fills);
      FilledIsMatched(pieces, fills);
    }
  }

  /** `name` is something, a dot and `rest`. */
  ghost predicate Behind(name: string, rest: string) {
    exists front: string :: name == front + "." + rest
  }

  ghost predicate FillsBehind(expr: string, name: string) {
    exists rest :: Behind(name, rest) && Fills(expr, rest)
  }

  ghost predicate Means(p: Pattern, name: string) {
    match p
    case Exact(d) => name == d
    case Subtree(d) => name == d || Behind(name, d)
    case Wildcard(expr, subdomains) => Fills(expr, name) || (subdomains && FillsBehind(expr, name))
  }

  lemma BehindExactly(name: string, rest: string)
    ensures EndsWith(name, "." + rest) <==> Behind(name, rest)
  {
    if EndsWith(name, "." + rest) {
      var front := name[..|name| - |rest| - 1];
      assert name == front + ("." + rest);
      assert name == front + "." + rest;
    }
    if Behind(name, rest) {
      var front: string :| name == front + "." + rest;
      assert name == front + ("." + rest);
    }
  }

  lemma SuffixBehind(expr: string, name: string, i: nat)
    requires i < |Suffixes(name)| && Glob.Matches(expr, Suffixes(name)[i])
    ensures FillsBehind(expr, name)
  {
    var rest := Suffixes(name)[i];
    SuffixesExact(name, rest);
    BehindExactly(name, rest);
    GlobMeaning(expr, rest);
  }

  lemma BehindSuffix(expr: string, name: string) returns (i: nat)
    requires FillsBehind(expr, name)
    ensures i < |Suffixes(name)| && Glob.Matches(expr, Suffixes(name)[i])
  {
    var rest :| Behind(name, rest) && Fills(expr, rest);
    BehindExactly(name, rest);
    SuffixesExact(name, rest);
    GlobMeaning(expr, rest);
    i :| 0 <= i < |Suffixes(name)| && Suffixes(name)[i] == rest;
  }

  /** The reference matches a name exactly if the pattern means it. */
  lemma PatternMeaning(p: Pattern, name: string)
    ensures PatternMatches(p, name) <==> Means(p, name)
  {
    match p
    case Exact(_) =>
    case Subtree(d) => BehindExactly(name, d);
    case Wildcard(expr, subdomains) =>
      GlobMeaning(expr, name);
      if PatternMatches(p, name) && !Glob.Matches(expr, name) {
        var i :| 0 <= i < |Suffixes(name)| && Glob.Matches(expr, Suffixes(name)[i]);
        SuffixBehind(expr, name, i);
      }
      if subdomains && FillsBehind(expr, name) {
        var i := BehindSuffix(expr, name);
      }
  }
}
