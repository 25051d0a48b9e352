/** How text is laid out: what its lines, its trimmed text and its tokens are, said of the text put together again. */
module Layout {
  import opened Wrappers
  import opened Rules
  import opened Text

  // ---- Lines ----

  /** Each line followed by its end. */
  function Ended(lines: seq<string>, ends: seq<string>): string
    requires |lines| == |ends|
  {
    if lines == [] then "" else lines[0] + ends[0] + Ended(lines[1..], ends[1..])
  }

  predicate LineEnd(line: string, end: string) {
    && '\n' !in line
    && (end == "\r\n" || (end == "\n" && (line == "" || line[|line| - 1] != '\r')))
  }

  lemma {:induction false} FoundAt(front: string, c: char, rest: string)
    requires c !in front
    ensures Find(front + [c] + rest, c) == Some(|front|)
  {
    var s := front + [c] + rest;
    if front != [] {
      FoundAt(front[1..], c, rest);
      assert s[1..] == front[1..] + [c] + rest;
    }
  }

  /** A line with its end in front of a text is the first of its lines. */
  lemma FirstLine(line: string, end: string, rest: string)
    requires LineEnd(line, end)
    ensures Lines(line + end + rest) == [line] + Lines(rest)
  {
    var text, front := line + end + rest, line + end[..|end| - 1];
    assert end[..|end| - 1] + "\n" == end;
    assert text == front + "\n" + rest;
    FoundAt(front, '\n', rest);
    assert text[..|front|] == front && text[|front| + 1..] == rest;
    if end == "\r\n" { assert front == line + "\r" && text[..|front| - 1] == line; } else { assert front == line; }
  }

  lemma EndedFirst(lines: seq<string>, ends: seq<string>, last: string)
    requires |lines| == |ends| && lines != []
    ensures Ended(lines, ends) + last == lines[0] + ends[0] + (Ended(lines[1..], ends[1..]) + last)
  {
  }

  lemma FrontPutBack(lines: seq<string>, rest: seq<string>)
    requires lines != []
    ensures [lines[0]] + (lines[1..] + rest) == lines + rest
  {
  }

  /** The lines of a text are those it was put together from, whichever way they end; a last one may have no end. */
  lemma {:induction false} LinesExactly(lines: seq<string>, ends: seq<string>, last: string)
    requires |lines| == |ends| && (forall i :: 0 <= i < |lines| ==> LineEnd(lines[i], ends[i])) && '\n' !in last
    ensures Lines(Ended(lines, ends) + last) == lines + if last == "" then [] else [last]
  {
    if lines == [] {
      assert "" + last == last;
      assert last != "" ==> Find(last, '\n') == None;
    } else {
      LinesExactly(lines[1..], ends[1..], last);
      FirstLine(lines[0], ends[0], Ended(lines[1..], ends[1..]) + last);
      EndedFirst(lines, ends, last);
      FrontPutBack(lines, if last == "" then [] else [last]);
    }
  }

  // ---- Whitespace ----

  predicate Ascii(c: char) {
    c as int < 128
  }

  /** Tab, line feed, vertical tab, form feed, carriage return or space. */
  predicate Space(c: char) {
    9 <= c as int <= 13 || c as int == 32
  }

  predicate Spaces(s: string) {
    forall i :: 0 <= i < |s| ==> Space(s[i])
  }

  predicate Word(s: string) {
    s != "" && forall i :: 0 <= i < |s| ==> Ascii(s[i]) && !Space(s[i])
  }

  /** Among ASCII bytes exactly the six spaces are whitespace. */
  lemma {:induction false} AsciiMask(s: string, i: nat)
    requires i < |s| && Ascii(s[i])
    ensures Mask(s)[i] <==> Space(s[i])
  {
    var n := WsAt(s);
    if n > 0 {
      if i >= n {
        AsciiMask(s[n..], i - n);
        assert Mask(s)[i] == Mask(s[n..])[i - n];
      }
    } else if i > 0 {
      AsciiMask(s[1..], i - 1);
      assert Mask(s)[i] == Mask(s[1..])[i - 1];
    }
  }

  lemma {:induction false} NextIs(mask: seq<bool>, i: nat, mark: bool, k: nat)
    requires i <= k <= |mask| && (forall j :: i <= j < k ==> mask[j] != mark) && (k < |mask| ==> mask[k] == mark)
    ensures Next(mask, i, mark) == k
  {
  }

  lemma LastEndIs(mask: seq<bool>, i: nat, k: nat)
    requires k <= i <= |mask| && (forall j :: k <= j < i ==> mask[j]) && (k > 0 ==> !mask[k - 1])
    ensures LastEnd(mask, i) == k
  {
  }

  /** Trimming takes off the spaces around a text and nothing of the text. */
  lemma TrimExactly(before: string, s: string, after: string)
    requires Spaces(before) && Spaces(after)
    requires s != "" && Ascii(s[0]) && !Space(s[0]) && Ascii(s[|s| - 1]) && !Space(s[|s| - 1])
    ensures Trim(before + s + after) == s
  {
    var t := before + s + after;
    var a, b := |before|, |before| + |s|;
    forall j | 0 <= j < a ensures Mask(t)[j] {
      assert t[j] == before[j];
      AsciiMask(t, j);
    }
    forall j | b <= j < |t| ensures Mask(t)[j] {
      assert t[j] == after[j - b];
      AsciiMask(t, j);
    }
    assert t[a] == s[0] && t[b - 1] == s[|s| - 1];
    AsciiMask(t, a);
    AsciiMask(t, b - 1);
    NextIs(Mask(t), 0, false, a);
    LastEndIs(Mask(t), |t|, b);
    assert t[a..b] == s;
  }

  lemma TrimBlank(s: string)
    requires Spaces(s)
    ensures Trim(s) == ""
  {
    forall j | 0 <= j < |s| ensures Mask(s)[j] {
      AsciiMask(s, j);
    }
    NextIs(Mask(s), 0, false, |s|);
  }

  // ---- Tokens ----

  /** A gap before each word and one after the last. */
  function Laid(words: seq<string>, gaps: seq<string>): string
    requires |gaps| == |words| + 1
  {
    if words == [] then gaps[0] else gaps[0] + words[0] + Laid(words[1..], gaps[1..])
  }

  /** Gaps are spaces, and those between words are not empty. */
  predicate LaidOut(words: seq<string>, gaps: seq<string>) {
    && |gaps| == |words| + 1
    && (forall i :: 0 <= i < |words| ==> Word(words[i]))
    && (forall i :: 0 <= i < |gaps| ==> Spaces(gaps[i]))
    && (forall i :: 0 < i < |words| ==> gaps[i] != "")
  }

  /** The words found from `i` on. */
  function WordsFrom(s: string, i: nat): seq<string>
    requires i <= |s|
  {
    SpansOrdered(Mask(s), i);
    Slices(s, Spans(Mask(s), i))
  }

  lemma MarkedRun(s: string, i: nat, part: string, rest: string)
    requires i <= |s| && s[i..] == part + rest && (Spaces(part) || Word(part))
    ensures forall j :: i <= j < i + |part| ==> Mask(s)[j] == Spaces(part)
    ensures i + |part| <= |s| && s[i..i + |part|] == part && s[i + |part|..] == rest
  {
    assert |s| == i + |part| + |rest|;
    forall j | i <= j < i + |part| ensures s[j] == part[j - i] && Mask(s)[j] == Spaces(part) {
      assert s[i..][j - i] == part[j - i];
      AsciiMask(s, j);
    }
  }

  lemma SpansStep(mask: seq<bool>, i: nat, a: nat, b: nat)
    requires i <= a < b <= |mask|
    requires (forall j :: i <= j < a ==> mask[j]) && (forall j :: a <= j < b ==> !mask[j])
    requires b < |mask| ==> mask[b]
    ensures Spans(mask, i) == [(a, b)] + Spans(mask, b)
  {
    NextIs(mask, i, false, a);
    NextIs(mask, a, true, b);
  }

  predicate InRange(spans: seq<(nat, nat)>, n: nat) {
    forall j :: 0 <= j < |spans| ==> spans[j].0 <= spans[j].1 <= n
  }

  lemma SlicesStep(s: string, a: nat, b: nat, rest: seq<(nat, nat)>)
    requires a <= b <= |s| && InRange(rest, |s|)
    ensures InRange([(a, b)] + rest, |s|) && Slices(s, [(a, b)] + rest) == [s[a..b]] + Slices(s, rest)
  {
  }

  /** A run of unmarked bytes is the first word from anywhere in the marked run before it. */
  lemma NextSpan(s: string, i: nat, a: nat, b: nat)
    requires i <= a < b <= |s|
    requires (forall j :: i <= j < a ==> Mask(s)[j]) && (forall j :: a <= j < b ==> !Mask(s)[j])
    requires b < |s| ==> Mask(s)[b]
    ensures WordsFrom(s, i) == [s[a..b]] + WordsFrom(s, b)
  {
    SpansStep(Mask(s), i, a, b);
    SpansOrdered(Mask(s), b);
    SlicesStep(s, a, b, Spans(Mask(s), b));
  }

  lemma NoSpacesInWord(word: string)
    requires Word(word)
    ensures !Spaces(word)
  {
    assert !Space(word[0]);
  }

  lemma Regrouped(gap: string, word: string, rest: string)
    ensures gap + word + rest == gap + (word + rest)
  {
  }

  /** Where the spaces and the word of a text lie. */
  lemma WordPlaces(s: string, i: nat, a: nat, b: nat, gap: string, word: string, rest: string)
    requires i <= |s| && s[i..] == gap + word + rest && Spaces(gap) && Word(word)
    requires a == i + |gap| && b == a + |word|
    ensures b <= |s| && s[a..b] == word && s[b..] == rest
    ensures forall j :: i <= j < a ==> Mask(s)[j]
    ensures forall j :: a <= j < b ==> !Mask(s)[j]
  {
    Regrouped(gap, word, rest);
    NoSpacesInWord(word);
    MarkedRun(s, i, gap, word + rest);
    MarkedRun(s, a, word, rest);
  }

  lemma NextWord(s: string, i: nat, gap: string, word: string, rest: string)
    requires i <= |s| && s[i..] == gap + word + rest && Spaces(gap) && Word(word)
    requires rest == "" || Space(rest[0])
    ensures var a := i + |gap|; var b := a + |word|;
            b <= |s| && s[b..] == rest && WordsFrom(s, i) == [word] + WordsFrom(s, b)
  {
    var b := i + |gap| + |word|;
    WordPlaces(s, i, i + |gap|, b, gap, word, rest);
    if b < |s| {
      assert s[b] == s[b..][0];
      AsciiMask(s, b);
    }
    NextSpan(s, i, i + |gap|, b);
  }

  lemma LaidFront(words: seq<string>, gaps: seq<string>)
    requires LaidOut(words, gaps) && (words != [] ==> gaps[0] != "")
    ensures Laid(words, gaps) == "" || Space(Laid(words, gaps)[0])
  {
  }

  lemma LaidTail(words: seq<string>, gaps: seq<string>)
    requires LaidOut(words, gaps) && words != []
    ensures LaidOut(words[1..], gaps[1..]) && Word(words[0]) && Spaces(gaps[0])
    ensures Laid(words, gaps) == gaps[0] + words[0] + Laid(words[1..], gaps[1..])
    ensures Laid(words[1..], gaps[1..]) == "" || Space(Laid(words[1..], gaps[1..])[0])
  {
    LaidFront(words[1..], gaps[1..]);
  }

  lemma {:induction false} WordsFound(s: string, i: nat, words: seq<string>, gaps: seq<string>)
    requires i <= |s| && LaidOut(words, gaps) && s[i..] == Laid(words, gaps)
    ensures WordsFrom(s, i) == words
    decreases |words|
  {
    if words == [] {
      assert s[i..] == gaps[0] + "";
      MarkedRun(s, i, gaps[0], "");
      NextIs(Mask(s), i, false, |s|);
    } else {
      LaidTail(words, gaps);
      NextWord(s, i, gaps[0], words[0], Laid(words[1..], gaps[1..]));
      WordsFound(s, i + |gaps[0]| + |words[0]|, words[1..], gaps[1..]);
    }
  }

  /** The tokens of a text are the words it was laid out from. */
  lemma TokensExactly(words: seq<string>, gaps: seq<string>)
    requires LaidOut(words, gaps)
    ensures Tokens(Laid(words, gaps)) == words
  {
    var s := Laid(words, gaps);
    assert s[0..] == s;
    WordsFound(s, 0, words, gaps);
  }

  lemma {:induction false} LastGap(words: seq<string>, gaps: seq<string>)
    requires |gaps| == |words| + 1
    ensures Laid(words, gaps) == Laid(words, gaps[|words| := ""]) + gaps[|words|]
  {
    var open := gaps[|words| := ""];
    if words != [] {
      LastGap(words[1..], gaps[1..]);
      assert open[1..] == gaps[1..][|words| - 1 := ""];
    }
  }

  lemma {:induction false} LaidEnds(words: seq<string>, gaps: seq<string>)
    requires LaidOut(words, gaps) && words != [] && gaps[|words|] == ""
    ensures var s := Laid(words, gaps); var last := words[|words| - 1];
            s != "" && s[|s| - 1] == last[|last| - 1]
  {
    if |words| > 1 { LaidEnds(words[1..], gaps[1..]); }
  }

  /** The words with no gap before the first and after the last. */
  lemma Snug(words: seq<string>, gaps: seq<string>) returns (snug: seq<string>)
    requires LaidOut(words, gaps) && words != []
    ensures LaidOut(words, snug) && snug[0] == "" && snug[|words|] == ""
    ensures Laid(words, gaps) == gaps[0] + Laid(words, snug) + gaps[|words|]
  {
    var open := gaps[|words| := ""];
    snug := open[0 := ""];
    LastGap(words, gaps);
    assert open[1..] == snug[1..];
    assert Laid(words, snug) == "" + words[0] + Laid(words[1..], open[1..]);
    assert Laid(words, open) == gaps[0] + Laid(words, snug);
  }

  lemma SnugEnds(words: seq<string>, snug: seq<string>)
    requires LaidOut(words, snug) && words != [] && snug[0] == "" && snug[|words|] == ""
    ensures var s := Laid(words, snug);
            s != "" && Ascii(s[0]) && !Space(s[0]) && Ascii(s[|s| - 1]) && !Space(s[|s| - 1])
  {
    LaidEnds(words, snug);
    var s, last := Laid(words, snug), words[|words| - 1];
    assert s[0] == words[0][0] && Word(words[0]) && Word(last);
  }

  /** Trimming first changes nothing. */
  lemma TrimmedTokens(words: seq<string>, gaps: seq<string>)
    requires LaidOut(words, gaps)
    ensures Tokens(Trim(Laid(words, gaps))) == words
  {
    if words == [] {
      TrimBlank(gaps[0]);
      TokensExactly([], [""]);
    } else {
      var snug := Snug(words, gaps);
      SnugEnds(words, snug);
      TrimExactly(gaps[0], Laid(words, snug), gaps[|words|]);
      TokensExactly(words, snug);
    }
  }
}
