/** Lines, whitespace and tokens of UTF-8 text, byte by byte. */
module Text {
  import opened Wrappers
  import opened Rules

  /** Length of the whitespace character that starts at the front of `s`, or 0. */
  function WsAt(s: string): (n: nat)
    ensures n <= |s|
  {
    if s == [] then 0
    else
      var a := s[0] as int;
      if 9 <= a <= 13 || a == 32 then 1
      else if a < 0x80 || |s| < 2 then 0
      else
        var b := s[1] as int;
        if a == 0xC2 && (b == 0x85 || b == 0xA0) then 2
        else if |s| < 3 then 0
        else
          var c := s[2] as int;
          if (a == 0xE1 && b == 0x9A && c == 0x80)
             || (a == 0xE2 && b == 0x80 && (0x80 <= c <= 0x8A || c == 0xA8 || c == 0xA9 || c == 0xAF))
             || (a == 0xE2 && b == 0x81 && c == 0x9F)
             || (a == 0xE3 && b == 0x80 && c == 0x80) then 3
          else 0
  }

  /** Which bytes of `s` belong to whitespace characters. */
  function Mask(s: string): (mask: seq<bool>)
    ensures |mask| == |s|
  {
    if s == [] then []
    else if WsAt(s) > 0 then seq(WsAt(s), _ => true) + Mask(s[WsAt(s)..])
    else [false] + Mask(s[1..])
  }

  /** First position from `i` on whose mark is `mark`, or the length. */
  function Next(mask: seq<bool>, i: nat, mark: bool): (k: nat)
    requires i <= |mask|
    ensures i <= k <= |mask|
    ensures k < |mask| ==> mask[k] == mark
    ensures forall j :: i <= j < k ==> mask[j] != mark
    decreases |mask| - i
  {
    if i == |mask| || mask[i] == mark then i else Next(mask, i + 1, mark)
  }

  /** The end of the last unmarked byte before `i`. */
  function LastEnd(mask: seq<bool>, i: nat): (k: nat)
    requires i <= |mask|
    ensures k <= i
    ensures k > 0 ==> !mask[k - 1]
    ensures forall j :: k <= j < i ==> mask[j]
  {
    if i == 0 || !mask[i - 1] then i else LastEnd(mask, i - 1)
  }

  /** `s` without leading and trailing whitespace. */
  function Trim(s: string): string {
    var mask := Mask(s);
    var start, end := Next(mask, 0, false), LastEnd(mask, |s|);
    if end <= start then "" else s[start..end]
  }

  /** Start and end of the maximal unmarked runs from `i` on. */
  function Spans(mask: seq<bool>, i: nat): seq<(nat, nat)>
    requires i <= |mask|
    decreases |mask| - i
  {
    var a := Next(mask, i, false);
    if a == |mask| then []
    else
      var b := Next(mask, a, true);
      [(a, b)] + Spans(mask, b)
  }

  lemma {:induction false} SpansOrdered(mask: seq<bool>, i: nat)
    requires i <= |mask|
    ensures forall j :: 0 <= j < |Spans(mask, i)| ==> i <= Spans(mask, i)[j].0 < Spans(mask, i)[j].1 <= |mask|
    ensures forall j :: 0 < j < |Spans(mask, i)| ==> Spans(mask, i)[0].1 < Spans(mask, i)[j].0
    decreases |mask| - i
  {
    var a := Next(mask, i, false);
    if a < |mask| {
      var b := Next(mask, a, true);
      SpansOrdered(mask, b);
      var rest := Spans(mask, b);
      assert forall j :: 0 < j < |rest| ==> rest[0].1 < rest[j].0;
      assert rest != [] ==> rest[0].0 != b;
    }
  }

  function Slices(s: string, spans: seq<(nat, nat)>): (parts: seq<string>)
    requires forall j :: 0 <= j < |spans| ==> spans[j].0 <= spans[j].1 <= |s|
    ensures |parts| == |spans|
  {
    seq(|spans|, j requires 0 <= j < |spans| => s[spans[j].0..spans[j].1])
  }

  /** The whitespace-separated tokens of `s`. */
  function Tokens(s: string): seq<string> {
    SpansOrdered(Mask(s), 0);
    Slices(s, Spans(Mask(s), 0))
  }

  /** The lines of `text`: a final line break does not start another line. */
  function Lines(text: string): seq<string>
    decreases |text|
  {
    if text == [] then []
    else
      var at := Find(text, '\n');
      if at.None? then [text]
      else
        var end := at.value;
        [if end > 0 && text[end - 1] == '\r' then text[..end - 1] else text[..end]] + Lines(text[end + 1..])
  }

  predicate Contains(s: string, part: string) {
    part <= s || (s != [] && Contains(s[1..], part))
  }

  /** The part of `s` before the first `c`, or all of it. */
  function Before(s: string, c: char): (r: string)
    ensures r <= s
    ensures c !in s ==> r == s
  {
    var at := Find(s, c);
    if at.None? then s else s[..at.value]
  }

  // ---- Where tokens are ----

  predicate PlainByte(c: char) {
    33 <= c as int < 127
  }

  lemma PlainStep(s: string)
    requires s != [] && PlainByte(s[0])
    ensures Mask(s) == [false] + Mask(s[1..])
  {
    assert WsAt(s) == 0;
  }

  /** Printable ASCII bytes at the front are unmarked, and what follows is marked on its own. */
  lemma {:induction false} PlainFrontUnmarked(s: string, n: nat)
    requires n <= |s| && forall i :: 0 <= i < n ==> PlainByte(s[i])
    ensures forall i :: 0 <= i < n ==> !Mask(s)[i]
    ensures Mask(s)[n..] == Mask(s[n..])
  {
    if n == 0 {
      assert s[0..] == s;
    } else {
      var tail := s[1..];
      PlainStep(s);
      forall i | 0 <= i < n - 1 ensures PlainByte(tail[i]) {
        assert tail[i] == s[i + 1];
      }
      PlainFrontUnmarked(tail, n - 1);
      assert tail[n - 1..] == s[n..];
      forall i | 0 < i < n ensures !Mask(s)[i] {
        assert Mask(s)[i] == Mask(tail)[i - 1];
      }
    }
  }

  /** Each token after the first starts past the end of the first and a separating byte. */
  lemma TokenPlace(s: string, j: nat) returns (at: nat)
    requires j < |Tokens(s)|
    ensures at + |Tokens(s)[j]| <= |s| && s[at..at + |Tokens(s)[j]|] == Tokens(s)[j]
    ensures at == Spans(Mask(s), 0)[j].0
    ensures j > 0 ==> at > Spans(Mask(s), 0)[0].1
  {
    SpansOrdered(Mask(s), 0);
    at := Spans(Mask(s), 0)[j].0;
  }
}
