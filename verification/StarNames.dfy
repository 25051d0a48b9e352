/**
 Which texts with a star the two-pointer matcher reads right, for expressions that hold
 a letter or digit, as every expression of a list does.
 */
module StarNames {
  import opened Wrappers
  import opened Glob

  predicate Alnum(c: char) {
    'a' <= c <= 'z' || '0' <= c <= '9'
  }

  predicate HasAlnum(s: string) {
    exists i :: 0 <= i < |s| && Alnum(s[i])
  }

  /**
   The only inner star is at `k`, no letter or digit stands before it, and behind it either
   none but the first byte is one, or one byte is repeated up to a final star.
   */
  predicate LoneStar(text: string, k: nat) {
    && k < |text| - 1 && text[k] == '*'
    && (forall i :: 0 <= i < k ==> text[i] != '*' && !Alnum(text[i]))
    && ClearFrom(text, k + 1)
    && (OneAlnumBehind(text, k) || OneByteBehind(text, k))
  }

  predicate OneAlnumBehind(text: string, k: nat) {
    forall i :: k + 1 < i < |text| ==> !Alnum(text[i])
  }

  predicate OneByteBehind(text: string, k: nat)
    requires k < |text| - 1
  {
    text[|text| - 1] == '*' && forall i :: k < i < |text| - 1 ==> text[i] == text[k + 1]
  }

  /** Texts on which every expression with a letter or digit is matched as the reference says. */
  predicate StarsReadable(text: string) {
    NoInnerStar(text) || !HasAlnum(text) || exists k: nat :: k < |text| && LoneStar(text, k)
  }

  // ---- Readable texts are read right ----

  lemma {:induction false} AlnumOccurs(pat: string, text: string)
    requires Matches(pat, text) && HasAlnum(pat)
    ensures HasAlnum(text)
  {
    var i :| 0 <= i < |pat| && Alnum(pat[i]);
    if pat[0] == '*' {
      var skip :| 0 <= skip <= |text| && Matches(pat[1..], text[skip..]);
      assert Alnum(pat[1..][i - 1]);
      AlnumOccurs(pat[1..], text[skip..]);
      var j :| 0 <= j < |text[skip..]| && Alnum(text[skip..][j]);
      assert Alnum(text[skip + j]);
    } else if i == 0 {
      assert Alnum(text[0]);
    } else {
      assert Alnum(pat[1..][i - 1]);
      AlnumOccurs(pat[1..], text[1..]);
      var j :| 0 <= j < |text[1..]| && Alnum(text[1..][j]);
      assert Alnum(text[1 + j]);
    }
  }

  function LiftStar(a: nat, b: nat, inner: Option<Star>, outer: Option<Star>): Option<Star> {
    if inner.Some? then Some(Star(a + inner.value.pos, b + inner.value.at)) else outer
  }

  /** What the matcher finds from scratch on tails it finds there too, whatever star it remembers. */
  lemma {:induction false} FreshRun(pat: string, text: string, a: nat, b: nat, p: nat, t: nat,
                                    inner: Option<Star>, outer: Option<Star>)
    requires a <= |pat| && b <= |text| && Reached(pat[a..], text[b..], p, t, inner)
    requires Reached(pat, text, a, b, outer) && RunFrom(pat[a..], text[b..], p, t, inner)
    ensures Reached(pat, text, a + p, b + t, LiftStar(a, b, inner, outer))
    ensures RunFrom(pat, text, a + p, b + t, LiftStar(a, b, inner, outer))
    decreases if inner.Some? then |pat[a..]| - inner.value.pos else |pat[a..]| + 1,
              if inner.Some? then |text[b..]| - inner.value.at else 0,
              |pat[a..]| - p
  {
    var q, u := pat[a..], text[b..];
    if t == |u| {
      assert q[p..] == pat[a + p..];
    } else if p < |q| && q[p] == u[t] {
      FreshRun(pat, text, a, b, p + 1, t + 1, inner, outer);
    } else if p < |q| && q[p] == '*' {
      FreshRun(pat, text, a, b, p + 1, t, Some(Star(p, t)), outer);
    } else {
      var s := inner.value;
      FreshRun(pat, text, a, b, s.pos + 1, s.at + 1, Some(Star(s.pos, s.at + 1)), outer);
    }
  }

  /** A pattern star that could stand for a text star can as well start behind it. */
  lemma {:induction false} SkipStarByte(pat: string, text: string, k: nat)
    requires k < |text| && text[k] == '*' && pat != [] && pat[0] == '*' && Matches(pat, text[k..])
    ensures Matches(pat, text[k + 1..])
  {
    var rest := text[k..];
    var skip :| 0 <= skip <= |rest| && Matches(pat[1..], rest[skip..]);
    if skip > 0 {
      assert rest[skip..] == text[k + 1..][skip - 1..];
    } else {
      assert rest[0..] == rest && rest[0] == '*';
      SkipStarByte(pat[1..], text, k);
      assert text[k + 1..][0..] == text[k + 1..];
    }
  }

  /** In one byte repeated up to a final star, a match can start earlier. */
  lemma {:induction false} ConstantSlides(pat: string, text: string, a: nat, j: nat)
    requires a <= j < |text| && text[|text| - 1] == '*' && Matches(pat, text[j..])
    requires forall i :: a <= i < |text| - 1 ==> text[i] == text[a]
    ensures Matches(pat, text[a..])
  {
    var early, late := text[a..], text[j..];
    assert late[0] == text[j] && early[0] == text[a] && early[j - a..] == late;
    if pat[0] == '*' {
      StarAbsorbs(pat, early, j - a);
    } else {
      assert late[1..] == text[j + 1..] && early[1..] == text[a + 1..];
      ConstantSlides(pat[1..], text, a + 1, j + 1);
    }
  }

  /** Behind a lone star, what matches anywhere with a literal in front matches right behind it. */
  lemma LiteralSlides(pat: string, text: string, k: nat, j: nat)
    requires LoneStar(text, k) && k < j <= |text|
    requires pat != [] && pat[0] != '*' && HasAlnum(pat) && Matches(pat, text[j..])
    ensures Matches(pat, text[k + 1..])
  {
    if OneAlnumBehind(text, k) {
      AlnumOccurs(pat, text[j..]);
      var i :| 0 <= i < |text[j..]| && Alnum(text[j..][i]);
      assert text[j..][i] == text[j + i];
    } else {
      ConstantSlides(pat, text, k + 1, j);
    }
  }

  /** The pattern star that a lone text star is taken for: what follows still matches behind it. */
  lemma EatenStar(pat: string, text: string, p: nat, k: nat)
    requires LoneStar(text, k) && p < |pat| && pat[p] == '*' && HasAlnum(pat[p + 1..])
    requires Matches(pat[p..], text[k..])
    ensures Matches(pat[p + 1..], text[k + 1..])
  {
    var q, u, rest := pat[p..], text[k..], pat[p + 1..];
    var skip :| 0 <= skip <= |u| && Matches(q[1..], u[skip..]);
    assert q[1..] == rest && u[skip..] == text[k + skip..] && u[0..] == u && u[0] == '*';
    if rest[0] == '*' {
      if skip > 0 {
        assert text[k + skip..] == text[k + 1..][skip - 1..];
        StarAbsorbs(rest, text[k + 1..], skip - 1);
      } else {
        SkipStarByte(rest, text, k);
      }
    } else {
      LiteralSlides(rest, text, k, k + skip);
    }
  }

  /** No letter or digit of the pattern has been passed yet. */
  ghost predicate NoneBefore(pat: string, p: nat)
    requires p <= |pat|
  {
    forall i :: 0 <= i < p ==> !Alnum(pat[i])
  }

  lemma AlnumAhead(pat: string, p: nat)
    requires HasAlnum(pat) && p <= |pat| && NoneBefore(pat, p)
    ensures HasAlnum(pat[p..])
  {
    var i :| 0 <= i < |pat| && Alnum(pat[i]);
    assert Alnum(pat[p..][i - p]);
  }

  /** At the lone star, a star of the pattern is consumed with it and the rest is found behind. */
  lemma CompleteAtLoneStar(pat: string, text: string, p: nat, k: nat, star: Option<Star>)
    requires LoneStar(text, k) && Reached(pat, text, p, k, star) && Aligned(pat, text, p, k, star)
    requires Possible(pat, text, p, k, star) && p < |pat| && pat[p] == '*'
    requires HasAlnum(pat) && NoneBefore(pat, p)
    ensures RunFrom(pat, text, p, k, star)
  {
    if !Matches(pat[p..], text[k..]) { LaterStarSuffices(pat, text, p, k, star.value); }
    AlnumAhead(pat, p + 1);
    EatenStar(pat, text, p, k);
    var rest, behind := pat[p + 1..], text[k + 1..];
    forall i | 0 <= i < |behind| - 1 ensures behind[i] != '*' {
      assert behind[i] == text[k + 1 + i];
    }
    Completeness(rest, behind);
    FreshRun(pat, text, p + 1, k + 1, 0, 0, None, star);
  }

  lemma {:induction false} CompleteNear(pat: string, text: string, p: nat, t: nat, star: Option<Star>, k: nat)
    requires LoneStar(text, k) && t <= k && HasAlnum(pat)
    requires Reached(pat, text, p, t, star) && Aligned(pat, text, p, t, star)
    requires Possible(pat, text, p, t, star) && NoneBefore(pat, p)
    ensures RunFrom(pat, text, p, t, star)
    decreases if star.Some? then |pat| - star.value.pos else |pat| + 1,
              if star.Some? then |text| - star.value.at else 0,
              |pat| - p
  {
    if p < |pat| && pat[p] == text[t] {
      if pat[p] == '*' {
        CompleteAtLoneStar(pat, text, p, k, star);
      } else {
        PossibleAfterLiteral(pat, text, p, t, star);
        CompleteNear(pat, text, p + 1, t + 1, star, k);
      }
    } else if p < |pat| && pat[p] == '*' {
      NewStar(pat, text, p, t, star);
      CompleteNear(pat, text, p + 1, t, Some(Star(p, t)), k);
    } else {
      var s := star.value;
      StarMovesOn(pat, text, p, t, s);
      var moved := Some(Star(s.pos, s.at + 1));
      if s.at + 1 <= k {
        CompleteNear(pat, text, s.pos + 1, s.at + 1, moved, k);
      } else {
        CompleteFrom(pat, text, s.pos + 1, s.at + 1, moved);
      }
    }
  }

  /** On readable texts the matcher is the reference, for every expression with a letter or digit. */
  lemma ReadableIsReadRight(pat: string, text: string)
    requires StarsReadable(text) && HasAlnum(pat)
    ensures Run(pat, text) == Matches(pat, text)
  {
    Soundness(pat, text);
    if NoInnerStar(text) {
      Completeness(pat, text);
    } else if Matches(pat, text) {
      AlnumOccurs(pat, text);
      var k: nat :| k < |text| && LoneStar(text, k);
      assert pat[0..] == pat && text[0..] == text;
      CompleteNear(pat, text, 0, 0, None, k);
    }
  }

  /** Cutting a readable text at the front leaves a readable text. */
  lemma ReadableTail(text: string, b: nat)
    requires StarsReadable(text) && b <= |text|
    ensures StarsReadable(text[b..])
  {
    var tail := text[b..];
    assert forall i :: 0 <= i < |tail| ==> tail[i] == text[b + i];
    if !NoInnerStar(text) && HasAlnum(tail) {
      var i :| 0 <= i < |tail| && Alnum(tail[i]);
      assert Alnum(text[b + i]);
      var k: nat :| k < |text| && LoneStar(text, k);
      if b <= k {
        assert LoneStar(tail, k - b);
      }
    }
  }

  // ---- All others are misread ----

  ghost predicate Misread(pat: string, text: string) {
    Matches(pat, text) && !Run(pat, text)
  }

  /** The text up to a star, then `rest`: the star stands for whatever lies before a match of `rest`. */
  lemma {:induction false} PrefixThen(text: string, k: nat, rest: string, j: nat)
    requires k <= j <= |text| && k < |text| && text[k] == '*' && Matches(rest, text[j..])
    ensures Matches(text[..k + 1] + rest, text)
  {
    var pat := text[..k + 1] + rest;
    if k == 0 {
      assert pat[1..] == rest;
    } else {
      var tail := text[1..];
      assert tail[j - 1..] == text[j..];
      PrefixThen(tail, k - 1, rest, j - 1);
      assert pat[1..] == tail[..k] + rest;
    }
  }

  /** A pattern that repeats the text is consumed byte for byte, stars included. */
  lemma {:induction false} RunsThrough(text: string, m: nat, rest: string, i: nat)
    requires i <= m <= |text|
    ensures RunFrom(text[..m] + rest, text, i, i, None) == RunFrom(text[..m] + rest, text, m, m, None)
    decreases m - i
  {
    if i < m { RunsThrough(text, m, rest, i + 1); }
  }

  /** Stars eaten byte for byte are not remembered: the first mismatch behind them is final. */
  lemma Stuck(text: string, m: nat, rest: string, n: nat)
    requires m + n < |text| && n <= |rest| && rest[..n] == text[m..m + n]
    requires n == |rest| || (rest[n] != '*' && rest[n] != text[m + n])
    ensures !Run(text[..m] + rest, text)
  {
    var pat := text[..m] + rest;
    assert pat == text[..m + n] + rest[n..] by {
      assert rest == rest[..n] + rest[n..];
      assert text[..m + n] == text[..m] + text[m..m + n];
    }
    RunsThrough(text, m + n, rest[n..], 0);
  }

  /** A star unless the text ends right behind `i`. */
  function Onward(text: string, i: nat): string {
    if i + 1 == |text| then "" else "*"
  }

  lemma OnwardMatches(text: string, i: nat)
    requires i < |text| && text[i] != '*'
    ensures Matches([text[i]] + Onward(text, i), text[i..])
  {
    var pat, u := [text[i]] + Onward(text, i), text[i..];
    assert pat[1..] == Onward(text, i) && u[1..] == text[i + 1..];
    if i + 1 < |text| {
      var star := pat[1..];
      assert star[1..] == [] && u[1..][|u| - 1..] == [];
    }
  }

  lemma LiteralStarMatches(text: string, i: nat, rest: string, j: nat)
    requires i < j <= |text| && i < |text| && text[i] != '*' && Matches(rest, text[j..])
    ensures Matches([text[i]] + "*" + rest, text[i..])
  {
    var pat, u := [text[i]] + "*" + rest, text[i..];
    var after := pat[1..];
    assert after == "*" + rest && after[1..] == rest && u[1..] == text[i + 1..];
    assert u[1..][j - i - 1..] == text[j..];
  }

  /** What follows the repeated part of a witness: no dot, or one with a star in what follows it. */
  predicate DotOnce(rest: string) {
    forall i :: 0 <= i < |rest| && rest[i] == '.' ==>
      '*' in rest[i + 1..] && forall j :: 0 <= j < |rest| && rest[j] == '.' ==> j == i
  }

  /** A witness against `text`: its first bytes up to a star, then a short rest made of its bytes and stars. */
  ghost predicate Witness(text: string, k: nat, rest: string) {
    && k < |text| && text[k] == '*' && k + 1 + |rest| <= |text|
    && (forall c :: c in rest ==> c in text)
    && DotOnce(rest)
    && HasAlnum(text[..k + 1] + rest)
    && Misread(text[..k + 1] + rest, text)
  }

  lemma AlnumIn(front: string, rest: string, i: nat)
    requires i < |front| + |rest| && Alnum((front + rest)[i])
    ensures HasAlnum(front + rest)
  {
  }

  /** A letter or digit before an inner star: the text up to that star. */
  lemma WitnessBefore(text: string, i: nat, k: nat)
    requires i < k < |text| - 1 && Alnum(text[i]) && text[k] == '*'
    ensures Witness(text, k, "")
  {
    assert text[k..][0] == '*' && text[|text|..] == [];
    PrefixThen(text, k, "", |text|);
    Stuck(text, k + 1, "", 0);
    AlnumIn(text[..k + 1], "", i);
  }

  /** A letter or digit further on that differs from the byte behind the star. */
  lemma WitnessApart(text: string, k: nat, i: nat)
    requires k + 1 < i < |text| && text[k] == '*' && Alnum(text[i]) && text[i] != text[k + 1]
    ensures Witness(text, k, [text[i]] + Onward(text, i))
  {
    var rest := [text[i]] + Onward(text, i);
    OnwardMatches(text, i);
    PrefixThen(text, k, rest, i);
    Stuck(text, k + 1, rest, 0);
    AlnumIn(text[..k + 1], rest, k + 1);
    StarsAndBytes(text, k, rest);
  }

  lemma StarsAndBytes(text: string, k: nat, rest: string)
    requires k < |text| && text[k] == '*'
    requires forall i :: 0 <= i < |rest| ==> rest[i] == '*' || rest[i] in text
    ensures forall c :: c in rest ==> c in text
  {
    assert text[k] in text;
  }

  /** Another byte between the one behind the star and its repetition. */
  lemma WitnessBetween(text: string, k: nat, d: nat, i: nat)
    requires k + 1 < d < i < |text| && text[k] == '*' && Alnum(text[i]) && text[d] != '*' && text[d] != text[k + 1]
    ensures Witness(text, k, [text[d]] + "*" + ([text[i]] + Onward(text, i)))
  {
    var last := [text[i]] + Onward(text, i);
    var rest := [text[d]] + "*" + last;
    OnwardMatches(text, i);
    LiteralStarMatches(text, d, last, i);
    PrefixThen(text, k, rest, d);
    Stuck(text, k + 1, rest, 0);
    assert (text[..k + 1] + rest)[k + 3] == text[i];
    AlnumIn(text[..k + 1], rest, k + 3);
    StarsAndBytes(text, k, rest);
    assert rest[1] == '*' && '*' in rest[1..];
  }

  /** The byte behind the star repeated to the end. */
  lemma WitnessEnd(text: string, k: nat)
    requires k + 2 < |text| && text[k] == '*' && Alnum(text[k + 1]) && text[|text| - 1] == text[k + 1]
    ensures Witness(text, k, [text[k + 1]])
  {
    var rest := [text[k + 1]];
    OnwardMatches(text, |text| - 1);
    assert [text[|text| - 1]] + Onward(text, |text| - 1) == rest;
    PrefixThen(text, k, rest, |text| - 1);
    assert rest[..1] == text[k + 1..k + 2];
    Stuck(text, k + 1, rest, 1);
    AlnumIn(text[..k + 1], rest, k + 1);
    StarsAndBytes(text, k, rest);
  }

  /** The byte behind the star repeated up to another one. */
  lemma WitnessTurn(text: string, k: nat, i: nat)
    requires k + 1 < i < |text| - 1 && text[k] == '*' && Alnum(text[k + 1])
    requires text[k + 2] == text[i] == text[k + 1] && text[i + 1] != '*' && text[i + 1] != text[i]
    ensures Witness(text, k, [text[i], text[i + 1]] + "*")
  {
    var rest := [text[i], text[i + 1]] + "*";
    TurnMatches(text, i);
    PrefixThen(text, k, rest, i);
    assert rest[..1] == text[k + 1..k + 2];
    Stuck(text, k + 1, rest, 1);
    AlnumIn(text[..k + 1], rest, k + 1);
    StarsAndBytes(text, k, rest);
    assert rest[2] == '*' && '*' in rest[2..];
  }

  lemma TurnMatches(text: string, i: nat)
    requires i + 1 < |text| && text[i] != '*' && text[i + 1] != '*'
    ensures Matches([text[i], text[i + 1]] + "*", text[i..])
  {
    var pat, u := [text[i], text[i + 1]] + "*", text[i..];
    var pat1, pat2 := pat[1..], "*";
    assert pat1 == [text[i + 1]] + "*" && pat1[1..] == pat2 && pat2[1..] == [];
    assert u[1..] == text[i + 1..] && u[1..][1..] == text[i + 2..];
    assert text[i + 2..][|text| - i - 2..] == [];
  }

  /** The last letter or digit at or after `from`, if there is one. */
  function LastAlnum(text: string, from: nat): (at: Option<nat>)
    requires from <= |text|
    ensures at.Some? ==> from <= at.value < |text| && Alnum(text[at.value])
    ensures at.Some? ==> forall i :: at.value < i < |text| ==> !Alnum(text[i])
    ensures at.None? ==> forall i :: from <= i < |text| ==> !Alnum(text[i])
    decreases |text|
  {
    if |text| == from then None
    else if Alnum(text[|text| - 1]) then Some(|text| - 1)
    else
      var at := LastAlnum(text[..|text| - 1], from);
      assert forall i :: 0 <= i < |text| - 1 ==> text[..|text| - 1][i] == text[i];
      at
  }

  lemma FirstStar(text: string) returns (k: nat)
    requires !NoInnerStar(text)
    ensures k < |text| - 1 && text[k] == '*' && forall i :: 0 <= i < k ==> text[i] != '*'
  {
    k := 0;
    while text[k] != '*'
      invariant k < |text| - 1 && forall i :: 0 <= i < k ==> text[i] != '*'
      decreases |text| - k
    {
      k := k + 1;
    }
  }

  /** Every text that is not readable is misread by some short expression with a letter or digit. */
  lemma UnreadableIsMisread(text: string) returns (k: nat, rest: string)
    requires !StarsReadable(text)
    ensures Witness(text, k, rest)
  {
    if i: nat, s: nat :| i < s < |text| - 1 && Alnum(text[i]) && text[s] == '*' {
      k, rest := s, "";
      WitnessBefore(text, i, k);
    } else {
      k := FirstStar(text);
      if i: nat :| k + 1 < i < |text| && Alnum(text[i]) && text[i] != text[k + 1] {
        rest := [text[i]] + Onward(text, i);
        WitnessApart(text, k, i);
      } else {
        rest := WitnessOfOneByte(text, k);
      }
    }
  }

  /** The byte behind the first star is the only letter or digit of the text. */
  lemma WitnessOfOneByte(text: string, k: nat) returns (rest: string)
    requires !StarsReadable(text) && k < |text| - 1 && text[k] == '*'
    requires forall i :: 0 <= i < k ==> text[i] != '*'
    requires forall i, s :: 0 <= i < s < |text| - 1 && Alnum(text[i]) ==> text[s] != '*'
    requires forall i :: k + 1 < i < |text| && Alnum(text[i]) ==> text[i] == text[k + 1]
    ensures Witness(text, k, rest)
  {
    assert forall i :: 0 <= i < k ==> !Alnum(text[i]);
    assert !LoneStar(text, k);
    var last := LastAlnum(text, k + 2);
    assert last.None? ==> OneAlnumBehind(text, k);
    assert Alnum(text[k + 1]) ==> ClearFrom(text, k + 1);
    if last.None? {
      assert false;
    } else {
      var i := last.value;
      if d: nat :| k + 1 < d < i && text[d] != text[k + 1] {
        rest := [text[d]] + "*" + ([text[i]] + Onward(text, i));
        WitnessBetween(text, k, d, i);
      } else if i == |text| - 1 {
        rest := [text[k + 1]];
        WitnessEnd(text, k);
      } else {
        assert text[i + 1] == '*' ==> OneByteBehind(text, k);
        rest := [text[i], text[i + 1]] + "*";
        WitnessTurn(text, k, i);
      }
    }
  }

  /** A text is matched right by every expression with a letter or digit if and only if it is readable. */
  lemma ReadableExactly(text: string)
    ensures StarsReadable(text) <==> forall pat :: HasAlnum(pat) ==> Run(pat, text) == Matches(pat, text)
  {
    if StarsReadable(text) {
      forall pat | HasAlnum(pat) ensures Run(pat, text) == Matches(pat, text) {
        ReadableIsReadRight(pat, text);
      }
    } else {
      var k, rest := UnreadableIsMisread(text);
      assert HasAlnum(text[..k + 1] + rest);
    }
  }
}
