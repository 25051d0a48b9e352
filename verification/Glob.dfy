/**
 Wildcard expressions: the reference meaning of `*` and the engine's
 two-pointer matcher, which remembers only the last star it passed.
 Byte strings are sequences of characters, one character for each byte.
 */
module Glob {
  import opened Wrappers

  /** The reference: `*` stands for any byte sequence, every other byte for itself. */
  predicate Matches(pat: string, text: string)
    decreases |pat|
  {
    if pat == [] then text == []
    else if pat[0] == '*' then exists skip :: 0 <= skip <= |text| && Matches(pat[1..], text[skip..])
    else text != [] && text[0] == pat[0] && Matches(pat[1..], text[1..])
  }

  predicate AllStars(pat: string) {
    forall i :: 0 <= i < |pat| ==> pat[i] == '*'
  }

  predicate StarFree(s: string) {
    forall i :: 0 <= i < |s| ==> s[i] != '*'
  }

  /** Texts on which the two-pointer matcher is complete: a star, if any, is the last byte. */
  predicate NoInnerStar(text: string) {
    forall i :: 0 <= i < |text| - 1 ==> text[i] != '*'
  }

  /** No star from `from` on, except as the last byte. */
  predicate ClearFrom(text: string, from: nat) {
    forall i :: from <= i < |text| - 1 ==> text[i] != '*'
  }

  lemma AllStarsTail(pat: string, p: nat)
    requires p < |pat|
    ensures AllStars(pat[p..]) <==> pat[p] == '*' && AllStars(pat[p + 1..])
  {
    var rest := pat[p + 1..];
    assert pat[p..] == [pat[p]] + rest;
    if AllStars(pat[p..]) {
      forall i | 0 <= i < |rest| ensures rest[i] == '*' { assert pat[p..][1 + i] == rest[i]; }
    }
  }

  /** A remembered star: its place in the pattern and the text position it was last tried at. */
  datatype Star = Star(pos: nat, at: nat)

  ghost predicate Reached(pat: string, text: string, p: nat, t: nat, star: Option<Star>) {
    && p <= |pat| && t <= |text|
    && (star.Some? ==> star.value.pos < p && star.value.at <= t && pat[star.value.pos] == '*')
  }

  /** What the matcher answers from loop state `(p, t, star)`. */
  ghost predicate RunFrom(pat: string, text: string, p: nat, t: nat, star: Option<Star>)
    requires Reached(pat, text, p, t, star)
    decreases if star.Some? then |pat| - star.value.pos else |pat| + 1,
              if star.Some? then |text| - star.value.at else 0,
              |pat| - p
  {
    if t == |text| then AllStars(pat[p..])
    else if p < |pat| && pat[p] == text[t] then RunFrom(pat, text, p + 1, t + 1, star)
    else if p < |pat| && pat[p] == '*' then RunFrom(pat, text, p + 1, t, Some(Star(p, t)))
    else if star.Some? then
      var s := star.value;
      RunFrom(pat, text, s.pos + 1, s.at + 1, Some(Star(s.pos, s.at + 1)))
    else false
  }

  /** The answer of the two-pointer matcher. */
  ghost predicate Run(pat: string, text: string) {
    RunFrom(pat, text, 0, 0, None)
  }

  /** The two-pointer matcher, byte for byte. */
  method GlobMatch(pat: string, text: string) returns (matched: bool)
    ensures matched == Run(pat, text)
    ensures matched ==> Matches(pat, text)
    ensures NoInnerStar(text) ==> matched == Matches(pat, text)
  {
    Soundness(pat, text);
    if NoInnerStar(text) { Completeness(pat, text); }
    var p: nat, t: nat := 0, 0;
    var star: Option<Star> := None;
    while t < |text|
      invariant Reached(pat, text, p, t, star)
      invariant RunFrom(pat, text, p, t, star) == Run(pat, text)
      decreases if star.Some? then |pat| - star.value.pos else |pat| + 1,
                if star.Some? then |text| - star.value.at else 0,
                |pat| - p
    {
      if p < |pat| && pat[p] == text[t] {
        p, t := p + 1, t + 1;
      } else if p < |pat| && pat[p] == '*' {
        star := Some(Star(p, t));
        p := p + 1;
      } else if star.Some? {
        var s := star.value;
        p, t := s.pos + 1, s.at + 1;
        star := Some(Star(s.pos, s.at + 1));
      } else {
        return false;
      }
    }
    ghost var rest := p;
    while p < |pat| && pat[p] == '*'
      invariant rest <= p <= |pat|
      invariant AllStars(pat[rest..]) == AllStars(pat[p..])
    {
      AllStarsTail(pat, p);
      p := p + 1;
    }
    if p < |pat| { AllStarsTail(pat, p); }
    return p == |pat|;
  }

  // ---- Small facts about the reference ----

  lemma {:induction false} StarsMatchEmpty(pat: string)
    ensures Matches(pat, []) == AllStars(pat)
  {
    if pat != [] {
      StarsMatchEmpty(pat[1..]);
      assert forall i :: 0 < i < |pat| ==> pat[i] == pat[1..][i - 1];
      var empty: string := [];
      assert empty[0..] == empty;
      assert Matches(pat[1..], empty[0..]) == AllStars(pat[1..]);
      assert AllStars(pat[1..]) ==> (forall i :: 0 < i < |pat| ==> pat[i] == '*');
      assert AllStars(pat) ==> AllStars(pat[1..]);
    }
  }

  /** A pattern that starts with a star also matches every longer text with the same end. */
  lemma StarAbsorbs(pat: string, text: string, u: nat)
    requires pat != [] && pat[0] == '*' && u <= |text|
    requires Matches(pat, text[u..])
    ensures Matches(pat, text)
  {
    var skip :| 0 <= skip <= |text[u..]| && Matches(pat[1..], text[u..][skip..]);
    assert text[u..][skip..] == text[u + skip..];
  }

  lemma {:induction false} LiteralPrefix(lit: string, rest: string, text: string)
    requires StarFree(lit) && Matches(lit + rest, text)
    ensures lit <= text && Matches(rest, text[|lit|..])
  {
    if lit == [] {
      assert lit + rest == rest && text[0..] == text;
    } else {
      assert (lit + rest)[1..] == lit[1..] + rest;
      assert forall i :: 0 <= i < |lit[1..]| ==> lit[1..][i] == lit[i + 1];
      LiteralPrefix(lit[1..], rest, text[1..]);
      assert text[1..][|lit[1..]|..] == text[|lit|..];
    }
  }

  function Literals(pat: string): (n: nat)
  {
    if pat == [] then 0 else (if pat[0] == '*' then 0 else 1) + Literals(pat[1..])
  }

  lemma {:induction false} LiteralsFit(pat: string, text: string)
    requires Matches(pat, text)
    ensures Literals(pat) <= |text|
  {
    if pat == [] {
    } else if pat[0] == '*' {
      var skip :| 0 <= skip <= |text| && Matches(pat[1..], text[skip..]);
      LiteralsFit(pat[1..], text[skip..]);
    } else {
      LiteralsFit(pat[1..], text[1..]);
    }
  }

  lemma {:induction false} NoLiterals(pat: string)
    ensures Literals(pat) == 0 <==> AllStars(pat)
  {
    if pat != [] {
      NoLiterals(pat[1..]);
      assert forall i :: 0 < i < |pat| ==> pat[i] == pat[1..][i - 1];
      assert AllStars(pat) ==> AllStars(pat[1..]);
    }
  }

  lemma {:induction false} LiteralsOfSplit(pat: string, k: nat)
    requires k <= |pat|
    ensures Literals(pat) == Literals(pat[..k]) + Literals(pat[k..])
  {
    if k == 0 {
      assert pat[0..] == pat;
    } else {
      LiteralsOfSplit(pat[1..], k - 1);
      assert pat[1..][..k - 1] == pat[..k][1..] && pat[1..][k - 1..] == pat[k..];
    }
  }

  lemma {:induction false} StarFreeLiterals(pat: string)
    requires StarFree(pat)
    ensures Literals(pat) == |pat|
  {
    if pat != [] {
      assert StarFree(pat[1..]) by {
        assert forall i :: 0 <= i < |pat[1..]| ==> pat[1..][i] == pat[i + 1];
      }
      StarFreeLiterals(pat[1..]);
    }
  }

  // ---- Soundness: whatever the text is ----

  lemma {:induction false} SoundFrom(pat: string, text: string, p: nat, t: nat, star: Option<Star>)
    requires Reached(pat, text, p, t, star)
    requires RunFrom(pat, text, p, t, star)
    ensures Matches(pat[p..], text[t..])
            || (star.Some? && Matches(pat[star.value.pos..], text[star.value.at..]))
    decreases if star.Some? then |pat| - star.value.pos else |pat| + 1,
              if star.Some? then |text| - star.value.at else 0,
              |pat| - p
  {
    if t == |text| {
      StarsMatchEmpty(pat[p..]);
      assert text[t..] == [];
    } else if p < |pat| && pat[p] == text[t] {
      SoundFrom(pat, text, p + 1, t + 1, star);
      assert pat[p..][1..] == pat[p + 1..] && text[t..][1..] == text[t + 1..];
    } else if p < |pat| && pat[p] == '*' {
      SoundFrom(pat, text, p + 1, t, Some(Star(p, t)));
      assert pat[p..][1..] == pat[p + 1..] && text[t..][0..] == text[t..];
    } else {
      var s := star.value;
      SoundFrom(pat, text, s.pos + 1, s.at + 1, Some(Star(s.pos, s.at + 1)));
      assert pat[s.pos..][1..] == pat[s.pos + 1..];
      assert text[s.at..][1..] == text[s.at + 1..];
      if !Matches(pat[s.pos + 1..], text[s.at + 1..]) {
        StarAbsorbs(pat[s.pos..], text[s.at..], 1);
      }
    }
  }

  /** The matcher never reports a match the reference denies, for any pattern and any text. */
  lemma Soundness(pat: string, text: string)
    ensures Run(pat, text) ==> Matches(pat, text)
  {
    if Run(pat, text) {
      SoundFrom(pat, text, 0, 0, None);
      assert pat[0..] == pat && text[0..] == text;
    }
  }

  // ---- Completeness: texts without an inner star ----

  /** Between the remembered star and the cursor only literal bytes were consumed. */
  ghost predicate Aligned(pat: string, text: string, p: nat, t: nat, star: Option<Star>)
    requires Reached(pat, text, p, t, star)
  {
    star.Some? ==>
      var s := star.value;
      && t - s.at == p - s.pos - 1
      && StarFree(pat[s.pos + 1..p])
      && pat[s.pos + 1..p] == text[s.at..t]
  }

  /** A match is still possible from here: at the cursor, or by moving the last star on. */
  ghost predicate Possible(pat: string, text: string, p: nat, t: nat, star: Option<Star>)
    requires Reached(pat, text, p, t, star)
  {
    || Matches(pat[p..], text[t..])
    || (star.Some? && star.value.at < |text| && Matches(pat[star.value.pos..], text[star.value.at + 1..]))
  }

  /** No room is left once the text is used up: moving the last star on cannot help. */
  lemma EndIsDecisive(pat: string, text: string, p: nat, t: nat, s: Star)
    requires Reached(pat, text, p, t, Some(s)) && Aligned(pat, text, p, t, Some(s))
    requires s.at < |text| && Matches(pat[s.pos..], text[s.at + 1..])
    requires |text| - 1 <= t && (t < |text| ==> p < |pat| && pat[p] == '*')
    ensures AllStars(pat[p..])
  {
    LiteralsFit(pat[s.pos..], text[s.at + 1..]);
    var lit := pat[s.pos + 1..p];
    StarFreeLiterals(lit);
    LiteralsOfSplit(pat[s.pos..], p - s.pos);
    assert pat[s.pos..][..p - s.pos] == pat[s.pos..p] && pat[s.pos..][p - s.pos..] == pat[p..];
    assert pat[s.pos..p][1..] == lit;
    assert Literals(pat[s.pos..p]) == Literals(lit);
    NoLiterals(pat[p..]);
  }

  /** The remembered star never needs to be an earlier one. */
  lemma LaterStarSuffices(pat: string, text: string, p: nat, t: nat, s: Star)
    requires Reached(pat, text, p, t, Some(s)) && Aligned(pat, text, p, t, Some(s))
    requires s.at < |text| && Matches(pat[s.pos..], text[s.at + 1..])
    requires p < |pat| && pat[p] == '*' && t < |text|
    ensures Matches(pat[p..], text[t..])
  {
    var later := text[s.at + 1..];
    var skip :| 0 <= skip <= |later| && Matches(pat[s.pos..][1..], later[skip..]);
    var lit := pat[s.pos + 1..p];
    assert pat[s.pos..][1..] == lit + pat[p..];
    LiteralPrefix(lit, pat[p..], later[skip..]);
    var u := s.at + 1 + skip + |lit| - t;
    assert later[skip..][|lit|..] == text[t..][u..];
    StarAbsorbs(pat[p..], text[t..], u);
  }

  lemma {:induction false} StarAsLastByte(rest: string)
    requires Matches(['*'] + rest, ['*'])
    ensures AllStars(rest)
  {
    var all := ['*'] + rest;
    var last := ['*'];
    var skip :| 0 <= skip <= 1 && Matches(all[1..], last[skip..]);
    assert all[1..] == rest;
    if skip == 1 {
      assert last[1..] == [];
      StarsMatchEmpty(rest);
    } else {
      assert last[0..] == last;
      if rest[0] == '*' {
        assert rest == ['*'] + rest[1..];
        StarAsLastByte(rest[1..]);
        assert forall i :: 0 < i < |rest| ==> rest[i] == rest[1..][i - 1];
      }
    }
  }

  lemma PossibleAfterLiteral(pat: string, text: string, p: nat, t: nat, star: Option<Star>)
    requires Reached(pat, text, p, t, star) && Aligned(pat, text, p, t, star)
    requires Possible(pat, text, p, t, star)
    requires t < |text| && p < |pat| && pat[p] == text[t] != '*'
    ensures Aligned(pat, text, p + 1, t + 1, star) && Possible(pat, text, p + 1, t + 1, star)
  {
    assert pat[p..][1..] == pat[p + 1..] && text[t..][1..] == text[t + 1..];
    if star.Some? {
      var s := star.value;
      assert pat[s.pos + 1..p + 1] == pat[s.pos + 1..p] + [pat[p]];
      assert text[s.at..t + 1] == text[s.at..t] + [text[t]];
    }
  }

  /** A star that matches here matches just after itself, or one text byte further on. */
  lemma StarTriesNext(pat: string, text: string, p: nat, t: nat)
    requires p < |pat| && pat[p] == '*' && t <= |text|
    requires Matches(pat[p..], text[t..])
    ensures Matches(pat[p + 1..], text[t..]) || (t < |text| && Matches(pat[p..], text[t + 1..]))
  {
    var skip :| 0 <= skip <= |text[t..]| && Matches(pat[p..][1..], text[t..][skip..]);
    assert pat[p..][1..] == pat[p + 1..];
    if skip == 0 {
      assert text[t..][0..] == text[t..];
    } else {
      assert text[t..][skip..] == text[t + 1..][skip - 1..];
    }
  }

  lemma CompleteAtEnd(pat: string, text: string, p: nat, star: Option<Star>)
    requires Reached(pat, text, p, |text|, star) && Aligned(pat, text, p, |text|, star)
    requires Possible(pat, text, p, |text|, star)
    ensures RunFrom(pat, text, p, |text|, star)
  {
    if Matches(pat[p..], text[|text|..]) {
      assert text[|text|..] == [];
      StarsMatchEmpty(pat[p..]);
    } else {
      EndIsDecisive(pat, text, p, |text|, star.value);
    }
  }

  lemma NewStar(pat: string, text: string, p: nat, t: nat, star: Option<Star>)
    requires Reached(pat, text, p, t, star) && Aligned(pat, text, p, t, star)
    requires Possible(pat, text, p, t, star)
    requires p < |pat| && pat[p] == '*' && t < |text|
    ensures Reached(pat, text, p + 1, t, Some(Star(p, t)))
    ensures Aligned(pat, text, p + 1, t, Some(Star(p, t))) && Possible(pat, text, p + 1, t, Some(Star(p, t)))
  {
    if !Matches(pat[p..], text[t..]) {
      LaterStarSuffices(pat, text, p, t, star.value);
    }
    StarTriesNext(pat, text, p, t);
  }

  lemma StarMovesOn(pat: string, text: string, p: nat, t: nat, s: Star)
    requires Reached(pat, text, p, t, Some(s)) && s.at < |text| && Matches(pat[s.pos..], text[s.at + 1..])
    ensures Reached(pat, text, s.pos + 1, s.at + 1, Some(Star(s.pos, s.at + 1)))
    ensures Aligned(pat, text, s.pos + 1, s.at + 1, Some(Star(s.pos, s.at + 1)))
    ensures Possible(pat, text, s.pos + 1, s.at + 1, Some(Star(s.pos, s.at + 1)))
  {
    StarTriesNext(pat, text, s.pos, s.at + 1);
  }

  /** The text position before which the matcher never looks again. */
  function Horizon(t: nat, star: Option<Star>): nat {
    if star.Some? then star.value.at else t
  }

  lemma {:induction false} CompleteFrom(pat: string, text: string, p: nat, t: nat, star: Option<Star>)
    requires Reached(pat, text, p, t, star) && Aligned(pat, text, p, t, star)
    requires ClearFrom(text, Horizon(t, star))
    requires Possible(pat, text, p, t, star)
    ensures RunFrom(pat, text, p, t, star)
    decreases if star.Some? then |pat| - star.value.pos else |pat| + 1,
              if star.Some? then |text| - star.value.at else 0,
              |pat| - p
  {
    if t == |text| {
      CompleteAtEnd(pat, text, p, star);
    } else if p < |pat| && pat[p] == text[t] {
      if pat[p] == '*' {
        CompleteAtStarByte(pat, text, p, t, star);
      } else {
        PossibleAfterLiteral(pat, text, p, t, star);
        CompleteFrom(pat, text, p + 1, t + 1, star);
      }
    } else if p < |pat| && pat[p] == '*' {
      NewStar(pat, text, p, t, star);
      CompleteFrom(pat, text, p + 1, t, Some(Star(p, t)));
    } else {
      var s := star.value;
      StarMovesOn(pat, text, p, t, s);
      CompleteFrom(pat, text, s.pos + 1, s.at + 1, Some(Star(s.pos, s.at + 1)));
    }
  }

  /** A star of the pattern eaten by a final star of the text leaves only stars behind. */
  lemma CompleteAtStarByte(pat: string, text: string, p: nat, t: nat, star: Option<Star>)
    requires Reached(pat, text, p, t, star) && Aligned(pat, text, p, t, star)
    requires ClearFrom(text, Horizon(t, star))
    requires Possible(pat, text, p, t, star)
    requires t < |text| && p < |pat| && pat[p] == text[t] == '*'
    ensures RunFrom(pat, text, p, t, star)
  {
    assert t == |text| - 1;
    if Matches(pat[p..], text[t..]) {
      assert pat[p..] == ['*'] + pat[p + 1..] && text[t..] == ['*'];
      StarAsLastByte(pat[p + 1..]);
    } else {
      EndIsDecisive(pat, text, p, t, star.value);
      AllStarsTail(pat, p);
    }
    assert RunFrom(pat, text, p + 1, t + 1, star);
  }

  /** Never revisiting an earlier star loses no match on texts without an inner star. */
  lemma Completeness(pat: string, text: string)
    requires NoInnerStar(text)
    ensures Run(pat, text) == Matches(pat, text)
  {
    Soundness(pat, text);
    if Matches(pat, text) {
      assert pat[0..] == pat && text[0..] == text;
      CompleteFrom(pat, text, 0, 0, None);
    }
  }

  // ---- The condition is exact ----

  lemma {:induction false} LiteralRun(text: string, k: nat, p: nat)
    requires p <= k < |text|
    ensures !RunFrom(text[..k], text, p, p, None)
    decreases k - p
  {
    if p < k { LiteralRun(text, k, p + 1); }
  }

  lemma {:induction false} PrefixWithStarMatches(text: string, k: nat)
    requires k < |text| && text[k] == '*'
    ensures Matches(text[..k + 1], text)
  {
    var pat := text[..k + 1];
    if k == 0 {
      assert pat[1..] == [] && text[|text|..] == [];
    } else {
      PrefixWithStarMatches(text[1..], k - 1);
      assert text[1..][..k] == pat[1..];
    }
  }

  /** A text with an inner star is misread: its own prefix up to that star is not found to match. */
  lemma InnerStarIsMissed(text: string, k: nat)
    requires k < |text| - 1 && text[k] == '*'
    ensures Matches(text[..k + 1], text) && !Run(text[..k + 1], text)
  {
    PrefixWithStarMatches(text, k);
    LiteralRun(text, k + 1, 0);
  }

  /** The matcher agrees with the reference on every pattern exactly on texts without an inner star. */
  lemma AgreesExactlyWhen(text: string)
    ensures (forall pat: string :: Run(pat, text) == Matches(pat, text)) <==> NoInnerStar(text)
  {
    if NoInnerStar(text) {
      forall pat: string ensures Run(pat, text) == Matches(pat, text) {
        Completeness(pat, text);
      }
    } else {
      var k :| 0 <= k < |text| - 1 && text[k] == '*';
      InnerStarIsMissed(text, k);
    }
  }

  /** Concretely: `*` does not match the name `*a`, although a star matches everything. */
  lemma StarNameExample()
    ensures Matches("*", "*a") && !Run("*", "*a")
  {
    InnerStarIsMissed("*a", 0);
    assert "*a"[..1] == "*";
  }
}
