/**
 The index of wildcard rules: a wildcard is filed under the complete labels after
 its last star, and a name walks only the buckets of its own label suffixes.
 */
module Wildcards {
  import opened Wrappers
  import opened Labels
  import opened Rules
  import opened Order
  import Glob

  datatype WildcardEntry = WildcardEntry(expr: string, includeSubdomains: bool, rule: nat)

  /** What follows the last star of `expr`, if there is one. */
  function AfterLastStar(expr: string): Option<string> {
    if expr == [] then None
    else
      var rest := AfterLastStar(expr[1..]);
      if rest.Some? then rest
      else if expr[0] == '*' then Some(expr[1..])
      else None
  }

  lemma {:induction false} LastStarTail(expr: string)
    ensures AfterLastStar(expr).None? <==> Glob.StarFree(expr)
    ensures AfterLastStar(expr).Some? ==>
              var tail := AfterLastStar(expr).value;
              Glob.StarFree(tail) && |tail| < |expr| && expr[|expr| - |tail|..] == tail
  {
    if expr != [] {
      LastStarTail(expr[1..]);
      assert expr == [expr[0]] + expr[1..];
      if AfterLastStar(expr[1..]).Some? {
        var tail := AfterLastStar(expr).value;
        assert expr[|expr| - |tail|..] == expr[1..][|expr| - 1 - |tail|..];
      }
    }
  }

  /** The complete labels after the last star. */
  function Anchor(expr: string): Option<string> {
    var tail := AfterLastStar(expr);
    if tail.None? then None
    else
      var dot := Find(tail.value, '.');
      if dot.None? then None
      else
        var anchor := tail.value[dot.value + 1..];
        if anchor == [] then None else Some(anchor)
  }

  lemma {:induction false} MatchEndsWithLiteral(front: string, lit: string, text: string)
    requires Glob.StarFree(lit) && Glob.Matches(front + lit, text)
    ensures EndsWith(text, lit)
  {
    var pat := front + lit;
    if front == [] {
      assert pat == lit + [];
      Glob.LiteralPrefix(lit, [], text);
      assert text[|lit|..] == [];
    } else {
      assert pat[1..] == front[1..] + lit;
      if front[0] == '*' {
        var skip :| 0 <= skip <= |text| && Glob.Matches(pat[1..], text[skip..]);
        MatchEndsWithLiteral(front[1..], lit, text[skip..]);
        assert text[skip..][|text[skip..]| - |lit|..] == text[|text| - |lit|..];
      } else {
        MatchEndsWithLiteral(front[1..], lit, text[1..]);
        assert text[1..][|text[1..]| - |lit|..] == text[|text| - |lit|..];
      }
    }
  }

  /** Whatever an anchored wildcard matches ends with its anchor, at a label boundary. */
  lemma AnchorIsSuffix(expr: string, text: string)
    requires Glob.Matches(expr, text) && Anchor(expr).Some?
    ensures EndsWith(text, "." + Anchor(expr).value)
  {
    var tail := AfterLastStar(expr).value;
    LastStarTail(expr);
    assert expr == expr[..|expr| - |tail|] + tail;
    MatchEndsWithLiteral(expr[..|expr| - |tail|], tail, text);
    var dot := Find(tail, '.').value;
    var anchor := Anchor(expr).value;
    EndsWithDotted(text, anchor);
    assert text[|text| - |tail|..][dot] == tail[dot];
    assert text[|text| - |tail|..][dot + 1..] == tail[dot + 1..];
    assert text[|text| - |anchor|..] == text[|text| - |tail|..][dot + 1..];
  }

  /** The suffixes whose buckets a name visits: the name itself, then what follows each dot. */
  function Visited(name: string): seq<string> {
    [name] + Suffixes(name)
  }

  /** The walk from one visited suffix to the next. */
  lemma WalkStep(visited: seq<string>, k: nat, suffix: string)
    requires k < |visited| && Visited(suffix) == visited[k..]
    ensures suffix == visited[k]
    ensures var dot := Find(suffix, '.');
            if dot.None? then k + 1 == |visited|
            else k + 1 < |visited| && Visited(suffix[dot.value + 1..]) == visited[k + 1..]
  {
    assert Visited(suffix)[0] == suffix;
    assert visited[k..][1..] == visited[k + 1..];
    var dot := Find(suffix, '.');
    if dot.Some? {
      assert Visited(suffix) == [suffix] + Visited(suffix[dot.value + 1..]);
      assert Visited(suffix)[1..] == Visited(suffix[dot.value + 1..]);
    }
  }

  /** Completeness of the index: a wildcard that matches a name has its anchor among the visited suffixes. */
  lemma AnchorIsVisited(w: WildcardEntry, name: string)
    requires PatternMatches(Wildcard(w.expr, w.includeSubdomains), name) && Anchor(w.expr).Some?
    ensures Anchor(w.expr).value in Visited(name)
  {
    var anchor := Anchor(w.expr).value;
    var rests := Suffixes(name);
    var text := name;
    if !Glob.Matches(w.expr, name) {
      var i :| 0 <= i < |rests| && Glob.Matches(w.expr, rests[i]);
      text := rests[i];
      SuffixesExact(name, text);
    }
    AnchorIsSuffix(w.expr, text);
    WithinTransitive(name, text, anchor);
    SuffixesExact(name, anchor);
  }

  /** No suffix is visited twice. */
  lemma VisitedOnce(name: string)
    ensures Distinct<string>(Visited(name))
  {
    SuffixesShrink(name);
    var v, s := Visited(name), Suffixes(name);
    forall i, j | 0 <= i < j < |v| ensures v[i] != v[j] {
      assert v[j] == s[j - 1];
      if i > 0 { assert v[i] == s[i - 1]; }
    }
  }

  // ---- Buckets ----

  datatype WildcardIndex = WildcardIndex(
    entries: seq<WildcardEntry>, buckets: map<string, seq<nat>>, unanchored: seq<nat>)
  {
    function Bucket(anchor: string): seq<nat> {
      if anchor in buckets then buckets[anchor] else []
    }

    predicate FiledUnder(i: nat, a: string) {
      i < |entries| && Anchor(entries[i].expr) == Some(a)
    }

    /** Every entry is filed once: under its anchor, or with the unanchored ones. */
    ghost predicate Valid() {
      && (forall i :: 0 <= i < |entries| ==>
            match Anchor(entries[i].expr)
            case Some(a) => i in Bucket(a)
            case None => i in unanchored)
      && (forall a, i: nat :: i in Bucket(a) ==> FiledUnder(i, a))
      && (forall i: nat :: i in unanchored ==> i < |entries| && Anchor(entries[i].expr) == None)
      && (forall a :: Distinct<nat>(Bucket(a)))
      && Distinct<nat>(unanchored)
    }

    function Added(w: WildcardEntry): WildcardIndex {
      var i := |entries|;
      match Anchor(w.expr)
      case Some(a) => WildcardIndex(entries + [w], buckets[a := Bucket(a) + [i]], unanchored)
      case None => WildcardIndex(entries + [w], buckets, unanchored + [i])
    }

    /** The entries tested for a name, in order: visited buckets, then the unanchored. */
    function Candidates(name: string): seq<nat> {
      Walk(Visited(name)) + unanchored
    }

    function Walk(suffixes: seq<string>): seq<nat> {
      if suffixes == [] then [] else Walk(suffixes[..|suffixes| - 1]) + Bucket(suffixes[|suffixes| - 1])
    }
  }

  lemma BucketAnchor(x: WildcardIndex, a: string, i: nat)
    requires x.Valid() && i in x.Bucket(a)
    ensures i < |x.entries| && Anchor(x.entries[i].expr) == Some(a)
  {
  }

  lemma NextIsNew(x: WildcardIndex)
    requires x.Valid()
    ensures |x.entries| !in x.unanchored
    ensures forall a :: |x.entries| !in x.Bucket(a)
  {
    forall a ensures |x.entries| !in x.Bucket(a) {
      if |x.entries| in x.Bucket(a) { BucketAnchor(x, a, |x.entries|); }
    }
  }

  lemma AddedStaysValid(x: WildcardIndex, w: WildcardEntry)
    requires x.Valid()
    ensures x.Added(w).Valid()
  {
    NextIsNew(x);
    if Anchor(w.expr).Some? {
      AddedAnchored(x, w, Anchor(w.expr).value);
    } else {
      DistinctAppend<nat>(x.unanchored, |x.entries|);
      var y := x.Added(w);
      assert forall a :: y.Bucket(a) == x.Bucket(a);
      assert y.entries == x.entries + [w];
      forall a, i: nat | i in y.Bucket(a) ensures y.FiledUnder(i, a) {
        BucketAnchor(x, a, i);
      }
    }
  }

  lemma AddedAnchored(x: WildcardIndex, w: WildcardEntry, at: string)
    requires x.Valid() && Anchor(w.expr) == Some(at)
    ensures x.Added(w).Valid()
  {
    AddedBuckets(x, w, at);
    AnchoredStaysDistinct(x, w, at);
    AnchoredStaysFiled(x, w, at);
    var y := x.Added(w);
    forall i | 0 <= i < |y.entries|
      ensures match Anchor(y.entries[i].expr) case Some(a) => i in y.Bucket(a) case None => i in y.unanchored
    {
      if i < |x.entries| { assert y.entries[i] == x.entries[i]; }
    }
  }

  lemma AnchoredStaysDistinct(x: WildcardIndex, w: WildcardEntry, at: string)
    requires x.Valid() && Anchor(w.expr) == Some(at)
    ensures forall a :: Distinct<nat>(x.Added(w).Bucket(a))
  {
    AddedBuckets(x, w, at);
    NextIsNew(x);
    DistinctAppend<nat>(x.Bucket(at), |x.entries|);
  }

  lemma AnchoredStaysFiled(x: WildcardIndex, w: WildcardEntry, at: string)
    requires x.Valid() && Anchor(w.expr) == Some(at)
    ensures forall a, i: nat :: i in x.Added(w).Bucket(a) ==> x.Added(w).FiledUnder(i, a)
  {
    AddedBuckets(x, w, at);
    var y := x.Added(w);
    forall a, i: nat | i in y.Bucket(a) ensures y.FiledUnder(i, a) {
      if i in x.Bucket(a) { BucketAnchor(x, a, i); }
    }
  }

  lemma AddedBuckets(x: WildcardIndex, w: WildcardEntry, at: string)
    requires Anchor(w.expr) == Some(at)
    ensures x.Added(w).entries == x.entries + [w] && x.Added(w).unanchored == x.unanchored
    ensures forall a :: x.Added(w).Bucket(a) == if a == at then x.Bucket(a) + [|x.entries|] else x.Bucket(a)
  {
  }

  lemma {:induction false} WalkMembers(x: WildcardIndex, suffixes: seq<string>)
    ensures forall i :: i in x.Walk(suffixes) <==> exists k :: 0 <= k < |suffixes| && i in x.Bucket(suffixes[k])
  {
    if suffixes != [] {
      var front, last := suffixes[..|suffixes| - 1], suffixes[|suffixes| - 1];
      WalkMembers(x, front);
      forall i | exists k :: 0 <= k < |suffixes| && i in x.Bucket(suffixes[k])
        ensures i in x.Walk(suffixes)
      {
        var k :| 0 <= k < |suffixes| && i in x.Bucket(suffixes[k]);
        if k < |front| { assert front[k] == suffixes[k]; }
      }
      forall i | i in x.Walk(front)
        ensures exists k :: 0 <= k < |suffixes| && i in x.Bucket(suffixes[k])
      {
        var k :| 0 <= k < |front| && i in x.Bucket(front[k]);
        assert suffixes[k] == front[k];
      }
    }
  }

  lemma {:induction false} WalkDistinct(x: WildcardIndex, suffixes: seq<string>)
    requires x.Valid()
    requires Distinct<string>(suffixes)
    ensures Distinct<nat>(x.Walk(suffixes))
  {
    if suffixes != [] {
      var front, last := suffixes[..|suffixes| - 1], suffixes[|suffixes| - 1];
      WalkDistinct(x, front);
      WalkMembers(x, front);
      var a, b := x.Walk(front), x.Bucket(last);
      forall i: nat | i in a ensures i !in b {
        var f :| 0 <= f < |front| && i in x.Bucket(front[f]);
        BucketAnchor(x, front[f], i);
        assert front[f] == suffixes[f] != last;
        if i in b { BucketAnchor(x, last, i); }
      }
      DistinctConcat<nat>(a, b);
    }
  }

  /** The walk tests every wildcard that can match the name, and none of them twice. */
  lemma CandidatesComplete(x: WildcardIndex, name: string)
    requires x.Valid()
    ensures forall i :: 0 <= i < |x.entries|
              && PatternMatches(Wildcard(x.entries[i].expr, x.entries[i].includeSubdomains), name)
              ==> i in x.Candidates(name)
    ensures Distinct<nat>(x.Candidates(name))
    ensures forall i :: i in x.Candidates(name) ==> i < |x.entries|
  {
    var visited := Visited(name);
    WalkMembers(x, visited);
    VisitedOnce(name);
    WalkDistinct(x, visited);
    forall i | i in x.Candidates(name) ensures i < |x.entries| {
      if i in x.Walk(visited) {
        var k :| 0 <= k < |visited| && i in x.Bucket(visited[k]);
        BucketAnchor(x, visited[k], i);
      }
    }
    forall i | 0 <= i < |x.entries|
                && PatternMatches(Wildcard(x.entries[i].expr, x.entries[i].includeSubdomains), name)
      ensures i in x.Candidates(name)
    {
      if Anchor(x.entries[i].expr).Some? {
        AnchorIsVisited(x.entries[i], name);
        var k :| 0 <= k < |visited| && visited[k] == Anchor(x.entries[i].expr).value;
        assert i in x.Bucket(visited[k]);
      }
    }
    var a, b := x.Walk(visited), x.unanchored;
    forall i: nat | i in a ensures i !in b {
      var f :| 0 <= f < |visited| && i in x.Bucket(visited[f]);
      BucketAnchor(x, visited[f], i);
    }
    DistinctConcat<nat>(a, b);
  }

  /** The engine's test implies the reference's, so it too only passes on candidates. */
  lemma RunIsSound(expr: string, includeSubdomains: bool, name: string)
    requires RunOnName(expr, includeSubdomains, name)
    ensures PatternMatches(Wildcard(expr, includeSubdomains), name)
  {
    Glob.Soundness(expr, name);
    var rests := Suffixes(name);
    if !Glob.Run(expr, name) {
      var i :| 0 <= i < |rests| && Glob.Run(expr, rests[i]);
      Glob.Soundness(expr, rests[i]);
    }
  }

  /** Does `expr` match `name`, or with `includeSubdomains` what follows one of its dots? */
  method WildcardMatches(expr: string, name: string, includeSubdomains: bool) returns (matched: bool)
    ensures matched == RunOnName(expr, includeSubdomains, name)
  {
    matched := Glob.GlobMatch(expr, name);
    if matched { return; }
    if includeSubdomains {
      var rest := name;
      var dot := Find(rest, '.');
      ghost var k := 0;
      ghost var all := Suffixes(name);
      while dot.Some?
        invariant dot == Find(rest, '.')
        invariant 0 <= k <= |all| && Suffixes(rest) == all[k..]
        invariant forall i :: 0 <= i < k ==> !Glob.Run(expr, all[i])
        decreases |rest|
      {
        assert Suffixes(rest)[0] == all[k] && Suffixes(rest)[1..] == all[k + 1..];
        rest := rest[dot.value + 1..];
        matched := Glob.GlobMatch(expr, rest);
        if matched { return; }
        k := k + 1;
        dot := Find(rest, '.');
      }
      assert Suffixes(rest) == [] && k == |all|;
    }
  }
}
