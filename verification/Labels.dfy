/**
 Names as sequences of dot-separated labels: the engine's label reversal into a
 fixed buffer, and why probing the label-boundary prefixes of the reversed name
 finds exactly the domains that contain it.
 */
module Labels {
  import opened Wrappers

  /** The labels of `s`, in order; the empty name has one empty label. */
  function Split(s: string): (labels: seq<string>)
    ensures labels != []
  {
    if s == [] then [""]
    else
      var rest := Split(s[1..]);
      if s[0] == '.' then [""] + rest else [[s[0]] + rest[0]] + rest[1..]
  }

  /** The labels written out with a dot between neighbours. */
  function Join(labels: seq<string>): string
  {
    if labels == [] then ""
    else if |labels| == 1 then labels[0]
    else labels[0] + "." + Join(labels[1..])
  }

  predicate DotFree(s: string) {
    '.' !in s
  }

  predicate AllDotFree(labels: seq<string>) {
    forall i :: 0 <= i < |labels| ==> DotFree(labels[i])
  }

  function Reverse<T>(s: seq<T>): (r: seq<T>)
    ensures |r| == |s|
  {
    seq(|s|, i requires 0 <= i < |s| => s[|s| - 1 - i])
  }

  /** The true label reversal: same labels, opposite order. */
  function TrueReversal(s: string): string {
    Join(Reverse(Split(s)))
  }

  function DropLeadingEmpty(labels: seq<string>): seq<string> {
    if labels != [] && labels[0] == "" then DropLeadingEmpty(labels[1..]) else labels
  }

  /** What the engine writes: separators are skipped while nothing has been written. */
  function Reversed(s: string): string {
    Written(Reverse(Split(s)))
  }

  /** The bytes written for labels taken in this order. */
  function Written(labels: seq<string>): string {
    Join(DropLeadingEmpty(labels))
  }

  predicate EndsWith(s: string, suffix: string) {
    |suffix| <= |s| && s[|s| - |suffix|..] == suffix
  }

  lemma EndsWithDotted(s: string, rest: string)
    ensures EndsWith(s, "." + rest)
            <==> |rest| < |s| && s[|s| - |rest| - 1] == '.' && s[|s| - |rest|..] == rest
  {
    if |rest| < |s| {
      var tail := s[|s| - |rest| - 1..];
      assert tail == [s[|s| - |rest| - 1]] + s[|s| - |rest|..];
    }
  }

  /** `name` is `domain` or one of its subdomains. */
  predicate Within(name: string, domain: string) {
    name == domain || EndsWith(name, "." + domain)
  }

  predicate EndsInDot(s: string) {
    s != [] && s[|s| - 1] == '.'
  }

  predicate StartsWithDot(s: string) {
    s != [] && s[0] == '.'
  }

  // ---- Splitting and joining ----

  lemma {:induction false} SplitDotFree(s: string)
    ensures AllDotFree(Split(s))
    ensures DotFree(s) ==> Split(s) == [s]
  {
    if s != [] {
      SplitDotFree(s[1..]);
      assert DotFree(s) ==> DotFree(s[1..]) && s[0] != '.';
      assert [s[0]] + s[1..] == s;
    }
  }

  lemma {:induction false} JoinSplit(s: string)
    ensures Join(Split(s)) == s
  {
    if s != [] {
      JoinSplit(s[1..]);
      var rest := Split(s[1..]);
      if s[0] == '.' {
        assert ([""] + rest)[1..] == rest;
      } else {
        assert ([[s[0]] + rest[0]] + rest[1..])[1..] == rest[1..];
      }
    }
  }

  lemma SplitStep(c: char, s: string)
    ensures Split([c] + s) == if c == '.' then [""] + Split(s) else [[c] + Split(s)[0]] + Split(s)[1..]
  {
    assert ([c] + s)[1..] == s;
  }

  lemma DottedTail(a: string, b: string)
    requires a != []
    ensures a + "." + b == [a[0]] + (a[1..] + "." + b) && a == [a[0]] + a[1..]
  {
  }

  lemma HeadAndTail(s: seq<string>, t: seq<string>)
    requires s != []
    ensures (s + t)[0] == s[0] && (s + t)[1..] == s[1..] + t
  {
  }

  lemma AppendAssociates(p: seq<string>, q: seq<string>, r: seq<string>)
    ensures (p + q) + r == p + (q + r)
  {
  }

  /** The same step taken on both sides of an equation. */
  lemma StepBoth(c: char, whole: seq<string>, left: seq<string>, right: seq<string>)
    requires left != [] && whole == left + right
    ensures [""] + whole == ([""] + left) + right
    ensures [[c] + whole[0]] + whole[1..] == ([[c] + left[0]] + left[1..]) + right
  {
    HeadAndTail(left, right);
    AppendAssociates([""], left, right);
    AppendAssociates([[c] + left[0]], left[1..], right);
  }

  lemma {:induction false} SplitAtDot(a: string, b: string)
    ensures Split(a + "." + b) == Split(a) + Split(b)
  {
    if a == [] {
      SplitStep('.', b);
      assert a + "." + b == ['.'] + b;
    } else {
      var tail := a[1..];
      SplitAtDot(tail, b);
      DottedTail(a, b);
      SplitStep(a[0], tail + "." + b);
      SplitStep(a[0], tail);
      StepBoth(a[0], Split(tail + "." + b), Split(tail), Split(b));
    }
  }

  lemma {:induction false} SplitJoin(labels: seq<string>)
    requires labels != [] && AllDotFree(labels)
    ensures Split(Join(labels)) == labels
  {
    SplitDotFree(labels[0]);
    if |labels| > 1 {
      SplitJoin(labels[1..]);
      SplitAtDot(labels[0], Join(labels[1..]));
    }
  }

  lemma {:induction false} JoinAppend(a: seq<string>, b: seq<string>)
    requires a != [] && b != []
    ensures Join(a + b) == Join(a) + "." + Join(b)
  {
    if |a| == 1 {
      assert (a + b)[1..] == b;
    } else {
      JoinAppend(a[1..], b);
      assert (a + b)[1..] == a[1..] + b;
    }
  }

  lemma ReverseTwice<T>(s: seq<T>)
    ensures Reverse(Reverse(s)) == s
  {
  }

  lemma ReverseAppend<T>(a: seq<T>, b: seq<T>)
    ensures Reverse(a + b) == Reverse(b) + Reverse(a)
  {
    assert Reverse(a + b) == Reverse(b) + Reverse(a);
  }

  // ---- Trailing and leading dots ----

  lemma {:induction false} LastLabelEmpty(s: string)
    ensures Split(s)[|Split(s)| - 1] == "" <==> s == [] || EndsInDot(s)
  {
    if |s| == 1 {
      assert s[1..] == [];
    } else if |s| > 1 {
      LastLabelEmpty(s[1..]);
    }
  }

  lemma FirstLabelEmpty(s: string)
    ensures Split(s)[0] == "" <==> s == [] || StartsWithDot(s)
  {
  }

  lemma {:induction false} JoinedLength(labels: seq<string>)
    requires labels != []
    ensures |labels[0]| <= |Join(labels)|
    ensures |labels| - 1 <= |Join(labels)|
    ensures |labels| > 1 ==> |Join(labels)| == |labels[0]| + 1 + |Join(labels[1..])|
  {
    if |labels| > 1 { JoinedLength(labels[1..]); }
  }

  lemma {:induction false} DropShortens(labels: seq<string>)
    ensures |Join(DropLeadingEmpty(labels))| <= |Join(labels)|
    ensures |labels| > 1 && labels[0] == "" ==> |Join(DropLeadingEmpty(labels))| < |Join(labels)|
  {
    if labels != [] && labels[0] == "" {
      DropShortens(labels[1..]);
      JoinedLength(labels);
    }
  }

  /** The engine's reversal is the true one exactly on names that do not end in a dot. */
  lemma ReversalFaithfulIff(s: string)
    ensures Reversed(s) == TrueReversal(s) <==> !EndsInDot(s)
  {
    var r := Reverse(Split(s));
    LastLabelEmpty(s);
    assert r[0] == Split(s)[|Split(s)| - 1];
    if EndsInDot(s) {
      if |s| > 1 { assert |Split(s)| > 1; } else { assert s[1..] == []; assert Split(s) == ["", ""]; }
      DropShortens(r);
    } else if s == [] {
      assert r == [""];
    }
  }

  lemma ReverseDotFree(labels: seq<string>)
    requires AllDotFree(labels)
    ensures AllDotFree(Reverse(labels))
  {
  }

  /** The reversed labels the engine writes, for a name that does not end in a dot. */
  lemma ReversedLabels(s: string)
    requires s != [] && !EndsInDot(s)
    ensures DropLeadingEmpty(Reverse(Split(s))) == Reverse(Split(s))
    ensures Reversed(s) == TrueReversal(s)
    ensures Split(Reversed(s)) == Reverse(Split(s))
  {
    LastLabelEmpty(s);
    SplitDotFree(s);
    var r := Reverse(Split(s));
    assert r[0] != "";
    ReverseDotFree(Split(s));
    SplitJoin(r);
  }

  /** Reversing a name with non-empty first and last labels twice gives it back. */
  lemma ReversalInvolution(s: string)
    requires s != [] && !EndsInDot(s) && !StartsWithDot(s)
    ensures Reversed(Reversed(s)) == s
  {
    ReversedLabels(s);
    FirstLabelEmpty(s);
    LastLabelEmpty(Reversed(s));
    JoinSplit(s);
    var r := Reversed(s);
    assert Split(r)[|Split(r)| - 1] == Split(s)[0] != "";
    ReversedLabels(r);
    ReverseTwice(Split(s));
  }

  lemma {:induction false} JoinLengthReverse(labels: seq<string>)
    ensures |Join(Reverse(labels))| == |Join(labels)|
  {
    if |labels| > 1 {
      var tail := Reverse(labels[1..]);
      JoinLengthReverse(labels[1..]);
      JoinAppend(tail, [labels[0]]);
      assert Reverse(labels) == tail + [labels[0]];
    } else if |labels| == 1 {
      assert Reverse(labels) == labels;
    }
  }

  lemma ReversedLength(s: string)
    ensures |Reversed(s)| <= |s|
    ensures !EndsInDot(s) ==> |Reversed(s)| == |s|
  {
    JoinLengthReverse(Split(s));
    JoinSplit(s);
    DropShortens(Reverse(Split(s)));
    ReversalFaithfulIff(s);
  }

  // ---- Subtree probing ----

  /** `end` is a label boundary of `rev`: a dot, or its end. */
  predicate Boundary(rev: string, end: int) {
    0 <= end <= |rev| && (end == |rev| || rev[end] == '.')
  }

  /** What the engine tests: some label-boundary prefix of the reversed name is the reversed domain. */
  ghost predicate Probed(name: string, domain: string) {
    exists end :: Boundary(Reversed(name), end) && Reversed(name)[..end] == Reversed(domain)
  }

  lemma SuffixOfLabels(name: string, domain: string)
    ensures Within(name, domain)
            <==> |Split(domain)| <= |Split(name)|
                 && Split(name)[|Split(name)| - |Split(domain)|..] == Split(domain)
  {
    var n, d := Split(name), Split(domain);
    if EndsWith(name, "." + domain) {
      WithinSplits(name, domain);
    }
    if |d| <= |n| && n[|n| - |d|..] == d {
      JoinSplit(name);
      JoinSplit(domain);
      var a := n[..|n| - |d|];
      assert n == a + d;
      if a == [] {
        assert n == d;
      } else {
        JoinAppend(a, d);
        JoinedEnds(Join(a), domain);
      }
    }
  }

  lemma WithinSplits(name: string, domain: string)
    requires EndsWith(name, "." + domain)
    ensures |Split(domain)| <= |Split(name)|
    ensures Split(name)[|Split(name)| - |Split(domain)|..] == Split(domain)
  {
    var a := name[..|name| - |domain| - 1];
    assert name == a + ("." + domain) == a + "." + domain;
    SplitAtDot(a, domain);
  }

  lemma JoinedEnds(front: string, domain: string)
    ensures EndsWith(front + "." + domain, "." + domain)
  {
    var name := front + "." + domain;
    assert name[|name| - |domain| - 1..] == "." + domain;
  }

  lemma EndsWithLast(s: string, suffix: string)
    ensures suffix != [] && EndsWith(s, "." + suffix) ==> s[|s| - 1] == suffix[|suffix| - 1]
  {
    var dotted := "." + suffix;
    if suffix != [] && EndsWith(s, dotted) {
      assert s[|s| - |dotted|..][|dotted| - 1] == dotted[|dotted| - 1];
    }
  }

  /** A boundary prefix of joined labels is the join of a label prefix. */
  lemma BoundaryPrefix(labels: seq<string>, end: nat)
    requires labels != [] && AllDotFree(labels)
    requires Boundary(Join(labels), end)
    ensures var k := |Split(Join(labels)[..end])|;
            k <= |labels| && Split(Join(labels)[..end]) == labels[..k]
  {
    var s := Join(labels);
    SplitJoin(labels);
    if end == |s| {
      assert s[..end] == s;
    } else {
      assert s == s[..end] + "." + s[end + 1..];
      SplitAtDot(s[..end], s[end + 1..]);
    }
  }

  lemma PrefixBoundary(labels: seq<string>, k: nat)
    requires 0 < k <= |labels|
    ensures var end := |Join(labels[..k])|;
            Boundary(Join(labels), end) && Join(labels)[..end] == Join(labels[..k])
  {
    if k == |labels| {
      assert labels[..k] == labels;
    } else {
      JoinAppend(labels[..k], labels[k..]);
      assert labels[..k] + labels[k..] == labels;
    }
  }

  /**
   Probing the reversed prefixes finds exactly the domains the name lies in, when
   neither the name nor the domain ends in a dot.
   */
  lemma ProbeExact(name: string, domain: string)
    requires name != [] && !EndsInDot(name)
    requires domain != [] && !EndsInDot(domain)
    ensures Probed(name, domain) <==> Within(name, domain)
  {
    if Probed(name, domain) { ProbedIsWithin(name, domain); }
    if Within(name, domain) { WithinIsProbed(name, domain); }
  }

  lemma ProbedIsWithin(name: string, domain: string)
    requires name != [] && !EndsInDot(name)
    requires domain != [] && !EndsInDot(domain)
    requires Probed(name, domain)
    ensures Within(name, domain)
  {
    ReversedLabels(name);
    ReversedLabels(domain);
    var rn := Reverse(Split(name));
    SplitDotFree(name);
    ReverseDotFree(Split(name));
    var end :| Boundary(Reversed(name), end) && Reversed(name)[..end] == Reversed(domain);
    BoundaryPrefix(rn, end);
    assert Reverse(Split(domain)) == rn[..|Split(domain)|];
    ReversedPrefixIsSuffix(Split(name), Split(domain));
    SuffixOfLabels(name, domain);
  }

  lemma WithinIsProbed(name: string, domain: string)
    requires name != [] && !EndsInDot(name)
    requires domain != [] && !EndsInDot(domain)
    requires Within(name, domain)
    ensures Probed(name, domain)
  {
    ReversedLabels(name);
    ReversedLabels(domain);
    var rn, k := Reverse(Split(name)), |Split(domain)|;
    SuffixOfLabels(name, domain);
    ReversedSuffixIsPrefix(Split(name), Split(domain));
    PrefixBoundary(rn, k);
    assert Reversed(name)[..|Join(rn[..k])|] == Reversed(domain);
  }

  lemma ReversedPrefixIsSuffix<T>(s: seq<T>, t: seq<T>)
    requires |t| <= |s| && Reverse(s)[..|t|] == Reverse(t)
    ensures s[|s| - |t|..] == t
  {
    var rs, rt := Reverse(s), Reverse(t);
    forall i | 0 <= i < |t| ensures s[|s| - |t| + i] == t[i] {
      assert rs[..|t|][|t| - 1 - i] == rs[|t| - 1 - i] == rt[|t| - 1 - i];
    }
  }

  lemma ReversedSuffixIsPrefix<T>(s: seq<T>, t: seq<T>)
    requires |t| <= |s| && s[|s| - |t|..] == t
    ensures Reverse(s)[..|t|] == Reverse(t)
  {
    var rs, rt := Reverse(s), Reverse(t);
    forall i | 0 <= i < |t| ensures rs[i] == rt[i] {
      assert s[|s| - |t|..][|t| - 1 - i] == t[|t| - 1 - i];
    }
  }

  function TrimTrailingDots(s: string): string {
    if EndsInDot(s) then TrimTrailingDots(s[..|s| - 1]) else s
  }

  lemma DotDropsOut(s: string)
    requires EndsInDot(s)
    ensures Reversed(s) == Reversed(s[..|s| - 1])
  {
    var shorter, empty := s[..|s| - 1], "";
    assert s == shorter + "." + empty;
    SplitAtDot(shorter, empty);
    var r := Reverse(Split(s));
    assert r == [empty] + Reverse(Split(shorter)) by {
      ReverseAppend(Split(shorter), [empty]);
    }
    assert r[1..] == Reverse(Split(shorter));
  }

  lemma {:induction false} TrimKeepsReversal(s: string)
    ensures Reversed(TrimTrailingDots(s)) == Reversed(s)
    ensures !EndsInDot(TrimTrailingDots(s)) && |TrimTrailingDots(s)| <= |s|
    ensures EndsInDot(s) ==> |TrimTrailingDots(s)| < |s|
  {
    if EndsInDot(s) {
      TrimKeepsReversal(s[..|s| - 1]);
      DotDropsOut(s);
    }
  }

  /** Concretely: `com.` and `com` are written to the buffer as the same key. */
  lemma TrailingDotExample()
    ensures Reversed("com.") == Reversed("com") && Reversed("com.") != TrueReversal("com.")
  {
    TrimKeepsReversal("com.");
    assert "com."[..3] == "com";
    assert TrimTrailingDots("com") == "com";
    ReversalFaithfulIff("com.");
  }

  /** Probing is right for every domain exactly on names that do not end in a dot, or hold only dots. */
  lemma ProbeExactIff(name: string)
    requires name != []
    ensures (forall domain: string :: domain != [] && !EndsInDot(domain) ==>
               (Probed(name, domain) <==> Within(name, domain)))
            <==> !EndsInDot(name) || TrimTrailingDots(name) == []
  {
    TrimKeepsReversal(name);
    var core := TrimTrailingDots(name);
    if !EndsInDot(name) {
      forall domain: string | domain != [] && !EndsInDot(domain)
        ensures Probed(name, domain) <==> Within(name, domain)
      {
        ProbeExact(name, domain);
      }
    } else if core == [] {
      SplitDotFree("");
      assert Reversed(name) == Reversed("") == "";
      forall domain: string | domain != [] && !EndsInDot(domain)
        ensures !Probed(name, domain) && !Within(name, domain)
      {
        ReversedLength(domain);
        EndsWithLast(name, domain);
      }
    } else {
      assert Boundary(Reversed(name), |Reversed(name)|);
      assert Reversed(name)[..|Reversed(name)|] == Reversed(core);
      assert Probed(name, core);
      EndsWithLast(name, core);
    }
  }

  // ---- The reversal as the engine writes it ----

  lemma {:induction false} DropStep(done: seq<string>, next: string)
    ensures DropLeadingEmpty(done + [next]) ==
            if DropLeadingEmpty(done) != [] then DropLeadingEmpty(done) + [next]
            else if next == "" then [] else [next]
  {
    if done == [] {
      assert done + [next] == [next];
    } else if done[0] == "" {
      DropStep(done[1..], next);
      assert (done + [next])[1..] == done[1..] + [next];
    }
  }

  lemma {:induction false} DroppedNonEmpty(labels: seq<string>)
    ensures DropLeadingEmpty(labels) != [] ==> DropLeadingEmpty(labels)[0] != ""
  {
    if labels != [] && labels[0] == "" { DroppedNonEmpty(labels[1..]); }
  }

  lemma WrittenStep(done: seq<string>, next: string)
    ensures Written(done + [next]) == if Written(done) == "" then next else Written(done) + "." + next
  {
    DropStep(done, next);
    var rest := DropLeadingEmpty(done);
    if rest != [] {
      DroppedNonEmpty(done);
      JoinedLength(rest);
      JoinAppend(rest, [next]);
    }
  }

  lemma {:induction false} WrittenGrows(labels: seq<string>, k: nat)
    requires k <= |labels|
    ensures |Written(labels[..k])| <= |Written(labels)|
    decreases |labels| - k
  {
    if k == |labels| {
      assert labels[..k] == labels;
    } else {
      assert labels[..k + 1] == labels[..k] + [labels[k]];
      WrittenStep(labels[..k], labels[k]);
      WrittenGrows(labels, k + 1);
    }
  }

  /**
   Write the labels of `domain` in reverse order into `out`; returns the length.
   A reversal longer than the buffer would be an out-of-range slice.
   */
  method ReverseLabelsInto(domain: string, out: array<char>) returns (n: nat)
    requires |Reversed(domain)| <= out.Length
    modifies out
    ensures n <= out.Length && out[..n] == Reversed(domain)
    ensures out[n..] == old(out[n..])
  {
    var labels := Split(domain);
    ghost var rev := Reverse(labels);
    ghost var initial := out[..];
    assert rev[..|labels|] == rev;
    var w := 0;
    var i := |labels|;
    ghost var done: seq<string> := [];
    while i > 0
      invariant 0 <= i <= |labels|
      invariant done == rev[..|labels| - i]
      invariant w == |Written(done)| <= |initial|
      invariant out[..] == Written(done) + initial[w..]
    {
      var part := labels[i - 1];
      ghost var k := |labels| - i;
      ghost var next := done + [part];
      assert next == rev[..k + 1];
      WrittenGrows(rev, k + 1);
      w := WriteLabel(out, w, part, done, initial);
      done := next;
      i := i - 1;
    }
    n := w;
  }

  /** One round of the loop: a separator unless nothing has been written, then the label. */
  method WriteLabel(out: array<char>, w: nat, part: string, ghost done: seq<string>, ghost initial: string)
    returns (end: nat)
    requires w == |Written(done)| <= |initial| && |Written(done + [part])| <= out.Length == |initial|
    requires out[..] == Written(done) + initial[w..]
    modifies out
    ensures end == |Written(done + [part])|
    ensures out[..] == Written(done + [part]) + initial[end..]
  {
    WrittenStep(done, part);
    ghost var before := Written(done);
    end := w;
    if end > 0 {
      CopyBytes(out, end, ".", before, initial);
      before := before + ".";
      end := end + 1;
    }
    CopyBytes(out, end, part, before, initial);
    end := end + |part|;
  }

  method CopyBytes(out: array<char>, w: nat, part: string, ghost before: string, ghost initial: string)
    requires w == |before| && w + |part| <= out.Length == |initial|
    requires out[..] == before + initial[w..]
    modifies out
    ensures out[..] == before + part + initial[w + |part|..]
  {
    forall j | 0 <= j < |part| { out[w + j] := part[j]; }
  }
}
