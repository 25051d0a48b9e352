/**
 The contents of a compiled engine as a value, what it records about each added
 rule, and the text it rebuilds for a rule from its key.
 */
module EngineModel {
  import opened Wrappers
  import opened Labels
  import opened Rules
  import opened Stores
  import opened KeyIndexes
  import opened Wildcards
  import opened Order

  /** A rule together with the index of its list. */
  datatype Logged = Logged(list: nat, rule: Rule)

  function RulesOf(log: seq<Logged>): (rules: seq<Rule>)
    ensures |rules| == |log|
  {
    seq(|log|, i requires 0 <= i < |log| => log[i].rule)
  }

  // ---- Text forms ----

  function StripPrefix(s: string, prefix: string): string {
    if prefix <= s then s[|prefix|..] else s
  }

  /** The rule text without its `@@`. */
  function Body(rule: Rule): string {
    if rule.action.Except? then StripPrefix(rule.text, "@@") else rule.text
  }

  /** How the text of a rule is kept: rebuilt from its key, or verbatim. */
  function FormOf(rule: Rule): nat {
    match rule.pattern
    case Subtree(d) => if Body(rule) == "||" + d + "^" then FORM_SUBTREE else FORM_VERBATIM
    case Exact(d) =>
      if Body(rule) == d then FORM_EXACT
      else if Body(rule) == d + "^" then FORM_EXACT_CARET
      else if !rule.action.Except? && Body(rule) == "0.0.0.0 " + d then FORM_HOSTS_ZERO
      else FORM_VERBATIM
    case Wildcard(_, _) => FORM_VERBATIM
  }

  const EXACT_FORMS := {FORM_EXACT, FORM_EXACT_CARET, FORM_HOSTS_ZERO}
  const SUBTREE_FORMS := {FORM_SUBTREE}

  /** Rules the engine takes without a panic: keys of at most 255 bytes, no slice inside a character. */
  predicate Storable(rule: Rule) {
    match rule.pattern
    case Subtree(d) => |Reversed(d)| <= MAX_KEY
    case Exact(d) =>
      && |d| <= MAX_KEY
      && ("0.0.0.0" <= Body(rule) && |Body(rule)| == 8 + |d| ==> IsCharBoundary(Body(rule), 8))
    case Wildcard(_, _) => true
  }

  /** A canonical text put together around its domain. */
  function Around(at: string, form: nat, domain: string): string {
    if form == FORM_SUBTREE then at + "||" + domain + "^"
    else if form == FORM_EXACT then at + domain
    else if form == FORM_EXACT_CARET then at + domain + "^"
    else "0.0.0.0 " + domain
  }

  /** The text `matched` puts together for a rule. */
  function RebuiltText(rule: Rule): string {
    var at := if rule.action.Except? then "@@" else "";
    if FormOf(rule) == FORM_VERBATIM then Shown(rule.text)
    else if FormOf(rule) == FORM_SUBTREE then Around(at, FORM_SUBTREE, Reversed(Reversed(rule.pattern.domain)))
    else Around(at, FormOf(rule), rule.pattern.domain)
  }

  lemma RebuiltFromDomain(rule: Rule, domain: string)
    requires FormOf(rule) != FORM_VERBATIM
    requires domain == if rule.pattern.Subtree? then Reversed(Reversed(rule.pattern.domain)) else rule.pattern.domain
    ensures RebuiltText(rule) == Around(if rule.action.Except? then "@@" else "", FormOf(rule), domain)
    ensures FormOf(rule) == FORM_SUBTREE <==> rule.pattern.Subtree?
  {
  }

  lemma RebuiltVerbatim(rule: Rule)
    requires FormOf(rule) == FORM_VERBATIM
    ensures RebuiltText(rule) == Shown(rule.text)
  {
  }

  /** An exception carries its `@@`, and a subtree domain has proper first and last labels. */
  predicate TextConsistent(rule: Rule) {
    && (rule.action.Except? ==> "@@" <= rule.text)
    && (rule.pattern.Subtree? ==>
          var d := rule.pattern.domain; d != [] && !EndsInDot(d) && !StartsWithDot(d))
  }

  lemma StripAdds(s: string, prefix: string)
    requires prefix <= s
    ensures s == prefix + StripPrefix(s, prefix)
  {
  }

  lemma Regroup(a: string, b: string, c: string, d: string)
    ensures a + (b + c + d) == a + b + c + d
    ensures a + (b + c) == a + b + c
    ensures "" + a == a
  {
  }

  /** The rebuilt text is the original, or for texts kept verbatim its displayed prefix. */
  lemma RebuiltIsOriginal(rule: Rule)
    requires TextConsistent(rule)
    ensures RebuiltText(rule) == if FormOf(rule) == FORM_VERBATIM then Shown(rule.text) else rule.text
  {
    if FormOf(rule) != FORM_VERBATIM {
      var at := if rule.action.Except? then "@@" else "";
      var d := rule.pattern.domain;
      assert rule.text == at + Body(rule) by {
        if rule.action.Except? { StripAdds(rule.text, "@@"); } else { Regroup(rule.text, "", "", ""); }
      }
      if FormOf(rule) == FORM_SUBTREE {
        ReversalInvolution(d);
        Regroup(at, "||", d, "^");
      } else if FormOf(rule) == FORM_EXACT_CARET {
        Regroup(at, d, "^", "");
      } else if FormOf(rule) == FORM_HOSTS_ZERO {
        Regroup("0.0.0.0 " + d, "", "", "");
      }
    }
  }

  /** In every case what is displayed is a prefix of the original, and all of it up to 255 bytes. */
  lemma RebuiltIsPrefix(rule: Rule)
    requires TextConsistent(rule)
    ensures RebuiltText(rule) <= rule.text
    ensures |rule.text| <= MAX_SPAN ==> RebuiltText(rule) == rule.text
  {
    RebuiltIsOriginal(rule);
  }

  // ---- The engine as a value ----

  datatype EngineView = EngineView(
    store: StoreView, subtree: IndexView, exact: IndexView, wild: WildcardIndex, listCount: nat)
  {
    function CurrentList(): nat {
      if listCount == 0 then 0 else listCount - 1
    }

    /** The engine after one more rule. */
    function Added(rule: Rule): EngineView
      requires store.Parallel()
    {
      var id := |store.lines|;
      var kept := StoreAfter(store, Logged(CurrentList(), rule));
      match rule.pattern
      case Subtree(d) => this.(store := kept, subtree := subtree.Inserted(Reversed(d), id))
      case Exact(d) => this.(store := kept, exact := exact.Inserted(d, id))
      case Wildcard(expr, sub) => this.(store := kept, wild := wild.Added(WildcardEntry(expr, sub, id)))
    }
  }

  const EMPTY_ENGINE := EngineView(StoreView([], [], [], [], [], ""),
                                   IndexView("", [], [], []), IndexView("", [], [], []),
                                   WildcardIndex([], map[], []), 0)

  /** The store after one more rule. */
  function StoreAfter(s: StoreView, l: Logged): (t: StoreView)
    requires s.Parallel()
    ensures t.Parallel() && |t.lines| == |s.lines| + 1
  {
    var pushed := s.Pushed(l.list, l.rule.line, l.rule.action.Except?, FormOf(l.rule));
    if FormOf(l.rule) == FORM_VERBATIM then pushed.WithVerbatim(|s.lines|, l.rule.text) else pushed
  }

  /** The metadata kept for rule `id`. */
  ghost predicate RuleKept(s: StoreView, id: nat, l: Logged) {
    && s.Parallel() && id < |s.lines|
    && s.lists[id] == l.list && s.lines[id] == l.rule.line
    && s.IsExcept(id) == l.rule.action.Except?
    && s.Form(id) == FormOf(l.rule)
    && (FormOf(l.rule) == FORM_VERBATIM ==>
          && s.spanOff[id] + s.spanLen[id] <= |s.verbatim|
          && s.verbatim[s.spanOff[id]..s.spanOff[id] + s.spanLen[id]] == Shown(l.rule.text))
  }

  ghost predicate StoreKeeps(s: StoreView, log: seq<Logged>) {
    && s.Parallel() && |s.lines| == |log|
    && forall id :: 0 <= id < |log| ==> RuleKept(s, id, log[id])
  }

  function SubtreeKey(rule: Rule): Option<string> {
    if rule.pattern.Subtree? then Some(Reversed(rule.pattern.domain)) else None
  }

  function ExactKey(rule: Rule): Option<string> {
    if rule.pattern.Exact? then Some(rule.pattern.domain) else None
  }

  /** The key under which `rule` is filed in the subtree index, or else in the exact one. */
  function KeyIn(rule: Rule, subtree: bool): Option<string> {
    if subtree then SubtreeKey(rule) else ExactKey(rule)
  }

  ghost predicate Holds(v: IndexView, key: string, id: nat)
    requires v.Valid()
  {
    (key, id) in v.Entries()
  }

  /** The index files exactly the rules with a key, each under its key. */
  ghost predicate IndexKeeps(v: IndexView, log: seq<Logged>, subtree: bool) {
    && v.Valid() && Distinct<nat>(v.rules)
    && (forall i :: 0 <= i < |v.rules| ==> v.rules[i] < |log|)
    && (forall key, id: nat :: Holds(v, key, id) <==> id < |log| && KeyIn(log[id].rule, subtree) == Some(key))
  }

  ghost predicate WildKeeps(x: WildcardIndex, log: seq<Logged>) {
    && x.Valid()
    && (forall i :: 0 <= i < |x.entries| ==>
          && x.entries[i].rule < |log|
          && log[x.entries[i].rule].rule.pattern == Wildcard(x.entries[i].expr, x.entries[i].includeSubdomains))
    && (forall id :: 0 <= id < |log| && log[id].rule.pattern.Wildcard? ==>
          exists i :: 0 <= i < |x.entries| && x.entries[i].rule == id)
  }

  /** The engine records exactly the rules of `log`. */
  ghost predicate Records(v: EngineView, log: seq<Logged>) {
    && StoreKeeps(v.store, log)
    && IndexKeeps(v.subtree, log, true)
    && IndexKeeps(v.exact, log, false)
    && WildKeeps(v.wild, log)
  }

  lemma EmptyRecords()
    ensures Records(EMPTY_ENGINE, [])
  {
  }

  // ---- Adding a rule ----

  /** Later texts leave the span of an earlier one as it was. */
  lemma SpanSurvives(verbatim: string, more: string, lo: nat, hi: nat)
    requires lo <= hi <= |verbatim|
    ensures (verbatim + more)[lo..hi] == verbatim[lo..hi]
  {
  }

  lemma SpanOfLast(verbatim: string, text: string, n: nat)
    requires n <= |text|
    ensures (verbatim + text)[|verbatim|..|verbatim| + n] == text[..n]
  {
  }

  lemma OldRuleKept(s: StoreView, t: StoreView, id: nat, l: Logged, more: string)
    requires RuleKept(s, id, l) && t.Parallel() && |t.lines| == |s.lines| + 1
    requires t.lists[id] == s.lists[id] && t.lines[id] == s.lines[id] && t.flags[id] == s.flags[id]
    requires t.spanOff[id] == s.spanOff[id] && t.spanLen[id] == s.spanLen[id]
    requires t.verbatim == s.verbatim + more
    ensures RuleKept(t, id, l)
  {
    if FormOf(l.rule) == FORM_VERBATIM {
      SpanSurvives(s.verbatim, more, s.spanOff[id], s.spanOff[id] + s.spanLen[id]);
    }
  }

  lemma NewRuleKept(s: StoreView, l: Logged)
    requires s.Parallel()
    ensures RuleKept(StoreAfter(s, l), |s.lines|, l)
  {
    SpanOfLast(s.verbatim, l.rule.text, |Shown(l.rule.text)|);
  }

  lemma StoreKeepsMore(s: StoreView, log: seq<Logged>, l: Logged)
    requires StoreKeeps(s, log)
    ensures StoreKeeps(StoreAfter(s, l), log + [l])
  {
    var t := StoreAfter(s, l);
    var more := if FormOf(l.rule) == FORM_VERBATIM then l.rule.text else "";
    assert t.verbatim == s.verbatim + more;
    forall i | 0 <= i <= |s.lines| ensures RuleKept(t, i, (log + [l])[i]) {
      if i < |s.lines| {
        OldRuleKept(s, t, i, log[i], more);
      } else {
        NewRuleKept(s, l);
      }
    }
  }

  lemma IndexKeepsOther(v: IndexView, log: seq<Logged>, subtree: bool, l: Logged)
    requires IndexKeeps(v, log, subtree) && KeyIn(l.rule, subtree).None?
    ensures IndexKeeps(v, log + [l], subtree)
  {
    forall key, id: nat
      ensures Holds(v, key, id) <==> id < |log + [l]| && KeyIn((log + [l])[id].rule, subtree) == Some(key)
    {
      if id < |log| { assert (log + [l])[id] == log[id]; }
    }
  }

  lemma IndexKeepsMore(v: IndexView, log: seq<Logged>, subtree: bool, l: Logged, key: string)
    requires IndexKeeps(v, log, subtree) && KeyIn(l.rule, subtree) == Some(key) && |key| <= MAX_KEY
    ensures IndexKeeps(v.Inserted(key, |log|), log + [l], subtree)
  {
    var w := v.Inserted(key, |log|);
    InsertedEntries(v, key, |log|);
    DistinctAppend<nat>(v.rules, |log|);
    forall k, id: nat
      ensures Holds(w, k, id) <==> id < |log + [l]| && KeyIn((log + [l])[id].rule, subtree) == Some(k)
    {
      assert Holds(w, k, id) <==> Holds(v, k, id) || (k, id) == (key, |log|);
      if id < |log| { assert (log + [l])[id] == log[id]; }
    }
  }

  lemma WildKeepsOther(x: WildcardIndex, log: seq<Logged>, l: Logged)
    requires WildKeeps(x, log) && !l.rule.pattern.Wildcard?
    ensures WildKeeps(x, log + [l])
  {
    forall id | 0 <= id < |log + [l]| && (log + [l])[id].rule.pattern.Wildcard?
      ensures exists i :: 0 <= i < |x.entries| && x.entries[i].rule == id
    {
      assert log[id] == (log + [l])[id];
    }
  }

  lemma WildKeepsMore(x: WildcardIndex, log: seq<Logged>, l: Logged)
    requires WildKeeps(x, log) && l.rule.pattern.Wildcard?
    ensures WildKeeps(x.Added(WildcardEntry(l.rule.pattern.expr, l.rule.pattern.includeSubdomains, |log|)), log + [l])
  {
    var w := WildcardEntry(l.rule.pattern.expr, l.rule.pattern.includeSubdomains, |log|);
    AddedStaysValid(x, w);
    var y := x.Added(w);
    assert y.entries == x.entries + [w];
    forall id | 0 <= id < |log + [l]| && (log + [l])[id].rule.pattern.Wildcard?
      ensures exists i :: 0 <= i < |y.entries| && y.entries[i].rule == id
    {
      if id < |log| {
        assert log[id] == (log + [l])[id];
        var i :| 0 <= i < |x.entries| && x.entries[i].rule == id;
        assert y.entries[i].rule == id;
      } else {
        assert y.entries[|x.entries|].rule == id;
      }
    }
  }

  /** Adding a rule records exactly one more rule, in the current list. */
  lemma AddedRecords(v: EngineView, log: seq<Logged>, rule: Rule)
    requires Records(v, log) && Storable(rule)
    ensures Records(v.Added(rule), log + [Logged(v.CurrentList(), rule)])
  {
    var l := Logged(v.CurrentList(), rule);
    StoreKeepsMore(v.store, log, l);
    match rule.pattern
    case Subtree(d) =>
      IndexKeepsMore(v.subtree, log, true, l, Reversed(d));
      IndexKeepsOther(v.exact, log, false, l);
      WildKeepsOther(v.wild, log, l);
    case Exact(d) =>
      IndexKeepsOther(v.subtree, log, true, l);
      IndexKeepsMore(v.exact, log, false, l, d);
      WildKeepsOther(v.wild, log, l);
    case Wildcard(_, _) =>
      IndexKeepsOther(v.subtree, log, true, l);
      IndexKeepsOther(v.exact, log, false, l);
      WildKeepsMore(v.wild, log, l);
  }

  // ---- Finishing ----

  /** The spans of canonical rules point at their key in the arena of `v`. */
  ghost predicate SpansAtKeys(s: StoreView, v: IndexView, log: seq<Logged>, forms: set<nat>, subtree: bool) {
    forall id :: 0 <= id < |log| && FormOf(log[id].rule) in forms ==>
      SpanReads(s, id, v.arena, KeyIn(log[id].rule, subtree))
  }

  /** The span of rule `id` reads `key` in `arena`. */
  ghost predicate SpanReads(s: StoreView, id: nat, arena: string, key: Option<string>) {
    && id < |s.spanOff| == |s.spanLen| && key.Some?
    && s.spanLen[id] <= MAX_KEY && s.spanOff[id] + s.spanLen[id] <= |arena|
    && arena[s.spanOff[id]..s.spanOff[id] + s.spanLen[id]] == key.value
  }

  /** A finished engine: everything recorded, both indexes sorted, every span final. */
  ghost predicate Finished(v: EngineView, log: seq<Logged>) {
    && Records(v, log)
    && Sorted(v.subtree.Keys()) && Sorted(v.exact.Keys())
    && SpansAtKeys(v.store, v.subtree, log, SUBTREE_FORMS, true)
    && SpansAtKeys(v.store, v.exact, log, EXACT_FORMS, false)
  }

  lemma FinishKeepsIndex(before: IndexView, after: IndexView, log: seq<Logged>, subtree: bool)
    requires IndexKeeps(before, log, subtree) && FinishedFrom(before, after) && Distinct<nat>(after.rules)
    requires forall i :: 0 <= i < |after.rules| ==> after.rules[i] < |log|
    ensures IndexKeeps(after, log, subtree)
  {
    forall key, id: nat ensures Holds(after, key, id) <==> Holds(before, key, id) {
      assert Holds(after, key, id) <==> (key, id) in multiset(after.Entries());
      assert Holds(before, key, id) <==> (key, id) in multiset(before.Entries());
    }
  }

  /** Moving spans of canonical rules leaves every other record alone. */
  lemma StoreKeepsAfterSpans(before: StoreView, after: StoreView, log: seq<Logged>)
    requires StoreKeeps(before, log) && |after.spanOff| == |after.spanLen| == |log|
    requires after == before.(spanOff := after.spanOff, spanLen := after.spanLen)
    requires forall id :: 0 <= id < |log| && before.Form(id) == FORM_VERBATIM ==>
               after.spanOff[id] == before.spanOff[id] && after.spanLen[id] == before.spanLen[id]
    ensures StoreKeeps(after, log)
  {
    forall id | 0 <= id < |log| ensures RuleKept(after, id, log[id]) {
      assert RuleKept(before, id, log[id]);
    }
  }

  /** Span offset and length of every canonical rule of the index are those of its entry. */
  ghost predicate SpansAtEntries(s: StoreView, v: IndexView, forms: set<nat>)
    requires v.Valid() && s.Parallel()
    requires forall i :: 0 <= i < |v.rules| ==> v.rules[i] < |s.lines|
  {
    forall i :: 0 <= i < |v.rules| && s.Form(v.rules[i]) in forms ==>
      s.spanOff[v.rules[i]] == v.offs[i] && s.spanLen[v.rules[i]] == v.lens[i]
  }

  lemma SpansReachKeys(s: StoreView, v: IndexView, log: seq<Logged>, forms: set<nat>, subtree: bool)
    requires StoreKeeps(s, log) && IndexKeeps(v, log, subtree)
    requires SpansAtEntries(s, v, forms)
    requires forall id :: 0 <= id < |log| && FormOf(log[id].rule) in forms ==> KeyIn(log[id].rule, subtree).Some?
    ensures SpansAtKeys(s, v, log, forms, subtree)
  {
    forall id | 0 <= id < |log| && FormOf(log[id].rule) in forms
      ensures SpanReads(s, id, v.arena, KeyIn(log[id].rule, subtree))
    {
      var key := KeyIn(log[id].rule, subtree).value;
      assert Holds(v, key, id);
      var i :| 0 <= i < |v.Entries()| && v.Entries()[i] == (key, id);
      assert RuleKept(s, id, log[id]);
      assert v.rules[i] == id && v.Key(i) == key;
    }
  }

  /** The lengths of canonical spans are those of their keys; all other lengths are as before. */
  ghost predicate LensSet(before: StoreView, after: StoreView, v: IndexView, n: nat, forms: set<nat>)
    requires n <= |v.rules| == |v.lens| && before.Parallel()
    requires forall i :: 0 <= i < |v.rules| ==> v.rules[i] < |before.flags|
  {
    && |after.spanLen| == |before.spanLen|
    && after == before.(spanLen := after.spanLen)
    && (forall i :: 0 <= i < n && before.Form(v.rules[i]) in forms ==> after.spanLen[v.rules[i]] == v.lens[i])
    && (forall id :: 0 <= id < |before.spanLen| && before.Form(id) !in forms ==>
          after.spanLen[id] == before.spanLen[id])
  }

  /** Both indexes finished and both span passes made: the engine is finished. */
  lemma FinishedAfterPasses(v: EngineView, log: seq<Logged>, subtree: IndexView, exact: IndexView,
                            s1: StoreView, s2: StoreView, s3: StoreView, s4: StoreView)
    requires Records(v, log)
    requires FinishedFrom(v.subtree, subtree) && FinishedFrom(v.exact, exact)
    requires Distinct<nat>(subtree.rules) && Distinct<nat>(exact.rules)
    requires forall i :: 0 <= i < |subtree.rules| ==> subtree.rules[i] < |log|
    requires forall i :: 0 <= i < |exact.rules| ==> exact.rules[i] < |log|
    requires Relocated(v.store, s1, subtree, SUBTREE_FORMS) && Relocated(s1, s2, exact, EXACT_FORMS)
    requires LensSet(s2, s3, subtree, |subtree.rules|, SUBTREE_FORMS)
    requires LensSet(s3, s4, exact, |exact.rules|, EXACT_FORMS)
    ensures Finished(v.(store := s4, subtree := subtree, exact := exact), log)
  {
    FinishKeepsIndex(v.subtree, subtree, log, true);
    FinishKeepsIndex(v.exact, exact, log, false);
    PassesKeepStore(v.store, s1, s2, s3, s4, subtree, exact, log);
    SubtreeSpansFinal(v.store, s1, s2, s3, s4, subtree, exact, log);
    ExactSpansFinal(v.store, s1, s2, s3, s4, subtree, exact, log);
  }

  lemma SubtreeSpansFinal(s: StoreView, s1: StoreView, s2: StoreView, s3: StoreView, s4: StoreView,
                          subtree: IndexView, exact: IndexView, log: seq<Logged>)
    requires s.Parallel() && |s.lines| == |log| && IdsBelow(subtree, |log|) && IdsBelow(exact, |log|)
    requires IndexKeeps(subtree, log, true) && StoreKeeps(s4, log)
    requires Relocated(s, s1, subtree, SUBTREE_FORMS) && Relocated(s1, s2, exact, EXACT_FORMS)
    requires LensSet(s2, s3, subtree, |subtree.rules|, SUBTREE_FORMS)
    requires LensSet(s3, s4, exact, |exact.rules|, EXACT_FORMS)
    ensures SpansAtKeys(s4, subtree, log, SUBTREE_FORMS, true)
  {
    SubtreeSpansSurvive(s, s1, s2, s3, s4, subtree, exact);
    SpansReachKeys(s4, subtree, log, SUBTREE_FORMS, true);
  }

  lemma ExactSpansFinal(s: StoreView, s1: StoreView, s2: StoreView, s3: StoreView, s4: StoreView,
                        subtree: IndexView, exact: IndexView, log: seq<Logged>)
    requires s.Parallel() && |s.lines| == |log| && IdsBelow(subtree, |log|) && IdsBelow(exact, |log|)
    requires IndexKeeps(exact, log, false) && StoreKeeps(s4, log)
    requires Relocated(s, s1, subtree, SUBTREE_FORMS) && Relocated(s1, s2, exact, EXACT_FORMS)
    requires LensSet(s2, s3, subtree, |subtree.rules|, SUBTREE_FORMS)
    requires LensSet(s3, s4, exact, |exact.rules|, EXACT_FORMS)
    ensures SpansAtKeys(s4, exact, log, EXACT_FORMS, false)
  {
    ExactSpansSurvive(s1, s2, s3, s4, subtree, exact);
    SpansReachKeys(s4, exact, log, EXACT_FORMS, false);
  }

  ghost predicate IdsBelow(v: IndexView, n: nat) {
    v.Valid() && forall i :: 0 <= i < |v.rules| ==> v.rules[i] < n
  }

  lemma SubtreeSpansSurvive(s: StoreView, s1: StoreView, s2: StoreView, s3: StoreView, s4: StoreView,
                            subtree: IndexView, exact: IndexView)
    requires s.Parallel() && IdsBelow(subtree, |s.lines|) && IdsBelow(exact, |s.lines|)
    requires Relocated(s, s1, subtree, SUBTREE_FORMS) && Relocated(s1, s2, exact, EXACT_FORMS)
    requires LensSet(s2, s3, subtree, |subtree.rules|, SUBTREE_FORMS)
    requires LensSet(s3, s4, exact, |exact.rules|, EXACT_FORMS)
    ensures s4.Parallel() && |s4.lines| == |s.lines|
    ensures SpansAtEntries(s4, subtree, SUBTREE_FORMS)
  {
    forall i | 0 <= i < |subtree.rules| && s4.Form(subtree.rules[i]) in SUBTREE_FORMS
      ensures s4.spanOff[subtree.rules[i]] == subtree.offs[i] && s4.spanLen[subtree.rules[i]] == subtree.lens[i]
    {
      var id := subtree.rules[i];
      assert s.Form(id) == s1.Form(id) == s2.Form(id) == s3.Form(id) == FORM_SUBTREE;
    }
  }

  lemma ExactSpansSurvive(s1: StoreView, s2: StoreView, s3: StoreView, s4: StoreView,
                          subtree: IndexView, exact: IndexView)
    requires s1.Parallel() && IdsBelow(subtree, |s1.lines|) && IdsBelow(exact, |s1.lines|)
    requires Relocated(s1, s2, exact, EXACT_FORMS)
    requires LensSet(s2, s3, subtree, |subtree.rules|, SUBTREE_FORMS)
    requires LensSet(s3, s4, exact, |exact.rules|, EXACT_FORMS)
    ensures s4.Parallel() && |s4.lines| == |s1.lines|
    ensures SpansAtEntries(s4, exact, EXACT_FORMS)
  {
    forall i | 0 <= i < |exact.rules| && s4.Form(exact.rules[i]) in EXACT_FORMS
      ensures s4.spanOff[exact.rules[i]] == exact.offs[i] && s4.spanLen[exact.rules[i]] == exact.lens[i]
    {
      var id := exact.rules[i];
      assert s1.Form(id) == s2.Form(id) == s3.Form(id) == s4.Form(id);
    }
  }

  lemma PassesKeepStore(s: StoreView, s1: StoreView, s2: StoreView, s3: StoreView, s4: StoreView,
                        subtree: IndexView, exact: IndexView, log: seq<Logged>)
    requires StoreKeeps(s, log) && subtree.Valid() && exact.Valid()
    requires forall i :: 0 <= i < |subtree.rules| ==> subtree.rules[i] < |log|
    requires forall i :: 0 <= i < |exact.rules| ==> exact.rules[i] < |log|
    requires Relocated(s, s1, subtree, SUBTREE_FORMS) && Relocated(s1, s2, exact, EXACT_FORMS)
    requires LensSet(s2, s3, subtree, |subtree.rules|, SUBTREE_FORMS)
    requires LensSet(s3, s4, exact, |exact.rules|, EXACT_FORMS)
    ensures StoreKeeps(s4, log)
  {
    forall id | 0 <= id < |log| && s.Form(id) == FORM_VERBATIM
      ensures s4.spanOff[id] == s.spanOff[id] && s4.spanLen[id] == s.spanLen[id]
    {
      assert s1.Form(id) == s2.Form(id) == s3.Form(id) == FORM_VERBATIM;
    }
    StoreKeepsAfterSpans(s, s4, log);
  }
}
