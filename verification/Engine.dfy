/** The compiled filter engine, updated in place as lists are added and read by `Verdict`. */
module Engines {
  import opened Wrappers
  import opened Labels
  import opened Rules
  import opened Stores
  import opened KeyIndexes
  import opened Wildcards
  import opened Order
  import opened EngineModel

  const MAX_LISTS: nat := 65536

  datatype MatchedRule = MatchedRule(action: RuleAction, text: string, line: nat)

  datatype Verdict =
    | NoMatch
    | BlockedBy(list: nat, rule: MatchedRule)
    | ExceptedBy(list: nat, rule: MatchedRule)

  function KindOf(v: Verdict): Kind {
    match v
    case NoMatch => KNoMatch
    case BlockedBy(_, _) => KBlock
    case ExceptedBy(_, _) => KExcept
  }

  /** What is reported about a logged rule. */
  function Report(l: Logged): (nat, MatchedRule) {
    (l.list, MatchedRule(l.rule.action, RebuiltText(l.rule), l.rule.line))
  }

  /** The verdict names a rule of the log that the engine's tests match, with its own list and line. */
  ghost predicate Justified(v: Verdict, log: seq<Logged>, query: string) {
    v.NoMatch? || exists id :: 0 <= id < |log| && Names(v, log[id], query)
  }

  ghost predicate Names(v: Verdict, l: Logged, query: string)
    requires !v.NoMatch?
  {
    && EngineMatches(l.rule.pattern, Normalized(query))
    && (v.list, v.rule) == Report(l)
    && (v.ExceptedBy? <==> l.rule.action.Except?)
  }

  class Engine {
    const store: Store
    const subtree: KeyIndex
    const exact: KeyIndex
    var wild: WildcardIndex
    var listCount: nat
    /** Every rule added, with its list. */
    ghost var log: seq<Logged>

    function View(): EngineView
      reads this, store, subtree, exact
    {
      EngineView(store.View(), subtree.View(), exact.View(), wild, listCount)
    }

    ghost predicate Valid()
      reads this, store, subtree, exact
    {
      subtree != exact && Records(View(), log)
    }

    ghost predicate Ready()
      reads this, store, subtree, exact
    {
      subtree != exact && Finished(View(), log)
    }

    constructor ()
      ensures Valid() && log == [] && View() == EMPTY_ENGINE
      ensures fresh(store) && fresh(subtree) && fresh(exact)
    {
      store := new Store();
      subtree := new KeyIndex();
      exact := new KeyIndex();
      wild := WildcardIndex([], map[], []);
      listCount := 0;
      log := [];
      new;
      EmptyRecords();
      assert View() == EMPTY_ENGINE;
    }

    /** Start a new list; list indexes are kept in sixteen bits. */
    method BeginList() returns (list: nat)
      requires Valid() && listCount < MAX_LISTS
      modifies this`listCount
      ensures Valid() && list == old(listCount)
      ensures View() == old(View()).(listCount := old(listCount) + 1)
    {
      list := listCount;
      listCount := listCount + 1;
    }

    /** Compact one rule into the current list. */
    method AddRule(rule: Rule)
      requires Valid() && Storable(rule) && listCount <= MAX_LISTS
      modifies this`wild, this`log, store, subtree, exact
      ensures Valid()
      ensures View() == old(View()).Added(rule)
      ensures log == old(log) + [Logged(old(View()).CurrentList(), rule)]
    {
      AddedRecords(View(), log, rule);
      log := log + [Logged(View().CurrentList(), rule)];
      Append(rule);
    }

    method Append(rule: Rule)
      requires subtree != exact && store.View().Parallel() && Storable(rule)
      modifies this`wild, store, subtree, exact
      ensures View() == old(View()).Added(rule)
    {
      var list := if listCount == 0 then 0 else listCount - 1;
      var id := KeepMetadata(list, rule);
      match rule.pattern {
        case Subtree(d) =>
          InsertReversed(d, id);
        case Exact(d) =>
          exact.Insert(d, id);
        case Wildcard(expr, sub) =>
          wild := wild.Added(WildcardEntry(expr, sub, id));
      }
    }

    method KeepMetadata(list: nat, rule: Rule) returns (id: nat)
      requires store.View().Parallel()
      modifies store
      ensures id == old(|store.lines|)
      ensures store.View() == StoreAfter(old(store.View()), Logged(list, rule))
    {
      var form := FormOf(rule);
      id := store.Push(list, rule.line, rule.action.Except?, form);
      if form == FORM_VERBATIM {
        store.PushVerbatim(id, rule.text);
      }
    }

    method InsertReversed(d: string, id: nat)
      requires |Reversed(d)| <= MAX_KEY
      modifies subtree
      ensures subtree.View() == old(subtree.View()).Inserted(Reversed(d), id)
    {
      var buf := new char[256];
      var n := ReverseLabelsInto(d, buf);
      subtree.Insert(buf[..n], id);
    }

    /** Sort both indexes and make every span final. */
    method Finish()
      requires Valid()
      modifies store, subtree, exact
      ensures Ready() && log == old(log)
      ensures wild == old(wild) && listCount == old(listCount)
    {
      ghost var v0 := View();
      subtree.Finish(store, SUBTREE_FORMS);
      ghost var s1 := store.View();
      exact.Finish(store, EXACT_FORMS);
      ghost var s2 := store.View();
      SetLens(subtree.View(), SUBTREE_FORMS);
      ghost var s3 := store.View();
      SetLens(exact.View(), EXACT_FORMS);
      FinishedAfterPasses(v0, log, subtree.View(), exact.View(), s1, s2, s3, store.View());
    }

    /** Canonical spans take the length of their key, now that offsets are final. */
    method SetLens(v: IndexView, forms: set<nat>)
      requires |v.rules| == |v.lens| && store.View().Parallel() && Distinct<nat>(v.rules)
      requires forall i :: 0 <= i < |v.rules| ==> v.rules[i] < |store.flags|
      modifies store
      ensures LensSet(old(store.View()), store.View(), v, |v.rules|, forms)
    {
      ghost var s0 := store.View();
      var i := 0;
      while i < |v.rules|
        invariant 0 <= i <= |v.rules|
        invariant LensSet(s0, store.View(), v, i, forms)
      {
        var rule := v.rules[i];
        if store.View().Form(rule) in forms {
          store.spanLen := store.spanLen[rule := v.lens[i]];
        }
        i := i + 1;
      }
    }

    /** List index and rule of id `id`, the text rebuilt from the key for canonical forms. */
    method Matched(id: nat) returns (list: nat, rule: MatchedRule)
      requires Ready() && id < |log|
      ensures (list, rule) == Report(log[id])
    {
      ghost var l := log[id];
      assert RuleKept(store.View(), id, l);
      assert FormOf(l.rule) == FORM_SUBTREE ==> FormOf(l.rule) in SUBTREE_FORMS;
      var text := MatchedText(id, l);
      var s := store.View();
      rule := MatchedRule(if s.IsExcept(id) then RuleAction.Except else RuleAction.Block, text, s.lines[id]);
      list := s.lists[id];
    }

    method MatchedText(id: nat, ghost l: Logged) returns (text: string)
      requires RuleKept(store.View(), id, l)
      requires FormOf(l.rule) == FORM_SUBTREE ==> SpanReads(store.View(), id, subtree.arena, SubtreeKey(l.rule))
      requires FormOf(l.rule) in EXACT_FORMS ==> SpanReads(store.View(), id, exact.arena, ExactKey(l.rule))
      ensures text == RebuiltText(l.rule)
    {
      var s := store.View();
      var off, len := s.spanOff[id], s.spanLen[id];
      if s.Form(id) == FORM_SUBTREE {
        ReversedLength(subtree.arena[off..off + len]);
        var domain := ReadReversed(subtree.arena[off..off + len]);
        text := Around(if s.IsExcept(id) then "@@" else "", FORM_SUBTREE, domain);
        RebuiltFromDomain(l.rule, domain);
      } else if s.Form(id) in EXACT_FORMS {
        var domain := exact.arena[off..off + len];
        text := Around(if s.IsExcept(id) then "@@" else "", s.Form(id), domain);
        RebuiltFromDomain(l.rule, domain);
      } else {
        text := s.verbatim[off..off + len];
        RebuiltVerbatim(l.rule);
      }
    }

    static method ReadReversed(key: string) returns (domain: string)
      requires |Reversed(key)| <= 256
      ensures domain == Reversed(key)
    {
      var buf := new char[256];
      var n := ReverseLabelsInto(key, buf);
      domain := buf[..n];
    }

    // ---- The search ----

    /** The rules that match the name by the engine's tests. */
    ghost function HitSet(name: string): (hits: set<nat>)
      reads this`log
      ensures forall id :: id in hits ==> id < |log|
    {
      set id: nat | id < |log| && EngineMatches(log[id].rule.pattern, name)
    }

    ghost predicate Excepting(id: nat)
      reads this`log
    {
      id < |log| && log[id].rule.action.Except?
    }

    /** Progress of a search: block rules among `hits` seen so far, and the one to report. */
    ghost predicate Searching(seen: set<nat>, block: Option<nat>, hits: set<nat>)
      reads this`log
    {
      && seen <= hits
      && (forall id :: id in hits ==> id < |log|)
      && (forall id :: id in seen ==> !Excepting(id))
      && (block.Some? ==> block.value in seen)
      && (block.None? ==> seen == {})
    }

    /** What one phase of the search hands on: an exception among `hits`, or more block rules. */
    ghost predicate Progress(hit: Option<nat>, seen: set<nat>, block': Option<nat>, seen': set<nat>, hits: set<nat>)
      reads this`log
    {
      if hit.Some? then hit.value in hits && Excepting(hit.value)
      else Searching(seen', block', hits) && seen <= seen'
    }

    /** Take the matching rules `ids` in turn; an exception is handed back at once. */
    method ConsiderAll(ids: seq<nat>, block: Option<nat>, ghost seen: set<nat>, ghost hits: set<nat>)
      returns (hit: Option<nat>, block': Option<nat>, ghost seen': set<nat>)
      requires StoreKeeps(store.View(), log) && Searching(seen, block, hits)
      requires forall i :: 0 <= i < |ids| ==> ids[i] in hits
      ensures Progress(hit, seen, block', seen', hits)
      ensures hit.None? ==> forall id :: id in ids ==> id in seen'
    {
      hit, block', seen' := None, block, seen;
      var i := 0;
      while i < |ids|
        invariant 0 <= i <= |ids| && hit.None?
        invariant Searching(seen', block', hits) && seen <= seen'
        invariant forall j :: 0 <= j < i ==> ids[j] in seen'
      {
        var id := ids[i];
        assert RuleKept(store.View(), id, log[id]);
        if store.View().IsExcept(id) {
          hit := Some(id);
          return;
        }
        if block'.None? { block' := Some(id); }
        seen' := seen' + {id};
        i := i + 1;
      }
    }

    /** Every rule among `hits` with this kind of pattern has been seen. */
    ghost predicate ExactSeen(hits: set<nat>, seen: set<nat>)
      reads this`log
    {
      forall id :: id in hits && id < |log| && log[id].rule.pattern.Exact? ==> id in seen
    }

    ghost predicate SubtreeSeen(hits: set<nat>, seen: set<nat>)
      reads this`log
    {
      forall id :: id in hits && id < |log| && log[id].rule.pattern.Subtree? ==> id in seen
    }

    ghost predicate WildcardSeen(hits: set<nat>, seen: set<nat>)
      reads this`log
    {
      forall id :: id in hits && id < |log| && log[id].rule.pattern.Wildcard? ==> id in seen
    }

    method SearchExact(name: string, block: Option<nat>, ghost seen: set<nat>, ghost hits: set<nat>)
      returns (hit: Option<nat>, block': Option<nat>, ghost seen': set<nat>)
      requires StoreKeeps(store.View(), log) && Searching(seen, block, hits) && hits == HitSet(name)
      requires IndexKeeps(exact.View(), log, false) && Sorted(exact.View().Keys())
      ensures Progress(hit, seen, block', seen', hits)
      ensures hit.None? ==> ExactSeen(hits, seen')
    {
      var ids := exact.EqualRange(name);
      forall i | 0 <= i < |ids| ensures ids[i] in hits {
        assert ids[i] in ids;
        assert Holds(exact.View(), name, ids[i]);
      }
      hit, block', seen' := ConsiderAll(ids, block, seen, hits);
      forall id | hit.None? && id in hits && log[id].rule.pattern.Exact? ensures id in seen' {
        assert Holds(exact.View(), name, id);
      }
    }

    /** Every subtree rule filed under the prefix that ends at `e` is in `ids`. */
    ghost predicate PrefixIn(rev: string, e: int, ids: set<nat>)
      requires 0 <= e <= |rev| && subtree.View().Valid()
      reads this, subtree
    {
      forall id: nat :: Holds(subtree.View(), rev[..e], id) ==> id in ids
    }

    ghost predicate PrefixesIn(rev: string, n: nat, ids: set<nat>)
      requires n <= |rev| + 1 && subtree.View().Valid()
      reads this, subtree
    {
      forall e :: 0 <= e < n && Boundary(rev, e) ==> PrefixIn(rev, e, ids)
    }

    lemma PrefixesStep(rev: string, n: nat, before: set<nat>, ids: set<nat>)
      requires subtree.View().Valid()
      requires n <= |rev| && PrefixesIn(rev, n, before) && before <= ids
      requires Boundary(rev, n) ==> PrefixIn(rev, n, ids)
      ensures PrefixesIn(rev, n + 1, ids)
    {
      forall e | 0 <= e < n + 1 && Boundary(rev, e) ensures PrefixIn(rev, e, ids) {
        if e < n { assert PrefixIn(rev, e, before); }
      }
    }

    /** Probe every label-boundary prefix of the reversed name. */
    method SearchSubtree(name: string, block: Option<nat>, ghost seen: set<nat>, ghost hits: set<nat>)
      returns (hit: Option<nat>, block': Option<nat>, ghost seen': set<nat>)
      requires StoreKeeps(store.View(), log) && Searching(seen, block, hits) && hits == HitSet(name)
      requires IndexKeeps(subtree.View(), log, true) && Sorted(subtree.View().Keys())
      requires |Reversed(name)| <= 256
      ensures Progress(hit, seen, block', seen', hits)
      ensures hit.None? ==> SubtreeSeen(hits, seen')
    {
      var rev := ReadReversed(name);
      forall e | 0 <= e < |rev| + 1 && Boundary(rev, e) ensures PrefixIn(rev, e, hits) {
        forall id: nat | Holds(subtree.View(), rev[..e], id) ensures id in hits {
          assert EngineMatches(log[id].rule.pattern, name);
        }
      }
      hit, block', seen' := ProbeAll(rev, block, seen, hits);
      forall id | hit.None? && id in hits && log[id].rule.pattern.Subtree? ensures id in seen' {
        var e :| Boundary(rev, e) && rev[..e] == Reversed(log[id].rule.pattern.domain);
        assert PrefixIn(rev, e, seen');
        assert Holds(subtree.View(), rev[..e], id);
      }
    }

    method ProbeAll(rev: string, block: Option<nat>, ghost seen: set<nat>, ghost hits: set<nat>)
      returns (hit: Option<nat>, block': Option<nat>, ghost seen': set<nat>)
      requires StoreKeeps(store.View(), log) && Searching(seen, block, hits)
      requires subtree.View().Valid() && Sorted(subtree.View().Keys())
      requires PrefixesIn(rev, |rev| + 1, hits)
      ensures Progress(hit, seen, block', seen', hits)
      ensures hit.None? ==> PrefixesIn(rev, |rev| + 1, seen')
    {
      hit, block', seen' := None, block, seen;
      var end := 0;
      while end <= |rev|
        invariant 0 <= end <= |rev| + 1 && hit.None?
        invariant Searching(seen', block', hits) && seen <= seen'
        invariant PrefixesIn(rev, end, seen')
      {
        ghost var before := seen';
        if end == |rev| || rev[end] == '.' {
          assert Boundary(rev, end);
          hit, block', seen' := ProbePrefix(rev, end, block', seen', hits);
          if hit.Some? { return; }
        }
        PrefixesStep(rev, end, before, seen');
        end := end + 1;
      }
    }

    method ProbePrefix(rev: string, end: nat, block: Option<nat>, ghost seen: set<nat>, ghost hits: set<nat>)
      returns (hit: Option<nat>, block': Option<nat>, ghost seen': set<nat>)
      requires StoreKeeps(store.View(), log) && Searching(seen, block, hits)
      requires subtree.View().Valid() && Sorted(subtree.View().Keys())
      requires end <= |rev| && PrefixIn(rev, end, hits)
      ensures Progress(hit, seen, block', seen', hits)
      ensures hit.None? ==> PrefixIn(rev, end, seen')
    {
      var key := rev[..end];
      var ids := subtree.EqualRange(key);
      forall i | 0 <= i < |ids| ensures ids[i] in hits {
        assert ids[i] in ids;
        assert Holds(subtree.View(), key, ids[i]);
      }
      hit, block', seen' := ConsiderAll(ids, block, seen, hits);
    }

    /** Wildcard `i` does not match the name, or its rule is in `ids`. */
    ghost predicate RunIn(i: nat, name: string, ids: set<nat>)
      reads this`wild
    {
      i < |wild.entries| &&
      (RunOnName(wild.entries[i].expr, wild.entries[i].includeSubdomains, name) ==> wild.entries[i].rule in ids)
    }

    /** What the wildcard phase needs of the engine. */
    ghost predicate WildcardsReady(name: string, hits: set<nat>)
      reads this`log, this`wild, store
    {
      && StoreKeeps(store.View(), log)
      && wild.Valid()
      && (forall i :: 0 <= i < |wild.entries| ==> wild.entries[i].rule < |log| && RunIn(i, name, hits))
    }

    method CheckOne(i: nat, name: string, block: Option<nat>, ghost seen: set<nat>, ghost hits: set<nat>)
      returns (hit: Option<nat>, block': Option<nat>, ghost seen': set<nat>)
      requires WildcardsReady(name, hits) && Searching(seen, block, hits) && i < |wild.entries|
      ensures Progress(hit, seen, block', seen', hits)
      ensures hit.None? ==> RunIn(i, name, seen')
    {
      hit, block', seen' := None, block, seen;
      var w := wild.entries[i];
      var matched := WildcardMatches(w.expr, name, w.includeSubdomains);
      if matched {
        assert RunIn(i, name, hits);
        var ids := [w.rule];
        hit, block', seen' := ConsiderAll(ids, block, seen, hits);
        assert ids[0] in ids;
      }
    }

    /** Run the wildcards `idxs` on the name. */
    method CheckAll(idxs: seq<nat>, name: string, block: Option<nat>, ghost seen: set<nat>, ghost hits: set<nat>)
      returns (hit: Option<nat>, block': Option<nat>, ghost seen': set<nat>)
      requires WildcardsReady(name, hits) && Searching(seen, block, hits)
      requires forall k :: 0 <= k < |idxs| ==> idxs[k] < |wild.entries|
      ensures Progress(hit, seen, block', seen', hits)
      ensures hit.None? ==> forall k :: 0 <= k < |idxs| ==> RunIn(idxs[k], name, seen')
    {
      hit, block', seen' := None, block, seen;
      var k := 0;
      while k < |idxs|
        invariant 0 <= k <= |idxs| && hit.None?
        invariant Searching(seen', block', hits) && seen <= seen'
        invariant forall j :: 0 <= j < k ==> RunIn(idxs[j], name, seen')
      {
        ghost var before := seen';
        hit, block', seen' := CheckOne(idxs[k], name, block', seen', hits);
        if hit.Some? { return; }
        forall j | 0 <= j < k ensures RunIn(idxs[j], name, seen') {
          assert RunIn(idxs[j], name, before);
        }
        k := k + 1;
      }
    }

    /** Walk the buckets of the name's label suffixes, then the unanchored wildcards. */
    method SearchWildcards(name: string, block: Option<nat>, ghost seen: set<nat>, ghost hits: set<nat>)
      returns (hit: Option<nat>, block': Option<nat>, ghost seen': set<nat>)
      requires StoreKeeps(store.View(), log) && Searching(seen, block, hits) && hits == HitSet(name)
      requires WildKeeps(wild, log)
      ensures Progress(hit, seen, block', seen', hits)
      ensures hit.None? ==> WildcardSeen(hits, seen')
    {
      hit, block', seen' := None, block, seen;
      if |wild.entries| > 0 {
        forall i | 0 <= i < |wild.entries| ensures RunIn(i, name, hits) {
        }
        hit, block', seen' := WalkBuckets(name, block, seen, hits);
        if hit.Some? { return; }
        ghost var walked := seen';
        forall k | 0 <= k < |wild.unanchored| ensures wild.unanchored[k] < |wild.entries| {
          assert wild.unanchored[k] in wild.unanchored;
        }
        hit, block', seen' := CheckAll(wild.unanchored, name, block', seen', hits);
        if hit.Some? { return; }
        forall j | 0 <= j < |Visited(name)| ensures BucketDone(Visited(name)[j], name, seen') {
          assert BucketDone(Visited(name)[j], name, walked);
        }
      }
      WildcardsAllSeen(name, seen', hits);
    }

    method WalkBuckets(name: string, block: Option<nat>, ghost seen: set<nat>, ghost hits: set<nat>)
      returns (hit: Option<nat>, block': Option<nat>, ghost seen': set<nat>)
      requires WildcardsReady(name, hits) && Searching(seen, block, hits)
      ensures Progress(hit, seen, block', seen', hits)
      ensures hit.None? ==> forall j :: 0 <= j < |Visited(name)| ==> BucketDone(Visited(name)[j], name, seen')
    {
      hit, block', seen' := None, block, seen;
      var suffix := name;
      ghost var visited := Visited(name);
      ghost var k := 0;
      while true
        invariant 0 <= k < |visited| && Visited(suffix) == visited[k..]
        invariant hit.None? && Searching(seen', block', hits) && seen <= seen'
        invariant forall j :: 0 <= j < k ==> BucketDone(visited[j], name, seen')
        decreases |suffix|
      {
        WalkStep(visited, k, suffix);
        ghost var before := seen';
        hit, block', seen' := CheckBucket(suffix, name, block', seen', hits);
        if hit.Some? { return; }
        forall j | 0 <= j < k ensures BucketDone(visited[j], name, seen') {
          assert BucketDone(visited[j], name, before);
        }
        k := k + 1;
        var dot := Find(suffix, '.');
        if dot.None? { return; }
        suffix := suffix[dot.value + 1..];
      }
    }

    ghost predicate BucketDone(suffix: string, name: string, seen: set<nat>)
      reads this`wild
    {
      var bucket := wild.Bucket(suffix);
      forall k :: 0 <= k < |bucket| ==> RunIn(bucket[k], name, seen)
    }

    method CheckBucket(suffix: string, name: string, block: Option<nat>, ghost seen: set<nat>, ghost hits: set<nat>)
      returns (hit: Option<nat>, block': Option<nat>, ghost seen': set<nat>)
      requires WildcardsReady(name, hits) && Searching(seen, block, hits)
      ensures Progress(hit, seen, block', seen', hits)
      ensures hit.None? ==> BucketDone(suffix, name, seen')
    {
      var bucket := wild.Bucket(suffix);
      forall k | 0 <= k < |bucket| ensures bucket[k] < |wild.entries| {
        BucketAnchor(wild, suffix, bucket[k]);
      }
      hit, block', seen' := CheckAll(bucket, name, block, seen, hits);
    }

    /** The walk has tested every wildcard that can match. */
    lemma WildcardsAllSeen(name: string, seen: set<nat>, hits: set<nat>)
      requires WildKeeps(wild, log) && hits == HitSet(name)
      requires wild.entries == [] || forall j :: 0 <= j < |Visited(name)| ==> BucketDone(Visited(name)[j], name, seen)
      requires wild.entries == [] || forall k :: 0 <= k < |wild.unanchored| ==> RunIn(wild.unanchored[k], name, seen)
      ensures WildcardSeen(hits, seen)
    {
      CandidatesComplete(wild, name);
      WalkMembers(wild, Visited(name));
      forall id | id in hits && log[id].rule.pattern.Wildcard? ensures id in seen {
        var i :| 0 <= i < |wild.entries| && wild.entries[i].rule == id;
        RunIsSound(wild.entries[i].expr, wild.entries[i].includeSubdomains, name);
        assert i in wild.Candidates(name);
        if i in wild.unanchored {
          var k :| 0 <= k < |wild.unanchored| && wild.unanchored[k] == i;
          assert RunIn(wild.unanchored[k], name, seen);
        } else {
          var j :| 0 <= j < |Visited(name)| && i in wild.Bucket(Visited(name)[j]);
          var bucket := wild.Bucket(Visited(name)[j]);
          var k :| 0 <= k < |bucket| && bucket[k] == i;
          assert BucketDone(Visited(name)[j], name, seen);
          assert RunIn(bucket[k], name, seen);
        }
      }
    }

    /** The verdict on one name, folded to lower case and without one final dot. */
    method Verdict(query: string) returns (v: Verdict)
      requires Ready()
      ensures KindOf(v) == EngineDecision(RulesOf(log), query)
      ensures Justified(v, log, query)
      ensures ProperRules(RulesOf(log)) && Faithful(Normalized(query)) ==>
                KindOf(v) == Reference(RulesOf(log), query)
    {
      if ProperRules(RulesOf(log)) && Faithful(Normalized(query)) {
        DecisionMatchesReference(RulesOf(log), query);
      }
      var name := Normalized(query);
      if name == [] || |name| > MAX_NAME {
        return NoMatch;
      }
      ReversedLength(name);
      var block: Option<nat> := None;
      ghost var seen: set<nat> := {};
      ghost var hits := HitSet(name);
      var hit;
      hit, block, seen := SearchExact(name, block, seen, hits);
      if hit.Some? {
        v := Excepted(hit.value, query);
        return;
      }
      ghost var seen1 := seen;
      hit, block, seen := SearchSubtree(name, block, seen, hits);
      if hit.Some? {
        v := Excepted(hit.value, query);
        return;
      }
      ghost var seen2 := seen;
      hit, block, seen := SearchWildcards(name, block, seen, hits);
      if hit.Some? {
        v := Excepted(hit.value, query);
        return;
      }
      assert hits <= seen by {
        assert ExactSeen(hits, seen1) && SubtreeSeen(hits, seen2) && WildcardSeen(hits, seen);
      }
      NoExceptionDecides(name, seen, block);
      if block.Some? {
        assert block.value in hits && !Excepting(block.value);
        var list, rule := Matched(block.value);
        v := BlockedBy(list, rule);
        assert Names(v, log[block.value], query);
      } else {
        v := NoMatch;
      }
    }

    lemma NoExceptionDecides(name: string, seen: set<nat>, block: Option<nat>)
      requires Searching(seen, block, HitSet(name)) && HitSet(name) <= seen
      ensures EngineKind(RulesOf(log), name) == if block.Some? then KBlock else KNoMatch
    {
      var rules := RulesOf(log);
      forall j | 0 <= j < |rules| && EngineMatches(rules[j].pattern, name) ensures j in seen {
        assert j in HitSet(name);
      }
      if block.Some? {
        assert EngineMatches(rules[block.value].pattern, name);
      }
    }

    method Excepted(id: nat, query: string) returns (v: Verdict)
      requires Ready() && Answerable(Normalized(query)) && id in HitSet(Normalized(query)) && Excepting(id)
      ensures v.ExceptedBy? && EngineDecision(RulesOf(log), query) == KExcept
      ensures Justified(v, log, query)
    {
      var list, rule := Matched(id);
      v := ExceptedBy(list, rule);
      assert Names(v, log[id], query);
      ghost var rules := RulesOf(log);
      assert rules[id].action.Except? && EngineMatches(rules[id].pattern, Normalized(query));
    }
  }
}
