/** Sorted, deduplicated byte keys with rule ids, as parallel vectors over one arena. */
module KeyIndexes {
  import opened Basics
  import opened Wrappers
  import opened Order
  import opened Stores

  const MAX_KEY: nat := 255

  /** The contents of an index. */
  datatype IndexView = IndexView(arena: string, offs: seq<nat>, lens: seq<nat>, rules: seq<nat>) {
    ghost predicate Valid() {
      && |offs| == |lens| == |rules|
      && (forall i :: 0 <= i < |rules| ==> lens[i] <= MAX_KEY && offs[i] + lens[i] <= |arena|)
    }

    function Key(i: nat): string
      requires i < |offs| == |lens| && offs[i] + lens[i] <= |arena|
    {
      arena[offs[i]..offs[i] + lens[i]]
    }

    function Keys(): (keys: seq<string>)
      requires Valid()
      ensures |keys| == |rules|
    {
      seq(|rules|, i requires 0 <= i < |rules| => Key(i))
    }

    /** The (key, rule) pairs in index order. */
    ghost function Entries(): (pairs: seq<(string, nat)>)
      requires Valid()
      ensures |pairs| == |rules|
    {
      seq(|rules|, i requires 0 <= i < |rules| => (Key(i), rules[i]))
    }

    function Inserted(key: string, rule: nat): IndexView {
      IndexView(arena + key, offs + [|arena|], lens + [|key|], rules + [rule])
    }
  }

  lemma InsertedEntries(v: IndexView, key: string, rule: nat)
    requires v.Valid() && |key| <= MAX_KEY
    ensures v.Inserted(key, rule).Valid()
    ensures v.Inserted(key, rule).Entries() == v.Entries() + [(key, rule)]
  {
    var w := v.Inserted(key, rule);
    forall i | 0 <= i < |v.rules| ensures w.Key(i) == v.Key(i) {
      assert w.arena[..|v.arena|] == v.arena;
      assert w.arena[w.offs[i]..w.offs[i] + w.lens[i]] == v.arena[v.offs[i]..v.offs[i] + v.lens[i]];
    }
    assert w.Key(|v.rules|) == key;
  }

  // ---- The finished arena ----

  /** Neighbouring repetitions removed. */
  function Deduped(keys: seq<string>): seq<string> {
    if |keys| <= 1 then keys
    else
      var front := Deduped(keys[..|keys| - 1]);
      if keys[|keys| - 1] == keys[|keys| - 2] then front else front + [keys[|keys| - 1]]
  }

  /** `once` holds each of `keys` exactly once, in increasing order. */
  ghost predicate StoredOnce(keys: seq<string>, once: seq<string>) {
    && (forall i, j :: 0 <= i < j < |once| ==> Less(once[i], once[j]))
    && (forall k :: k in keys <==> k in once)
  }

  /** In sorted keys, dropping repetitions of neighbours drops all repetitions. */
  lemma {:induction false} DedupedSorted(keys: seq<string>)
    requires Sorted(keys)
    ensures StoredOnce(keys, Deduped(keys))
    ensures keys != [] ==> Deduped(keys) != [] && Deduped(keys)[|Deduped(keys)| - 1] == keys[|keys| - 1]
  {
    if |keys| > 1 {
      var front, last := keys[..|keys| - 1], keys[|keys| - 1];
      DedupedSorted(front);
      assert keys == front + [last];
      assert !Less(last, front[|front| - 1]);
      LessTotal(front[|front| - 1], last);
      var d := Deduped(front);
      if last != keys[|keys| - 2] {
        forall i | 0 <= i < |d| ensures Less(d[i], last) {
          if i < |d| - 1 {
            LessTotal(last, d[|d| - 1]);
            LessTransitive(d[i], d[|d| - 1], last);
          }
        }
      }
    }
  }

  lemma DedupedStep(keys: seq<string>, next: string)
    ensures Deduped(keys + [next]) ==
            if keys != [] && keys[|keys| - 1] == next then Deduped(keys) else Deduped(keys) + [next]
  {
    assert (keys + [next])[..|keys|] == keys;
  }

  /** Spans of canonical rules point at their key in `v`; all other spans are as before. */
  ghost predicate Relocated(before: StoreView, after: StoreView, v: IndexView, forms: set<nat>)
    requires |v.rules| == |v.offs| && before.Parallel()
    requires forall i :: 0 <= i < |v.rules| ==> v.rules[i] < |before.flags|
  {
    && |after.spanOff| == |before.spanOff|
    && after == before.(spanOff := after.spanOff)
    && (forall i :: 0 <= i < |v.rules| && before.Form(v.rules[i]) in forms ==> after.spanOff[v.rules[i]] == v.offs[i])
    && (forall id :: 0 <= id < |before.spanOff| && (before.Form(id) !in forms || id !in v.rules)
          ==> after.spanOff[id] == before.spanOff[id])
  }

  ghost predicate RulesBelow(v: IndexView, n: nat) {
    forall i :: 0 <= i < |v.rules| ==> v.rules[i] < n
  }

  /** What `Finish` promises about the index itself. */
  ghost predicate FinishedFrom(before: IndexView, after: IndexView) {
    && before.Valid() && after.Valid()
    && Sorted(after.Keys())
    && multiset(after.Entries()) == multiset(before.Entries())
    && StoredOnce(after.Keys(), Deduped(after.Keys()))
    && after.arena == Flatten(Deduped(after.Keys()))
    && (forall i, j :: 0 <= i < j < |after.rules| && after.Key(i) == after.Key(j) ==> after.offs[i] == after.offs[j])
  }

  /** `w` holds these keys and rules in this order, neighbouring repetitions stored once. */
  ghost predicate Rebuilt(keys: seq<string>, ids: seq<nat>, w: IndexView) {
    && w.Valid()
    && w.rules == ids
    && w.Keys() == keys
    && w.arena == Flatten(Deduped(keys))
    && NeighboursShare(w)
  }

  /** Equal neighbouring keys share their bytes. */
  ghost predicate NeighboursShare(w: IndexView)
    requires w.Valid()
  {
    forall i :: 0 < i < |w.rules| && w.Key(i) == w.Key(i - 1) ==> w.offs[i] == w.offs[i - 1]
  }

  function Repeated(w: IndexView, rule: nat): IndexView
    requires |w.offs| == |w.lens| > 0
  {
    var last := |w.offs| - 1;
    IndexView(w.arena, w.offs + [w.offs[last]], w.lens + [w.lens[last]], w.rules + [rule])
  }

  /** The next entry repeats the previous key and shares its bytes. */
  lemma RepeatStep(keys: seq<string>, ids: seq<nat>, w: IndexView, rule: nat)
    requires Rebuilt(keys, ids, w) && keys != []
    ensures Rebuilt(keys + [keys[|keys| - 1]], ids + [rule], Repeated(w, rule))
  {
    RepeatedKeys(w, rule);
    assert w.Keys()[|keys| - 1] == keys[|keys| - 1];
    DedupedStep(keys, keys[|keys| - 1]);
  }

  lemma LastKeyLength(keys: seq<string>, ids: seq<nat>, w: IndexView)
    requires Rebuilt(keys, ids, w) && keys != []
    ensures |w.offs| == |w.lens| == |keys| && w.lens[|keys| - 1] == |keys[|keys| - 1]|
  {
    assert w.Keys()[|keys| - 1] == keys[|keys| - 1];
  }

  lemma RepeatedKeys(w: IndexView, rule: nat)
    requires w.Valid() && |w.rules| > 0
    ensures Repeated(w, rule).Valid()
    ensures forall i :: 0 <= i < |w.rules| ==> Repeated(w, rule).Key(i) == w.Key(i)
    ensures Repeated(w, rule).Keys() == w.Keys() + [w.Key(|w.rules| - 1)]
    ensures NeighboursShare(w) ==> NeighboursShare(Repeated(w, rule))
  {
    var w' := Repeated(w, rule);
    assert forall i :: 0 <= i < |w.rules| ==> w'.offs[i] == w.offs[i] && w'.lens[i] == w.lens[i];
  }

  lemma InsertedArena(keys: seq<string>, arena: string, key: string)
    requires arena == Flatten(Deduped(keys)) && (keys != [] ==> keys[|keys| - 1] != key)
    ensures arena + key == Flatten(Deduped(keys + [key]))
  {
    FlattenStep(Deduped(keys), key);
    DedupedStep(keys, key);
  }

  /** The next entry has a new key and brings its own bytes. */
  lemma InsertStep(keys: seq<string>, ids: seq<nat>, w: IndexView, key: string, rule: nat)
    requires Rebuilt(keys, ids, w) && |key| <= MAX_KEY
    requires keys != [] ==> keys[|keys| - 1] != key
    ensures Rebuilt(keys + [key], ids + [rule], w.Inserted(key, rule))
  {
    InsertedAsListed(keys, w, key, rule);
    InsertedArena(keys, w.arena, key);
  }

  lemma InsertedAsListed(keys: seq<string>, w: IndexView, key: string, rule: nat)
    requires w.Valid() && w.Keys() == keys && NeighboursShare(w) && |key| <= MAX_KEY
    requires keys != [] ==> keys[|keys| - 1] != key
    ensures w.Inserted(key, rule).Valid() && w.Inserted(key, rule).Keys() == keys + [key]
    ensures NeighboursShare(w.Inserted(key, rule))
  {
    if keys != [] { assert w.Keys()[|keys| - 1] == w.Key(|keys| - 1); }
    InsertedKeys(w, key, rule);
  }

  /** One call of the relocation closure, for the entry that makes `w` into `w'`. */
  lemma RelocateStep(s0: StoreView, s: StoreView, w: IndexView, rule: nat, off: nat, w': IndexView, forms: set<nat>)
    requires |w.rules| == |w.offs| && s0.Parallel()
    requires w'.rules == w.rules + [rule] && w'.offs == w.offs + [off]
    requires rule < |s0.flags| && rule !in w.rules
    requires forall i :: 0 <= i < |w.rules| ==> w.rules[i] < |s0.flags|
    requires Relocated(s0, s, w, forms)
    ensures Relocated(s0, if s0.Form(rule) in forms then s.(spanOff := s.spanOff[rule := off]) else s, w', forms)
  {
    assert forall id :: id in w'.rules <==> id in w.rules || id == rule;
  }

  lemma InsertedKeys(v: IndexView, key: string, rule: nat)
    requires v.Valid() && |key| <= MAX_KEY
    ensures v.Inserted(key, rule).Valid()
    ensures v.Inserted(key, rule).Keys() == v.Keys() + [key]
    ensures NeighboursShare(v) && (v.rules != [] ==> v.Key(|v.rules| - 1) != key)
            ==> NeighboursShare(v.Inserted(key, rule))
  {
    InsertedEntries(v, key, rule);
    var w := v.Inserted(key, rule);
    forall i | 0 <= i < |w.rules| ensures w.Key(i) == (v.Keys() + [key])[i] {
      assert w.Entries()[i] == (v.Entries() + [(key, rule)])[i];
    }
    assert w.Keys() == v.Keys() + [key];
    forall i | 0 <= i < |v.rules| ensures w.Key(i) == v.Key(i) && w.offs[i] == v.offs[i] {
      assert w.Keys()[i] == v.Keys()[i];
    }
  }

  lemma TakeNext<T>(s: seq<T>, n: nat)
    requires n < |s|
    ensures |s[..n]| == n && s[..n + 1] == s[..n] + [s[n]]
    ensures n > 0 ==> s[..n][n - 1] == s[n - 1]
  {
  }

  lemma FreshNext(ids: seq<nat>, n: nat)
    requires Distinct(ids) && n < |ids|
    ensures ids[n] !in ids[..n]
  {
  }

  lemma PickedSorted(keys: seq<string>, order: seq<nat>)
    requires IsSortOrder(order, keys, |keys|)
    ensures Sorted(Pick(keys, order))
  {
  }

  lemma PickedEntries(v: IndexView, order: seq<nat>, w: IndexView)
    requires v.Valid() && w.Valid() && |order| == |v.rules|
    requires forall p :: 0 <= p < |order| ==> order[p] < |v.rules|
    requires w.rules == Pick(v.rules, order) && w.Keys() == Pick(v.Keys(), order)
    ensures w.Entries() == Pick(v.Entries(), order)
  {
    forall i | 0 <= i < |order| ensures w.Entries()[i] == Pick(v.Entries(), order)[i] {
      assert w.Keys()[i] == Pick(v.Keys(), order)[i];
    }
  }

  /** All entries taken: the rebuilt index is the sorted, deduplicated one. */
  lemma RebuiltAll(v: IndexView, order: seq<nat>, w: IndexView)
    requires v.Valid() && IsSortOrder(order, v.Keys(), |v.rules|)
    requires Rebuilt(Pick(v.Keys(), order), Pick(v.rules, order), w)
    ensures FinishedFrom(v, w)
    ensures multiset(w.rules) == multiset(v.rules)
  {
    PickPermutes(v.rules, order);
    PickPermutes(v.Entries(), order);
    PickedEntries(v, order, w);
    PickedSorted(v.Keys(), order);
    DedupedSorted(w.Keys());
    forall i, j | 0 <= i < j < |w.rules| && w.Key(i) == w.Key(j) ensures w.offs[i] == w.offs[j] {
      SharedAlong(w, i, j);
    }
  }

  /** Equal keys of a sorted index share their bytes, however many lie between. */
  lemma {:induction false} SharedAlong(w: IndexView, i: nat, j: nat)
    requires w.Valid() && Sorted(w.Keys()) && NeighboursShare(w)
    requires i < j < |w.rules| && w.Key(i) == w.Key(j)
    ensures w.offs[i] == w.offs[j]
    decreases j
  {
    var keys := w.Keys();
    assert !Less(keys[j], keys[j - 1]);
    assert keys[i] == keys[j] == w.Key(j) && keys[j - 1] == w.Key(j - 1);
    LessTotal(keys[j - 1], keys[j]);
    if i < j - 1 {
      assert !Less(keys[j - 1], keys[i]);
      SharedAlong(w, i, j - 1);
    }
  }

  /** Keys short enough for their length byte, and distinct rules of the store. */
  ghost predicate Sortable(keys: seq<string>, ids: seq<nat>, s: StoreView) {
    && |keys| == |ids| && Distinct(ids) && s.Parallel()
    && forall i :: 0 <= i < |keys| ==> |keys[i]| <= MAX_KEY && ids[i] < |s.flags|
  }

  /** The state of the rebuilding loop after `pos` entries; `prev` is the last distinct key's place. */
  ghost predicate Rebuilding(keys: seq<string>, ids: seq<nat>, pos: nat, w: IndexView, prev: Option<(nat, nat)>,
                             s0: StoreView, s: StoreView, forms: set<nat>)
    requires pos <= |keys| && Sortable(keys, ids, s0)
  {
    && Rebuilt(keys[..pos], ids[..pos], w)
    && (prev.Some? <==> pos > 0)
    && (prev.Some? ==> prev.value.0 < pos && keys[prev.value.0] == keys[pos - 1] && prev.value.1 == w.offs[pos - 1])
    && RulesBelow(w, |s0.flags|) && Relocated(s0, s, w, forms)
  }

  class KeyIndex {
    var arena: string
    var offs: seq<nat>
    var lens: seq<nat>
    var rules: seq<nat>

    function View(): IndexView
      reads this
    {
      IndexView(arena, offs, lens, rules)
    }

    constructor ()
      ensures View() == IndexView("", [], [], [])
    {
      arena, offs, lens, rules := "", [], [], [];
    }

    /** Keys longer than a byte can count are refused by the program. */
    method Insert(key: string, rule: nat)
      requires |key| <= MAX_KEY
      modifies this
      ensures View() == old(View()).Inserted(key, rule)
    {
      var off := |arena|;
      arena := arena + key;
      offs := offs + [off];
      lens := lens + [|key|];
      rules := rules + [rule];
    }

    /**
     Sort by key and rebuild the arena with each distinct key once, moving the
     spans of the rules whose form is in `forms` with their keys.
     */
    method Finish(store: Store, forms: set<nat>)
      requires View().Valid() && Distinct(rules) && store.View().Parallel()
      requires forall i :: 0 <= i < |rules| ==> rules[i] < |store.flags|
      modifies this, store
      ensures FinishedFrom(old(View()), View())
      ensures Distinct(rules) && forall i :: 0 <= i < |rules| ==> rules[i] < |old(store.flags)|
      ensures Relocated(old(store.View()), store.View(), View(), forms)
    {
      var w := SortAndRebuild(store, forms);
      arena, offs, lens, rules := w.arena, w.offs, w.lens, w.rules;
      assert View() == w;
    }

    method SortAndRebuild(store: Store, forms: set<nat>) returns (w: IndexView)
      requires View().Valid() && Distinct(rules) && store.View().Parallel()
      requires forall i :: 0 <= i < |rules| ==> rules[i] < |store.flags|
      modifies store
      ensures FinishedFrom(View(), w)
      ensures Distinct(w.rules) && RulesBelow(w, |old(store.flags)|)
      ensures Relocated(old(store.View()), store.View(), w, forms)
    {
      ghost var v := View();
      var keys := View().Keys();
      var order := SortUnstable(keys);
      assert Distinct(Pick(v.rules, order)) by {
        PickPermutes(v.rules, order);
        SameBagDistinct(v.rules, Pick(v.rules, order));
      }
      w := Rebuild(Pick(keys, order), Pick(rules, order), store, forms);
      assert FinishedFrom(v, w) && Distinct(w.rules) by {
        RebuiltAll(v, order, w);
        SameBagDistinct(v.rules, w.rules);
      }
    }

    /** The loop of `Finish`, over the keys and rules in sorted order. */
    static method Rebuild(keys: seq<string>, ids: seq<nat>, store: Store, forms: set<nat>) returns (w: IndexView)
      requires Sortable(keys, ids, store.View())
      modifies store
      ensures Rebuilt(keys, ids, w) && RulesBelow(w, |old(store.flags)|)
      ensures Relocated(old(store.View()), store.View(), w, forms)
    {
      ghost var s0 := store.View();
      w := IndexView("", [], [], []);
      var prev: Option<(nat, nat)> := None;  // sorted position, new offset
      var pos := 0;
      while pos < |keys|
        invariant 0 <= pos <= |keys|
        invariant Rebuilding(keys, ids, pos, w, prev, s0, store.View(), forms)
      {
        w, prev := FileEntry(keys, ids, pos, w, prev, store, forms, s0);
        pos := pos + 1;
      }
      assert keys[..pos] == keys && ids[..pos] == ids;
    }

    /** One round of the loop: file the entry, then call the relocation closure. */
    static method FileEntry(keys: seq<string>, ids: seq<nat>, pos: nat, w: IndexView, prev: Option<(nat, nat)>,
                            store: Store, forms: set<nat>, ghost s0: StoreView)
      returns (w': IndexView, prev': Option<(nat, nat)>)
      requires Sortable(keys, ids, s0) && pos < |keys|
      requires Rebuilding(keys, ids, pos, w, prev, s0, store.View(), forms)
      modifies store
      ensures Rebuilding(keys, ids, pos + 1, w', prev', s0, store.View(), forms)
    {
      var same := prev.Some? && keys[prev.value.0] == keys[pos];
      TakeNext(keys, pos);
      TakeNext(ids, pos);
      FreshNext(ids, pos);
      w', prev' := Place(w, pos, keys[pos], ids[pos], same, prev, keys[..pos], ids[..pos]);
      RelocateStep(s0, store.View(), w, ids[pos], w'.offs[pos], w', forms);
      Relocate(store, ids[pos], w'.offs[pos], forms);
    }

    /** The closure called for each entry: the span of a canonical rule follows its key. */
    static method Relocate(store: Store, rule: nat, off: nat, forms: set<nat>)
      requires store.View().Parallel() && rule < |store.flags|
      modifies store
      ensures store.View() ==
              if old(store.View()).Form(rule) in forms
              then old(store.View()).(spanOff := old(store.spanOff)[rule := off])
              else old(store.View())
    {
      if store.View().Form(rule) in forms {
        store.spanOff := store.spanOff[rule := off];
      }
    }

    /** One entry: share the bytes of the last distinct key, or append a new key. */
    static method Place(w: IndexView, pos: nat, key: string, rule: nat, same: bool, prev: Option<(nat, nat)>,
                        ghost keys: seq<string>, ghost ids: seq<nat>)
      returns (w': IndexView, prev': Option<(nat, nat)>)
      requires Rebuilt(keys, ids, w) && pos == |keys| && |key| <= MAX_KEY
      requires same <==> keys != [] && keys[pos - 1] == key
      requires same ==> prev.Some? && prev.value.1 == w.offs[pos - 1]
      ensures Rebuilt(keys + [key], ids + [rule], w')
      ensures w'.offs == w.offs + [w'.offs[pos]]
      ensures prev' == if same then prev else Some((pos, w'.offs[pos]))
      ensures prev'.Some? && prev'.value.1 == w'.offs[pos]
    {
      if same {
        RepeatStep(keys, ids, w, rule);
        LastKeyLength(keys, ids, w);
        w' := IndexView(w.arena, w.offs + [prev.value.1], w.lens + [|key|], w.rules + [rule]);
        prev' := prev;
      } else {
        InsertStep(keys, ids, w, key, rule);
        w' := w.Inserted(key, rule);
        prev' := Some((pos, |w.arena|));
      }
    }

    /** First index whose key is not below `needle`; the keys must be sorted. */
    method PartitionPoint(needle: string) returns (lo: nat)
      requires View().Valid() && Sorted(View().Keys())
      ensures lo <= |rules|
      ensures forall i :: 0 <= i < lo ==> Less(View().Key(i), needle)
      ensures forall i :: lo <= i < |rules| ==> !Less(View().Key(i), needle)
    {
      lo := 0;
      var hi := |rules|;
      ghost var keys := View().Keys();
      assert forall i :: 0 <= i < |rules| ==> keys[i] == View().Key(i);
      while lo < hi
        invariant 0 <= lo <= hi <= |rules|
        invariant forall i :: 0 <= i < lo ==> Less(keys[i], needle)
        invariant forall i :: hi <= i < |rules| ==> !Less(keys[i], needle)
      {
        var mid := lo + (hi - lo) / 2;
        if Less(View().Key(mid), needle) {
          forall i | 0 <= i < mid ensures Less(keys[i], needle) {
            BelowStaysBelow(keys[i], keys[mid], needle);
          }
          lo := mid + 1;
        } else {
          forall i | mid < i < |rules| ensures !Less(keys[i], needle) {
            if Less(keys[i], needle) { BelowStaysBelow(keys[mid], keys[i], needle); }
          }
          hi := mid;
        }
      }
    }

    /** What is filed under `needle`, in index order. */
    method EqualRange(needle: string) returns (ids: seq<nat>)
      requires View().Valid() && Sorted(View().Keys())
      ensures forall id :: id in ids <==> (needle, id) in View().Entries()
      ensures multiset(ids) == BagOfKey(View().Entries(), needle)
    {
      var lo := PartitionPoint(needle);
      ids := [];
      var i := lo;
      var v := View();
      ghost var entries := v.Entries();
      NoneBelow(v, needle, lo);
      SkipKeys(entries, needle, lo);
      while i < |rules| && v.Key(i) == needle
        invariant lo <= i <= |rules|
        invariant multiset(ids) == BagOfKey(entries[..i], needle)
      {
        assert entries[..i + 1][..i] == entries[..i];
        ids := ids + [rules[i]];
        i := i + 1;
      }
      NoneAbove(v, needle, i);
      RestOfBag(entries, needle, i);
      BagMembers(entries, needle);
    }
  }

  // ---- Reading the sorted index ----

  lemma BelowStaysBelow(a: string, b: string, needle: string)
    requires !Less(b, a) && Less(b, needle)
    ensures Less(a, needle)
  {
    LessTotal(a, b);
    LessTotal(b, needle);
    if a != b { LessTransitive(a, b, needle); }
  }

  /** The rule ids filed under `key`, with multiplicity. */
  function BagOfKey(entries: seq<(string, nat)>, key: string): multiset<nat> {
    if entries == [] then multiset{}
    else
      var front, last := entries[..|entries| - 1], entries[|entries| - 1];
      if last.0 == key then BagOfKey(front, key) + multiset{last.1} else BagOfKey(front, key)
  }

  lemma {:induction false} SkipKeys(entries: seq<(string, nat)>, key: string, n: nat)
    requires n <= |entries|
    requires forall i :: 0 <= i < n ==> entries[i].0 != key
    ensures BagOfKey(entries[..n], key) == multiset{}
  {
    if n > 0 {
      SkipKeys(entries, key, n - 1);
      assert entries[..n][..n - 1] == entries[..n - 1];
    }
  }

  lemma {:induction false} RestOfBag(entries: seq<(string, nat)>, key: string, n: nat)
    requires n <= |entries|
    requires forall i :: n <= i < |entries| ==> entries[i].0 != key
    ensures BagOfKey(entries, key) == BagOfKey(entries[..n], key)
    decreases |entries| - n
  {
    if n == |entries| {
      assert entries[..n] == entries;
    } else {
      RestOfBag(entries, key, n + 1);
      assert entries[..n + 1][..n] == entries[..n];
    }
  }

  lemma {:induction false} BagMembers(entries: seq<(string, nat)>, key: string)
    ensures forall id :: id in BagOfKey(entries, key) <==> (key, id) in entries
  {
    if entries != [] {
      var front, last := entries[..|entries| - 1], entries[|entries| - 1];
      BagMembers(front, key);
      assert entries == front + [last];
    }
  }

  lemma NoneBelow(v: IndexView, needle: string, lo: nat)
    requires v.Valid() && lo <= |v.rules| && forall i :: 0 <= i < lo ==> Less(v.Key(i), needle)
    ensures forall j :: 0 <= j < lo ==> v.Entries()[j].0 != needle
  {
    forall j | 0 <= j < lo ensures v.Entries()[j].0 != needle {
      LessTotal(v.Key(j), needle);
    }
  }

  /** Past the first key that is neither below the needle nor equal to it, none is equal. */
  lemma NoneAbove(v: IndexView, needle: string, i: nat)
    requires v.Valid() && Sorted(v.Keys()) && i <= |v.rules|
    requires i < |v.rules| ==> !Less(v.Key(i), needle) && v.Key(i) != needle
    ensures forall j :: i <= j < |v.rules| ==> v.Entries()[j].0 != needle
  {
    var keys := v.Keys();
    forall j | i <= j < |v.rules| ensures v.Entries()[j].0 != needle {
      LessTotal(keys[j], needle);
      LessTotal(keys[i], needle);
      assert i < j ==> !Less(keys[j], keys[i]);
    }
  }
}
