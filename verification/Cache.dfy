/**
 The cache as it is stored: a vector of slots that holds an index-linked list, most
 recently used first, and a free list at once, plus a map from keys to slots.
 */
module Caches {
  import opened Wrappers
  import opened Order
  import opened Answers
  import opened Lru

  /** "No link" in the lists. */
  const NONE: nat := 0xFFFF_FFFF_FFFF_FFFF

  datatype Node = Node(key: CacheKey, entry: Entry, bytes: nat, prev: nat, next: nat)

  datatype Slot = Occupied(node: Node) | Free(nextFree: nat)

  // ---- Lists threaded through the slots ----

  function First(order: seq<nat>): nat {
    if order == [] then NONE else order[0]
  }

  function Last(order: seq<nat>): nat {
    if order == [] then NONE else order[|order| - 1]
  }

  function Before(order: seq<nat>, i: nat): nat
    requires i < |order|
  {
    if i == 0 then NONE else order[i - 1]
  }

  function After(order: seq<nat>, i: nat): nat
    requires i < |order|
  {
    if i + 1 == |order| then NONE else order[i + 1]
  }

  ghost predicate OccupiedAt(slots: seq<Slot>, idx: nat) {
    idx < |slots| && slots[idx].Occupied?
  }

  /** `order` visits distinct occupied slots, with prev and next inverse along it. */
  ghost predicate Linked(slots: seq<Slot>, order: seq<nat>, head: nat, tail: nat) {
    && Distinct<nat>(order)
    && head == First(order) && tail == Last(order)
    && (forall i :: 0 <= i < |order| ==> Placed(slots, order[i], Before(order, i), After(order, i)))
  }

  ghost predicate FreeLinked(slots: seq<Slot>, free: seq<nat>, freeHead: nat) {
    && Distinct<nat>(free)
    && freeHead == First(free)
    && (forall i :: 0 <= i < |free| ==>
          && free[i] < NONE && free[i] < |slots|
          && slots[free[i]] == Free(After(free, i)))
  }

  /** Same occupants in the same slots; only links differ. */
  ghost predicate SameOccupants(a: seq<Slot>, b: seq<Slot>) {
    |a| == |b| && forall i :: 0 <= i < |a| ==>
      match a[i]
      case Free(n) => b[i] == a[i]
      case Occupied(m) => b[i].Occupied? && b[i].node == m.(prev := b[i].node.prev, next := b[i].node.next)
  }

  function SetNext(slots: seq<Slot>, idx: nat, next: nat): seq<Slot>
    requires OccupiedAt(slots, idx)
  {
    slots[idx := Occupied(slots[idx].node.(next := next))]
  }

  function SetPrev(slots: seq<Slot>, idx: nat, prev: nat): seq<Slot>
    requires OccupiedAt(slots, idx)
  {
    slots[idx := Occupied(slots[idx].node.(prev := prev))]
  }

  // ---- The recency sequence ----

  function ItemAt(slot: Slot): Item
    requires slot.Occupied?
  {
    Item(slot.node.key, slot.node.entry, slot.node.bytes)
  }

  ghost predicate AllOccupied(slots: seq<Slot>, order: seq<nat>) {
    forall i :: 0 <= i < |order| ==> OccupiedAt(slots, order[i])
  }

  ghost function Items(slots: seq<Slot>, order: seq<nat>): (s: seq<Item>)
    requires AllOccupied(slots, order)
    ensures |s| == |order|
  {
    seq(|order|, i requires 0 <= i < |order| && OccupiedAt(slots, order[i]) => ItemAt(slots[order[i]]))
  }

  // ---- Relinking ----

  /** The slots once the node at place `i` of the list is taken out of it. */
  function Unlinked(slots: seq<Slot>, order: seq<nat>, i: nat): seq<Slot>
    requires i < |order| && OccupiedAt(slots, order[i])
    requires i > 0 ==> OccupiedAt(slots, order[i - 1])
    requires i + 1 < |order| ==> OccupiedAt(slots, order[i + 1])
  {
    var p, n := Before(order, i), After(order, i);
    var s1 := if i == 0 then slots else SetNext(slots, order[i - 1], n);
    var s2 := if i + 1 == |order| then s1 else SetPrev(s1, order[i + 1], p);
    s2[order[i] := Occupied(s2[order[i]].node.(prev := NONE, next := NONE))]
  }

  function Undropped(i: nat, j: nat): nat {
    if j < i then j else j + 1
  }

  lemma DropAt(order: seq<nat>, i: nat, j: nat)
    requires i < |order| && j < |order| - 1
    ensures Undropped(i, j) < |order| && Undropped(i, j) != i
    ensures Without(order, i)[j] == order[Undropped(i, j)]
  {
  }

  lemma DropDistinct(order: seq<nat>, i: nat)
    requires i < |order| && Distinct<nat>(order)
    ensures Distinct<nat>(Without(order, i)) && order[i] !in Without(order, i)
    ensures forall x :: x in Without(order, i) <==> x in order && x != order[i]
  {
    assert order == order[..i] + [order[i]] + order[i + 1..];
  }

  /** What `Linked` says of one place of the list. */
  ghost predicate Placed(slots: seq<Slot>, idx: nat, prev: nat, next: nat) {
    idx < NONE && OccupiedAt(slots, idx) && slots[idx].node.prev == prev && slots[idx].node.next == next
  }

  lemma UnlinkedPlace(slots: seq<Slot>, order: seq<nat>, i: nat, k: nat)
    requires i < |order| && k < |order| && k != i && Distinct<nat>(order)
    requires Placed(slots, order[k], Before(order, k), After(order, k)) && OccupiedAt(slots, order[i])
    requires i > 0 ==> OccupiedAt(slots, order[i - 1])
    requires i + 1 < |order| ==> OccupiedAt(slots, order[i + 1])
    ensures Placed(Unlinked(slots, order, i), order[k],
                   if k == i + 1 then Before(order, i) else Before(order, k),
                   if k + 1 == i then After(order, i) else After(order, k))
  {
    assert order[k] != order[i];
    assert i > 0 && k != i - 1 ==> order[k] != order[i - 1];
    assert i + 1 < |order| && k != i + 1 ==> order[k] != order[i + 1];
  }

  lemma UnlinkedOccupants(slots: seq<Slot>, order: seq<nat>, i: nat, head: nat, tail: nat)
    requires Linked(slots, order, head, tail) && i < |order|
    ensures SameOccupants(slots, Unlinked(slots, order, i))
  {
    PlacedAround(slots, order, head, tail, i);
    NodeTakenOut(slots, order, i);
  }

  lemma NodeTakenOut(slots: seq<Slot>, order: seq<nat>, i: nat)
    requires i < |order| && OccupiedAt(slots, order[i])
    requires i > 0 ==> OccupiedAt(slots, order[i - 1])
    requires i + 1 < |order| ==> OccupiedAt(slots, order[i + 1])
    ensures SameOccupants(slots, Unlinked(slots, order, i))
  {
  }

  function HeadWithout(order: seq<nat>, i: nat, head: nat): nat
    requires i < |order|
  {
    if i == 0 then After(order, i) else head
  }

  function TailWithout(order: seq<nat>, i: nat, tail: nat): nat
    requires i < |order|
  {
    if i + 1 == |order| then Before(order, i) else tail
  }

  /** Taking one node out leaves a well-formed list of the others. */
  lemma UnlinkKeepsLinked(slots: seq<Slot>, order: seq<nat>, i: nat, head: nat, tail: nat)
    requires Linked(slots, order, head, tail) && i < |order|
    ensures Linked(Unlinked(slots, order, i), Without(order, i), HeadWithout(order, i, head), TailWithout(order, i, tail))
  {
    var t, rest := Unlinked(slots, order, i), Without(order, i);
    DropDistinct(order, i);
    forall j | 0 <= j < |rest| ensures Placed(t, rest[j], Before(rest, j), After(rest, j)) {
      DropAt(order, i, j);
      UnlinkedPlace(slots, order, i, Undropped(i, j));
      DropNeighbours(order, i, j);
    }
    DropEnds(order, i);
  }

  lemma DropNeighbours(order: seq<nat>, i: nat, j: nat)
    requires i < |order| && j < |order| - 1
    ensures var k := Undropped(i, j);
            && Before(Without(order, i), j) == (if k == i + 1 then Before(order, i) else Before(order, k))
            && After(Without(order, i), j) == (if k + 1 == i then After(order, i) else After(order, k))
  {
    if j > 0 { DropAt(order, i, j - 1); }
    if j + 1 < |order| - 1 { DropAt(order, i, j + 1); }
  }

  lemma DropEnds(order: seq<nat>, i: nat)
    requires i < |order|
    ensures First(Without(order, i)) == if i == 0 then After(order, i) else First(order)
    ensures Last(Without(order, i)) == if i + 1 == |order| then Before(order, i) else Last(order)
  {
  }

  /** The slots once the unlinked node `idx` is put in front of the list. */
  function Pushed(slots: seq<Slot>, order: seq<nat>, idx: nat, head: nat): seq<Slot>
    requires OccupiedAt(slots, idx) && (order != [] ==> OccupiedAt(slots, order[0]))
  {
    var s1 := slots[idx := Occupied(slots[idx].node.(prev := NONE, next := head))];
    if order == [] then s1 else SetPrev(s1, order[0], idx)
  }

  lemma PushedPlace(slots: seq<Slot>, order: seq<nat>, idx: nat, head: nat, k: nat)
    requires k < |order| && Distinct<nat>(order) && idx !in order && OccupiedAt(slots, idx)
    requires OccupiedAt(slots, order[0]) && Placed(slots, order[k], Before(order, k), After(order, k))
    ensures Placed(Pushed(slots, order, idx, head), order[k],
                   if k == 0 then idx else order[k - 1], After(order, k))
  {
    assert order[k] in order;
    assert k > 0 ==> order[k] != order[0];
  }

  lemma PushNeighbours(order: seq<nat>, idx: nat, k: nat)
    requires k < |order|
    ensures ([idx] + order)[k + 1] == order[k]
    ensures Before([idx] + order, k + 1) == (if k == 0 then idx else order[k - 1])
    ensures After([idx] + order, k + 1) == After(order, k)
  {
  }

  lemma PushDistinct(order: seq<nat>, idx: nat)
    requires Distinct<nat>(order) && idx !in order
    ensures Distinct<nat>([idx] + order)
  {
    DistinctConcat<nat>([idx], order);
  }

  lemma PushKeepsLinked(slots: seq<Slot>, order: seq<nat>, idx: nat, head: nat, tail: nat)
    requires Linked(slots, order, head, tail) && OccupiedAt(slots, idx) && idx !in order && idx < NONE
    ensures Linked(Pushed(slots, order, idx, head), [idx] + order, idx, if order == [] then idx else tail)
  {
    var t, all := Pushed(slots, order, idx, head), [idx] + order;
    PushDistinct(order, idx);
    forall j | 0 <= j < |all| ensures Placed(t, all[j], Before(all, j), After(all, j)) {
      if j > 0 {
        PushedPlace(slots, order, idx, head, j - 1);
        PushNeighbours(order, idx, j - 1);
      }
    }
  }

  lemma PushedOccupants(slots: seq<Slot>, order: seq<nat>, idx: nat, head: nat)
    requires OccupiedAt(slots, idx) && (order != [] ==> OccupiedAt(slots, order[0]))
    ensures SameOccupants(slots, Pushed(slots, order, idx, head))
  {
  }

  /** A list only depends on the slots it visits. */
  lemma LinkedFrame(slots: seq<Slot>, t: seq<Slot>, order: seq<nat>, head: nat, tail: nat)
    requires Linked(slots, order, head, tail)
    requires forall i :: 0 <= i < |order| ==> order[i] < |t| && t[order[i]] == slots[order[i]]
    ensures Linked(t, order, head, tail)
  {
    forall i | 0 <= i < |order| ensures Placed(t, order[i], Before(order, i), After(order, i)) {
      assert Placed(slots, order[i], Before(order, i), After(order, i));
    }
  }

  lemma PlacedAround(slots: seq<Slot>, order: seq<nat>, head: nat, tail: nat, i: nat)
    requires Linked(slots, order, head, tail) && i < |order|
    ensures Placed(slots, order[i], Before(order, i), After(order, i))
    ensures i > 0 ==> Placed(slots, order[i - 1], Before(order, i - 1), After(order, i - 1))
    ensures i + 1 < |order| ==> Placed(slots, order[i + 1], Before(order, i + 1), After(order, i + 1))
  {
  }

  lemma LinkedOccupied(slots: seq<Slot>, order: seq<nat>, head: nat, tail: nat)
    requires Linked(slots, order, head, tail)
    ensures AllOccupied(slots, order)
  {
    forall i | 0 <= i < |order| ensures OccupiedAt(slots, order[i]) {
      assert Placed(slots, order[i], Before(order, i), After(order, i));
    }
  }

  // ---- Occupants ----

  lemma ItemsOfWithout(slots: seq<Slot>, t: seq<Slot>, order: seq<nat>, i: nat)
    requires AllOccupied(slots, order) && SameOccupants(slots, t) && i < |order|
    ensures AllOccupied(t, Without(order, i))
    ensures Items(t, Without(order, i)) == Without(Items(slots, order), i)
  {
    forall j | 0 <= j < |order| - 1
      ensures OccupiedAt(t, Without(order, i)[j]) && ItemAt(t[Without(order, i)[j]]) == Without(Items(slots, order), i)[j]
    {
      DropAt(order, i, j);
    }
  }

  lemma ItemsOfPush(slots: seq<Slot>, t: seq<Slot>, order: seq<nat>, idx: nat)
    requires AllOccupied(slots, order) && OccupiedAt(slots, idx) && SameOccupants(slots, t)
    ensures AllOccupied(t, [idx] + order)
    ensures Items(t, [idx] + order) == [ItemAt(slots[idx])] + Items(slots, order)
  {
  }

  lemma ItemsSame(slots: seq<Slot>, t: seq<Slot>, order: seq<nat>)
    requires AllOccupied(slots, order) && AllOccupied(t, order)
    requires forall i :: 0 <= i < |order| ==> ItemAt(slots[order[i]]) == ItemAt(t[order[i]])
    ensures Items(t, order) == Items(slots, order)
  {
  }

  // ---- The whole structure ----

  /** Every slot is on exactly one of the two lists. */
  ghost predicate Partitioned(slots: seq<Slot>, order: seq<nat>, free: seq<nat>) {
    && |order| + |free| == |slots|
    && forall idx :: 0 <= idx < |slots| ==> (slots[idx].Occupied? <==> idx in order) && (slots[idx].Free? <==> idx in free)
  }

  /** The map is a bijection from its keys onto the occupied slots. */
  ghost predicate Mapped(m: map<CacheKey, nat>, slots: seq<Slot>, order: seq<nat>) {
    && |m| == |order|
    && (forall i :: 0 <= i < |order| ==>
          OccupiedAt(slots, order[i]) && slots[order[i]].node.key in m && m[slots[order[i]].node.key] == order[i])
    && (forall k :: k in m ==> m[k] in order && OccupiedAt(slots, m[k]) && slots[m[k]].node.key == k)
  }

  lemma FreeSurvives(slots: seq<Slot>, t: seq<Slot>, free: seq<nat>, freeHead: nat)
    requires FreeLinked(slots, free, freeHead) && SameOccupants(slots, t)
    ensures FreeLinked(t, free, freeHead)
  {
    forall i | 0 <= i < |free| ensures t[free[i]] == Free(After(free, i)) {
      assert slots[free[i]].Free?;
    }
  }

  lemma MappedSurvives(m: map<CacheKey, nat>, slots: seq<Slot>, t: seq<Slot>, order: seq<nat>, order': seq<nat>)
    requires Mapped(m, slots, order) && SameOccupants(slots, t)
    requires |order'| == |order| && forall x :: x in order' <==> x in order
    ensures Mapped(m, t, order')
  {
    forall i | 0 <= i < |order'|
      ensures OccupiedAt(t, order'[i]) && t[order'[i]].node.key in m && m[t[order'[i]].node.key] == order'[i]
    {
      assert order'[i] in order;
      var j :| 0 <= j < |order| && order[j] == order'[i];
      assert slots[order[j]].Occupied?;
    }
    forall k | k in m ensures m[k] in order' && OccupiedAt(t, m[k]) && t[m[k]].node.key == k {
      assert slots[m[k]].Occupied?;
    }
  }

  lemma MappedKeysDistinct(m: map<CacheKey, nat>, slots: seq<Slot>, order: seq<nat>)
    requires Mapped(m, slots, order) && Distinct<nat>(order)
    ensures DistinctKeys(Items(slots, order))
  {
    var s := Items(slots, order);
    forall i, j | 0 <= i < j < |s| ensures s[i].key != s[j].key {
      assert m[slots[order[i]].node.key] == order[i] != order[j] == m[slots[order[j]].node.key];
    }
  }

  /** Looking a key up in the map finds its place in the recency sequence. */
  lemma MapFindsPlace(m: map<CacheKey, nat>, slots: seq<Slot>, order: seq<nat>, key: CacheKey)
    requires Mapped(m, slots, order) && Distinct<nat>(order)
    ensures key in m <==> Place(Items(slots, order), key).Some?
    ensures key in m ==> m[key] == order[Place(Items(slots, order), key).value]
  {
    var s := Items(slots, order);
    if key in m {
      var i :| 0 <= i < |order| && order[i] == m[key];
      assert s[i].key == key;
      MappedKeysDistinct(m, slots, order);
      PlaceUnique(s, i);
    } else {
      forall i | 0 <= i < |s| ensures s[i].key != key {
        assert s[i].key == slots[order[i]].node.key && s[i].key in m;
      }
      PlaceAbsent(s, key);
    }
  }

  /** The structure of a cache, bytes aside. */
  ghost predicate Whole(m: map<CacheKey, nat>, slots: seq<Slot>, head: nat, tail: nat, freeHead: nat,
                        order: seq<nat>, free: seq<nat>)
  {
    && Linked(slots, order, head, tail)
    && FreeLinked(slots, free, freeHead)
    && Partitioned(slots, order, free)
    && Mapped(m, slots, order)
  }

  /** The slots once the node at place `i` is unlinked and its slot freed. */
  function Removed(slots: seq<Slot>, order: seq<nat>, i: nat, freeHead: nat): seq<Slot>
    requires i < |order| && AllOccupied(slots, order)
  {
    Unlinked(slots, order, i)[order[i] := Free(freeHead)]
  }

  lemma RemovalKeepsWhole(m: map<CacheKey, nat>, slots: seq<Slot>, head: nat, tail: nat, freeHead: nat,
                          order: seq<nat>, free: seq<nat>, i: nat)
    requires Whole(m, slots, head, tail, freeHead, order, free) && i < |order|
    ensures AllOccupied(slots, order)
    ensures Whole(m - {slots[order[i]].node.key}, Removed(slots, order, i, freeHead),
                  HeadWithout(order, i, head), TailWithout(order, i, tail), order[i],
                  Without(order, i), [order[i]] + free)
  {
    LinkedOccupied(slots, order, head, tail);
    var t := Unlinked(slots, order, i);
    UnlinkedOccupants(slots, order, i, head, tail);
    UnlinkKeepsLinked(slots, order, i, head, tail);
    assert Placed(slots, order[i], Before(order, i), After(order, i));
    FreeingKeepsLinked(t, order, i, HeadWithout(order, i, head), TailWithout(order, i, tail), freeHead);
    FreedIsLinked(slots, t, free, freeHead, order[i]);
    FreedPartition(slots, t, order, free, i, freeHead);
    FreedMap(m, slots, t, order, i, freeHead);
  }

  lemma FreeingKeepsLinked(t: seq<Slot>, order: seq<nat>, i: nat, head: nat, tail: nat, freeHead: nat)
    requires i < |order| && order[i] < |t| && Distinct<nat>(order) && Linked(t, Without(order, i), head, tail)
    ensures Linked(t[order[i] := Free(freeHead)], Without(order, i), head, tail)
  {
    DropDistinct(order, i);
    var rest := Without(order, i);
    forall j | 0 <= j < |rest| ensures rest[j] < |t| && rest[j] != order[i] {
      assert rest[j] in rest;
      assert Placed(t, rest[j], Before(rest, j), After(rest, j));
    }
    LinkedFrame(t, t[order[i] := Free(freeHead)], rest, head, tail);
  }

  /** Removing place `i` removes exactly that item from the recency sequence. */
  lemma RemovalOfItem(slots: seq<Slot>, order: seq<nat>, i: nat, head: nat, tail: nat, freeHead: nat)
    requires Linked(slots, order, head, tail) && i < |order| && AllOccupied(slots, order)
    ensures AllOccupied(Removed(slots, order, i, freeHead), Without(order, i))
    ensures Items(Removed(slots, order, i, freeHead), Without(order, i)) == Without(Items(slots, order), i)
    ensures Items(slots, order)[i].bytes == slots[order[i]].node.bytes
    ensures OccupiedAt(Unlinked(slots, order, i), order[i])
    ensures Unlinked(slots, order, i)[order[i]].node.key == slots[order[i]].node.key
    ensures Unlinked(slots, order, i)[order[i]].node.bytes == slots[order[i]].node.bytes
  {
    var t, u, rest := Unlinked(slots, order, i), Removed(slots, order, i, freeHead), Without(order, i);
    UnlinkedOccupants(slots, order, i, head, tail);
    ItemsOfWithout(slots, t, order, i);
    DropDistinct(order, i);
    forall j | 0 <= j < |rest| ensures OccupiedAt(u, rest[j]) && ItemAt(t[rest[j]]) == ItemAt(u[rest[j]]) {
      assert rest[j] in rest;
      assert OccupiedAt(t, rest[j]);
    }
    ItemsSame(t, u, rest);
  }

  lemma FreedIsLinked(slots: seq<Slot>, t: seq<Slot>, free: seq<nat>, freeHead: nat, idx: nat)
    requires FreeLinked(slots, free, freeHead) && SameOccupants(slots, t) && OccupiedAt(slots, idx) && idx < NONE
    ensures FreeLinked(t[idx := Free(freeHead)], [idx] + free, idx)
  {
    var u, all := t[idx := Free(freeHead)], [idx] + free;
    FreeSurvives(slots, t, free, freeHead);
    forall j | 0 <= j < |free| ensures free[j] != idx {
      assert slots[free[j]] == Free(After(free, j));
    }
    PushDistinct(free, idx);
    forall j | 0 <= j < |all| ensures all[j] < NONE && all[j] < |u| && u[all[j]] == Free(After(all, j)) {
      if j > 0 {
        PushNeighbours(free, idx, j - 1);
        assert free[j - 1] in free;
      } else if free != [] {
        assert all[1] == free[0];
      }
    }
  }

  lemma FreedPartition(slots: seq<Slot>, t: seq<Slot>, order: seq<nat>, free: seq<nat>, i: nat, freeHead: nat)
    requires Partitioned(slots, order, free) && Distinct<nat>(order) && i < |order| && OccupiedAt(slots, order[i])
    requires SameOccupants(slots, t)
    ensures Partitioned(t[order[i] := Free(freeHead)], Without(order, i), [order[i]] + free)
  {
    DropDistinct(order, i);
    var u, idx := t[order[i] := Free(freeHead)], order[i];
    forall x | 0 <= x < |u|
      ensures (u[x].Occupied? <==> x in Without(order, i)) && (u[x].Free? <==> x in [idx] + free)
    {
      assert slots[x].Occupied? <==> t[x].Occupied?;
    }
  }

  lemma FreedMap(m: map<CacheKey, nat>, slots: seq<Slot>, t: seq<Slot>, order: seq<nat>, i: nat, freeHead: nat)
    requires Mapped(m, slots, order) && Distinct<nat>(order) && i < |order| && SameOccupants(slots, t)
    ensures Mapped(m - {slots[order[i]].node.key}, t[order[i] := Free(freeHead)], Without(order, i))
  {
    var idx, rest := order[i], Without(order, i);
    var key := slots[idx].node.key;
    var u, m' := t[idx := Free(freeHead)], m - {key};
    DropDistinct(order, i);
    assert m'.Keys == m.Keys - {key};
    assert |m'| == |m'.Keys| == |m.Keys| - 1;
    forall j | 0 <= j < |rest|
      ensures OccupiedAt(u, rest[j]) && u[rest[j]].node.key in m' && m'[u[rest[j]].node.key] == rest[j]
    {
      DropAt(order, i, j);
      assert rest[j] in rest;
      assert slots[rest[j]].Occupied?;
    }
    forall k | k in m' ensures m'[k] in rest && OccupiedAt(u, m'[k]) && u[m'[k]].node.key == k {
      assert m[k] in order && m[k] != idx;
      assert slots[m[k]].Occupied?;
    }
  }

  // ---- The structure as a value ----

  /** Everything a cache holds, the slots of its two lists and its recency sequence included. */
  datatype CacheView = CacheView(index: map<CacheKey, nat>, slots: seq<Slot>, head: nat, tail: nat, freeHead: nat,
                                 bytesTotal: nat, order: seq<nat>, free: seq<nat>, contents: seq<Item>)

  /**
   The map is a bijection onto the occupied slots, the recency list visits each of them
   once, the free list the others, and the byte count is the exact sum.
   */
  ghost predicate Good(v: CacheView) {
    && Whole(v.index, v.slots, v.head, v.tail, v.freeHead, v.order, v.free)
    && v.contents == Items(v.slots, v.order)
    && v.bytesTotal == Total(v.contents)
  }

  /** What taking the node at place `i` out of the list relies on. */
  ghost predicate Detachable(slots: seq<Slot>, order: seq<nat>, i: nat) {
    && i < |order|
    && Placed(slots, order[i], Before(order, i), After(order, i))
    && (i > 0 ==> Placed(slots, order[i - 1], Before(order, i - 1), After(order, i - 1)))
    && (i + 1 < |order| ==> Placed(slots, order[i + 1], Before(order, i + 1), After(order, i + 1)))
  }

  /** The view once the node at place `i` is unlinked, forgotten and its slot freed. */
  ghost function RemovedView(v: CacheView, i: nat): CacheView
    requires Removable(v, i)
  {
    CacheView(v.index - {v.slots[v.order[i]].node.key}, Unlinked(v.slots, v.order, i)[v.order[i] := Free(v.freeHead)],
              HeadWithout(v.order, i, v.head), TailWithout(v.order, i, v.tail), v.order[i],
              v.bytesTotal - v.slots[v.order[i]].node.bytes,
              Without(v.order, i), [v.order[i]] + v.free, Without(v.contents, i))
  }

  ghost predicate Removable(v: CacheView, i: nat) {
    && Detachable(v.slots, v.order, i)
    && i < |v.contents|
    && OccupiedAt(Unlinked(v.slots, v.order, i), v.order[i])
    && Unlinked(v.slots, v.order, i)[v.order[i]].node.key == v.slots[v.order[i]].node.key
    && Unlinked(v.slots, v.order, i)[v.order[i]].node.bytes == v.slots[v.order[i]].node.bytes <= v.bytesTotal
  }

  lemma EveryPlaceRemovable(v: CacheView, i: nat)
    requires Good(v) && i < |v.order|
    ensures Removable(v, i)
  {
    LinkedOccupied(v.slots, v.order, v.head, v.tail);
    PlacedAround(v.slots, v.order, v.head, v.tail, i);
    TotalWithout(v.contents, i);
    RemovalOfItem(v.slots, v.order, i, v.head, v.tail, v.freeHead);
  }

  lemma RemovedIsGood(v: CacheView, i: nat)
    requires Good(v) && Removable(v, i)
    ensures Good(RemovedView(v, i))
  {
    LinkedOccupied(v.slots, v.order, v.head, v.tail);
    TotalWithout(v.contents, i);
    RemovalKeepsWhole(v.index, v.slots, v.head, v.tail, v.freeHead, v.order, v.free, i);
    RemovalOfItem(v.slots, v.order, i, v.head, v.tail, v.freeHead);
  }

  /** The view once the node at place `i` is moved to the front. */
  ghost function MovedView(v: CacheView, i: nat): CacheView
    requires Movable(v, i)
  {
    v.(slots := Pushed(Unlinked(v.slots, v.order, i), Without(v.order, i), v.order[i], HeadWithout(v.order, i, v.head)),
    head := v.order[i],
    tail := if Without(v.order, i) == [] then v.order[i] else TailWithout(v.order, i, v.tail),
    order := [v.order[i]] + Without(v.order, i),
    contents := [v.contents[i]] + Without(v.contents, i))
  }

  ghost predicate Movable(v: CacheView, i: nat) {
    && Detachable(v.slots, v.order, i) && i < |v.contents|
    && Pushable(Unlinked(v.slots, v.order, i), Without(v.order, i), v.order[i],
                HeadWithout(v.order, i, v.head), TailWithout(v.order, i, v.tail))
  }

  /** What putting slot `idx` in front of the list relies on. */
  ghost predicate Pushable(slots: seq<Slot>, order: seq<nat>, idx: nat, head: nat, tail: nat) {
    && OccupiedAt(slots, idx) && idx < NONE && head == First(order) && tail == Last(order)
    && (order != [] ==> OccupiedAt(slots, head) && head < NONE && tail < NONE)
  }

  lemma LinkedIsPushable(slots: seq<Slot>, order: seq<nat>, idx: nat, head: nat, tail: nat)
    requires Linked(slots, order, head, tail) && OccupiedAt(slots, idx) && idx < NONE
    ensures Pushable(slots, order, idx, head, tail)
  {
    if order != [] {
      assert Placed(slots, order[0], Before(order, 0), After(order, 0));
      var last := |order| - 1;
      assert Placed(slots, order[last], Before(order, last), After(order, last));
    }
  }

  lemma EveryPlaceMovable(v: CacheView, i: nat)
    requires Good(v) && i < |v.order|
    ensures Movable(v, i)
  {
    PlacedAround(v.slots, v.order, v.head, v.tail, i);
    UnlinkKeepsLinked(v.slots, v.order, i, v.head, v.tail);
    UnlinkedOccupants(v.slots, v.order, i, v.head, v.tail);
    LinkedIsPushable(Unlinked(v.slots, v.order, i), Without(v.order, i), v.order[i],
                     HeadWithout(v.order, i, v.head), TailWithout(v.order, i, v.tail));
  }

  lemma OccupantsChain(a: seq<Slot>, b: seq<Slot>, c: seq<Slot>)
    requires SameOccupants(a, b) && SameOccupants(b, c)
    ensures SameOccupants(a, c)
  {
    forall i | 0 <= i < |a|
      ensures match a[i]
              case Free(n) => c[i] == a[i]
              case Occupied(m) => c[i].Occupied? && c[i].node == m.(prev := c[i].node.prev, next := c[i].node.next)
    {
      assert b[i].Occupied? <==> a[i].Occupied?;
    }
  }

  lemma PartitionSurvives(slots: seq<Slot>, t: seq<Slot>, order: seq<nat>, order': seq<nat>, free: seq<nat>)
    requires Partitioned(slots, order, free) && SameOccupants(slots, t)
    requires |order'| == |order| && forall x :: x in order' <==> x in order
    ensures Partitioned(t, order', free)
  {
    forall x | 0 <= x < |t| ensures (t[x].Occupied? <==> x in order') && (t[x].Free? <==> x in free) {
      assert slots[x].Occupied? <==> t[x].Occupied?;
    }
  }

  lemma FrontedMembers(order: seq<nat>, i: nat)
    requires i < |order| && Distinct<nat>(order)
    ensures var moved := [order[i]] + Without(order, i);
            |moved| == |order| && forall x :: x in moved <==> x in order
  {
    DropDistinct(order, i);
  }

  lemma MovedIsWhole(v: CacheView, i: nat)
    requires Good(v) && Movable(v, i)
    ensures var w := MovedView(v, i);
            Whole(w.index, w.slots, w.head, w.tail, w.freeHead, w.order, w.free) && SameOccupants(v.slots, w.slots)
  {
    var t, rest := Unlinked(v.slots, v.order, i), Without(v.order, i);
    var h := HeadWithout(v.order, i, v.head);
    UnlinkKeepsLinked(v.slots, v.order, i, v.head, v.tail);
    UnlinkedOccupants(v.slots, v.order, i, v.head, v.tail);
    DropDistinct(v.order, i);
    PushKeepsLinked(t, rest, v.order[i], h, TailWithout(v.order, i, v.tail));
    PushedOccupants(t, rest, v.order[i], h);
    var u := Pushed(t, rest, v.order[i], h);
    OccupantsChain(v.slots, t, u);
    FrontedMembers(v.order, i);
    FreeSurvives(v.slots, u, v.free, v.freeHead);
    PartitionSurvives(v.slots, u, v.order, [v.order[i]] + rest, v.free);
    MappedSurvives(v.index, v.slots, u, v.order, [v.order[i]] + rest);
  }

  lemma MovedIsGood(v: CacheView, i: nat)
    requires Good(v) && Movable(v, i)
    ensures Good(MovedView(v, i)) && |MovedView(v, i).slots| == |v.slots|
  {
    MovedIsWhole(v, i);
    TotalWithout(v.contents, i);
    LinkedOccupied(v.slots, v.order, v.head, v.tail);
    MovedItems(v.slots, MovedView(v, i).slots, v.order, i);
  }

  lemma MovedItems(slots: seq<Slot>, t: seq<Slot>, order: seq<nat>, i: nat)
    requires AllOccupied(slots, order) && SameOccupants(slots, t) && i < |order|
    ensures AllOccupied(t, [order[i]] + Without(order, i))
    ensures Items(t, [order[i]] + Without(order, i)) == [Items(slots, order)[i]] + Without(Items(slots, order), i)
  {
    ItemsOfWithout(slots, t, order, i);
    assert OccupiedAt(slots, order[i]);
  }

  // ---- A new entry for a held key ----

  /** The slots once the node in slot `idx` holds `item`'s entry and bytes. */
  function Refilled(slots: seq<Slot>, idx: nat, item: Item): seq<Slot>
    requires OccupiedAt(slots, idx)
  {
    slots[idx := Occupied(slots[idx].node.(entry := item.entry, bytes := item.bytes))]
  }

  /** The view once the node at place `i` holds `item`, which has its key. */
  ghost function RefilledView(v: CacheView, i: nat, item: Item): CacheView
    requires i < |v.order| && i < |v.contents| && OccupiedAt(v.slots, v.order[i])
    requires v.slots[v.order[i]].node.bytes <= v.bytesTotal
  {
    v.(slots := Refilled(v.slots, v.order[i], item),
    bytesTotal := v.bytesTotal - v.slots[v.order[i]].node.bytes + item.bytes,
    contents := v.contents[i := item])
  }

  lemma RefilledLinks(slots: seq<Slot>, order: seq<nat>, head: nat, tail: nat, idx: nat, item: Item)
    requires Linked(slots, order, head, tail) && OccupiedAt(slots, idx)
    ensures Linked(Refilled(slots, idx, item), order, head, tail)
  {
    var t := Refilled(slots, idx, item);
    forall i | 0 <= i < |order| ensures Placed(t, order[i], Before(order, i), After(order, i)) {
      assert Placed(slots, order[i], Before(order, i), After(order, i));
    }
  }

  lemma RefilledFree(slots: seq<Slot>, free: seq<nat>, freeHead: nat, idx: nat, item: Item)
    requires FreeLinked(slots, free, freeHead) && OccupiedAt(slots, idx)
    ensures FreeLinked(Refilled(slots, idx, item), free, freeHead)
  {
    var t := Refilled(slots, idx, item);
    forall i | 0 <= i < |free| ensures free[i] != idx && t[free[i]] == Free(After(free, i)) {
      assert slots[free[i]].Free?;
    }
  }

  lemma RefilledPartition(slots: seq<Slot>, order: seq<nat>, free: seq<nat>, idx: nat, item: Item)
    requires Partitioned(slots, order, free) && OccupiedAt(slots, idx)
    ensures Partitioned(Refilled(slots, idx, item), order, free)
  {
  }

  lemma RefilledIsWhole(m: map<CacheKey, nat>, slots: seq<Slot>, head: nat, tail: nat, freeHead: nat,
                        order: seq<nat>, free: seq<nat>, idx: nat, item: Item)
    requires Whole(m, slots, head, tail, freeHead, order, free) && OccupiedAt(slots, idx)
    ensures Whole(m, Refilled(slots, idx, item), head, tail, freeHead, order, free)
  {
    RefilledLinks(slots, order, head, tail, idx, item);
    RefilledFree(slots, free, freeHead, idx, item);
    RefilledPartition(slots, order, free, idx, item);
    RefilledMap(m, slots, order, idx, item);
  }

  lemma RefilledMap(m: map<CacheKey, nat>, slots: seq<Slot>, order: seq<nat>, idx: nat, item: Item)
    requires Mapped(m, slots, order) && OccupiedAt(slots, idx)
    ensures Mapped(m, Refilled(slots, idx, item), order)
  {
  }

  lemma RefilledItems(slots: seq<Slot>, order: seq<nat>, i: nat, item: Item)
    requires AllOccupied(slots, order) && Distinct<nat>(order) && i < |order| && item.key == slots[order[i]].node.key
    ensures AllOccupied(Refilled(slots, order[i], item), order)
    ensures Items(Refilled(slots, order[i], item), order) == Items(slots, order)[i := item]
  {
    var t := Refilled(slots, order[i], item);
    forall j | 0 <= j < |order| ensures OccupiedAt(t, order[j]) && (j != i ==> order[j] != order[i]) {
      assert OccupiedAt(slots, order[j]);
    }
  }

  lemma TotalUpdated(s: seq<Item>, i: nat, item: Item)
    requires i < |s|
    ensures Total(s[i := item]) == Total(s) - s[i].bytes + item.bytes
    ensures Without(s[i := item], i) == Without(s, i)
  {
    TotalWithout(s, i);
    TotalWithout(s[i := item], i);
    assert Without(s[i := item], i) == Without(s, i);
  }

  /** The bytes of a held item are part of the total. */
  lemma BytesCounted(slots: seq<Slot>, order: seq<nat>, i: nat)
    requires AllOccupied(slots, order) && i < |order|
    ensures Items(slots, order)[i].bytes == slots[order[i]].node.bytes <= Total(Items(slots, order))
  {
    TotalWithout(Items(slots, order), i);
  }

  lemma RefilledContents(slots: seq<Slot>, order: seq<nat>, contents: seq<Item>, i: nat, item: Item)
    requires AllOccupied(slots, order) && Distinct<nat>(order) && contents == Items(slots, order) && i < |order|
    requires item.key == contents[i].key
    ensures slots[order[i]].node.bytes <= Total(contents)
    ensures Total(contents[i := item]) == Total(contents) - slots[order[i]].node.bytes + item.bytes
    ensures AllOccupied(Refilled(slots, order[i], item), order)
    ensures Items(Refilled(slots, order[i], item), order) == contents[i := item]
  {
    BytesCounted(slots, order, i);
    TotalUpdated(contents, i, item);
    RefilledItems(slots, order, i, item);
  }

  lemma RefilledParts(v: CacheView, i: nat, item: Item)
    requires Good(v) && i < |v.order| && i < |v.contents| && OccupiedAt(v.slots, v.order[i])
    requires item.key == v.contents[i].key
    ensures v.slots[v.order[i]].node.bytes <= v.bytesTotal
    ensures var w := RefilledView(v, i, item);
            AllOccupied(w.slots, w.order) && w.contents == Items(w.slots, w.order) && w.bytesTotal == Total(w.contents)
  {
    LinkedOccupied(v.slots, v.order, v.head, v.tail);
    RefilledContents(v.slots, v.order, v.contents, i, item);
  }

  lemma RefilledIsGood(v: CacheView, i: nat, item: Item)
    requires Good(v) && i < |v.order| && i < |v.contents| && OccupiedAt(v.slots, v.order[i])
    requires item.key == v.contents[i].key && v.slots[v.order[i]].node.bytes <= v.bytesTotal
    ensures Good(RefilledView(v, i, item))
  {
    RefilledParts(v, i, item);
    RefilledIsWhole(v.index, v.slots, v.head, v.tail, v.freeHead, v.order, v.free, v.order[i], item);
  }

  // ---- A new key ----

  /** The slot a new node goes to: the head of the free list, or a new one. */
  function SlotFor(slots: seq<Slot>, freeHead: nat): nat {
    if freeHead == NONE then |slots| else freeHead
  }

  function Filled(slots: seq<Slot>, freeHead: nat, node: Node): seq<Slot>
    requires freeHead == NONE || freeHead < |slots|
  {
    if freeHead == NONE then slots + [Occupied(node)] else slots[freeHead := Occupied(node)]
  }

  /** The free list once its head is taken. */
  function FreeRest(free: seq<nat>): seq<nat> {
    if free == [] then [] else free[1..]
  }

  function NewNode(item: Item): Node {
    Node(item.key, item.entry, item.bytes, NONE, NONE)
  }

  /** The slots and links right after a slot has been taken for `node`. */
  ghost predicate Took(slots: seq<Slot>, t: seq<Slot>, order: seq<nat>, idx: nat, node: Node) {
    && |slots| <= |t| <= |slots| + 1 && idx < |t|
    && t[idx] == Occupied(node)
    && (forall x :: 0 <= x < |slots| && x != idx ==> t[x] == slots[x])
    && (|slots| < |t| ==> idx == |slots|)
    && (idx < |slots| ==> slots[idx].Free?)
  }

  lemma FilledTook(slots: seq<Slot>, order: seq<nat>, free: seq<nat>, freeHead: nat, node: Node)
    requires FreeLinked(slots, free, freeHead)
    ensures freeHead == NONE || freeHead < |slots|
    ensures freeHead == NONE <==> free == []
    ensures Took(slots, Filled(slots, freeHead, node), order, SlotFor(slots, freeHead), node)
  {
    if free != [] { assert free[0] < |slots| && slots[free[0]] == Free(After(free, 0)); }
  }

  lemma TookNotListed(slots: seq<Slot>, t: seq<Slot>, order: seq<nat>, head: nat, tail: nat, idx: nat, node: Node)
    requires Linked(slots, order, head, tail) && Took(slots, t, order, idx, node)
    ensures idx !in order && Linked(t, order, head, tail)
  {
    forall i | 0 <= i < |order| ensures order[i] < |slots| && order[i] != idx {
      assert Placed(slots, order[i], Before(order, i), After(order, i));
    }
    LinkedFrame(slots, t, order, head, tail);
  }

  /** Behind its head the free list is a free list, also in slots that differ at the head only. */
  lemma FreeRestLinked(slots: seq<Slot>, t: seq<Slot>, free: seq<nat>, freeHead: nat)
    requires FreeLinked(slots, free, freeHead) && free != [] && |t| == |slots|
    requires forall x :: 0 <= x < |slots| && x != free[0] && slots[x].Free? ==> t[x] == slots[x]
    ensures FreeLinked(t, FreeRest(free), After(free, 0)) && slots[freeHead] == Free(After(free, 0))
    ensures |FreeRest(free)| == |free| - 1 && forall x :: x in FreeRest(free) <==> x in free && x != free[0]
  {
    var rest := FreeRest(free);
    forall i | 0 <= i < |rest|
      ensures rest[i] < NONE && rest[i] < |t| && t[rest[i]] == Free(After(rest, i)) && rest[i] != free[0]
    {
      assert rest[i] == free[i + 1] && After(rest, i) == After(free, i + 1);
      assert slots[free[i + 1]] == Free(After(free, i + 1));
    }
    assert forall x :: x in free ==> x == free[0] || x in rest;
  }

  lemma TookPartition(slots: seq<Slot>, t: seq<Slot>, order: seq<nat>, free: seq<nat>, rest: seq<nat>, idx: nat, node: Node)
    requires Partitioned(slots, order, free) && Took(slots, t, order, idx, node)
    requires if |slots| < |t| then rest == free && free == []
             else |rest| == |free| - 1 && forall x :: x in rest <==> x in free && x != idx
    ensures Partitioned(t, [idx] + order, rest)
  {
    forall x | 0 <= x < |t| ensures (t[x].Occupied? <==> x in [idx] + order) && (t[x].Free? <==> x in rest) {
      if x < |slots| { assert slots[x].Occupied? <==> x in order; }
    }
  }

  lemma TookMapsSlots(m: map<CacheKey, nat>, slots: seq<Slot>, t: seq<Slot>, order: seq<nat>, idx: nat, node: Node, i: nat)
    requires Mapped(m, slots, order) && Took(slots, t, order, idx, node) && node.key !in m && idx !in order
    requires i <= |order|
    ensures var x := ([idx] + order)[i];
            OccupiedAt(t, x) && t[x].node.key in m[node.key := idx] && m[node.key := idx][t[x].node.key] == x
  {
    if i > 0 { assert order[i - 1] in order && OccupiedAt(slots, order[i - 1]); }
  }

  lemma TookMapsKeys(m: map<CacheKey, nat>, slots: seq<Slot>, t: seq<Slot>, order: seq<nat>, idx: nat, node: Node, k: CacheKey)
    requires Mapped(m, slots, order) && Took(slots, t, order, idx, node) && node.key !in m && idx !in order
    requires k in m[node.key := idx]
    ensures var x := m[node.key := idx][k]; x in [idx] + order && OccupiedAt(t, x) && t[x].node.key == k
  {
    if k != node.key { assert m[k] in order && OccupiedAt(slots, m[k]); }
  }

  lemma GrownMap(m: map<CacheKey, nat>, key: CacheKey, idx: nat)
    requires key !in m
    ensures |m[key := idx]| == |m| + 1
  {
    assert m[key := idx].Keys == m.Keys + {key};
    assert |m[key := idx]| == |m.Keys + {key}|;
  }

  lemma TookMap(m: map<CacheKey, nat>, slots: seq<Slot>, t: seq<Slot>, order: seq<nat>, idx: nat, node: Node)
    requires Mapped(m, slots, order) && Took(slots, t, order, idx, node) && node.key !in m && idx !in order
    ensures Mapped(m[node.key := idx], t, [idx] + order)
  {
    var m', all := m[node.key := idx], [idx] + order;
    GrownMap(m, node.key, idx);
    forall i | 0 <= i < |all|
      ensures OccupiedAt(t, all[i]) && t[all[i]].node.key in m' && m'[t[all[i]].node.key] == all[i]
    {
      TookMapsSlots(m, slots, t, order, idx, node, i);
    }
    forall k | k in m' ensures m'[k] in all && OccupiedAt(t, m'[k]) && t[m'[k]].node.key == k {
      TookMapsKeys(m, slots, t, order, idx, node, k);
    }
  }

  lemma TookItems(slots: seq<Slot>, t: seq<Slot>, order: seq<nat>, idx: nat, node: Node)
    requires AllOccupied(slots, order) && Took(slots, t, order, idx, node) && idx !in order
    ensures AllOccupied(t, order) && Items(t, order) == Items(slots, order)
  {
    forall i | 0 <= i < |order| ensures OccupiedAt(t, order[i]) && ItemAt(t[order[i]]) == ItemAt(slots[order[i]]) {
      assert order[i] in order && OccupiedAt(slots, order[i]);
    }
    ItemsSame(slots, t, order);
  }

  /** The view once a slot holds `item` and is in front of the list. */
  ghost function AddedView(v: CacheView, item: Item): CacheView
    requires Addable(v, item)
  {
    var idx := SlotFor(v.slots, v.freeHead);
    CacheView(v.index[item.key := idx],
              Pushed(Filled(v.slots, v.freeHead, NewNode(item)), v.order, idx, v.head),
              idx, if v.order == [] then idx else v.tail,
              if v.freeHead == NONE then NONE else v.slots[v.freeHead].nextFree,
              v.bytesTotal + item.bytes, [idx] + v.order, FreeRest(v.free), [item] + v.contents)
  }

  ghost predicate Addable(v: CacheView, item: Item) {
    && (v.freeHead == NONE || (v.freeHead < |v.slots| && v.slots[v.freeHead].Free?))
    && Pushable(Filled(v.slots, v.freeHead, NewNode(item)), v.order, SlotFor(v.slots, v.freeHead), v.head, v.tail)
  }

  lemma AnyItemAddable(v: CacheView, item: Item)
    requires Good(v) && |v.slots| < NONE
    ensures Addable(v, item)
  {
    var idx, node := SlotFor(v.slots, v.freeHead), NewNode(item);
    FilledTook(v.slots, v.order, v.free, v.freeHead, node);
    var t := Filled(v.slots, v.freeHead, node);
    TookNotListed(v.slots, t, v.order, v.head, v.tail, idx, node);
    LinkedIsPushable(t, v.order, idx, v.head, v.tail);
    if v.free != [] { FreeRestLinked(v.slots, v.slots, v.free, v.freeHead); }
  }

  lemma AddedFree(v: CacheView, t: seq<Slot>, u: seq<Slot>, item: Item)
    requires FreeLinked(v.slots, v.free, v.freeHead) && Addable(v, item)
    requires t == Filled(v.slots, v.freeHead, NewNode(item)) && SameOccupants(t, u)
    ensures FreeLinked(u, FreeRest(v.free), AddedView(v, item).freeHead)
    ensures if |v.slots| < |t| then FreeRest(v.free) == v.free && v.free == []
            else |FreeRest(v.free)| == |v.free| - 1 && forall x :: x in FreeRest(v.free) <==> x in v.free && x != SlotFor(v.slots, v.freeHead)
  {
    if v.free != [] {
      FreeRestLinked(v.slots, t, v.free, v.freeHead);
      FreeSurvives(t, u, FreeRest(v.free), After(v.free, 0));
    }
  }

  lemma AddedIsWhole(v: CacheView, item: Item)
    requires Good(v) && Addable(v, item) && item.key !in v.index
    ensures var w := AddedView(v, item); Whole(w.index, w.slots, w.head, w.tail, w.freeHead, w.order, w.free)
  {
    var idx, node := SlotFor(v.slots, v.freeHead), NewNode(item);
    var t := Filled(v.slots, v.freeHead, node);
    var u, all := Pushed(t, v.order, idx, v.head), [idx] + v.order;
    FilledTook(v.slots, v.order, v.free, v.freeHead, node);
    TookNotListed(v.slots, t, v.order, v.head, v.tail, idx, node);
    PushKeepsLinked(t, v.order, idx, v.head, v.tail);
    PushedOccupants(t, v.order, idx, v.head);
    AddedFree(v, t, u, item);
    TookPartition(v.slots, t, v.order, v.free, FreeRest(v.free), idx, node);
    PartitionSurvives(t, u, all, all, FreeRest(v.free));
    TookMap(v.index, v.slots, t, v.order, idx, node);
    MappedSurvives(v.index[item.key := idx], t, u, all, all);
  }

  lemma AddedItems(v: CacheView, item: Item)
    requires FreeLinked(v.slots, v.free, v.freeHead) && Linked(v.slots, v.order, v.head, v.tail) && Addable(v, item)
    requires AllOccupied(v.slots, v.order)
    ensures AllOccupied(AddedView(v, item).slots, AddedView(v, item).order)
    ensures Items(AddedView(v, item).slots, AddedView(v, item).order) == [item] + Items(v.slots, v.order)
  {
    var idx, node := SlotFor(v.slots, v.freeHead), NewNode(item);
    var t := Filled(v.slots, v.freeHead, node);
    FilledTook(v.slots, v.order, v.free, v.freeHead, node);
    TookNotListed(v.slots, t, v.order, v.head, v.tail, idx, node);
    TookItems(v.slots, t, v.order, idx, node);
    PushedOccupants(t, v.order, idx, v.head);
    ItemsOfPush(t, Pushed(t, v.order, idx, v.head), v.order, idx);
  }

  lemma AddedTotal(contents: seq<Item>, item: Item)
    ensures Total([item] + contents) == item.bytes + Total(contents)
  {
    TotalSplit([item], contents);
    TotalOne(item);
  }

  lemma AddedIsGood(v: CacheView, item: Item)
    requires Good(v) && Addable(v, item) && item.key !in v.index
    ensures Good(AddedView(v, item))
  {
    AddedIsWhole(v, item);
    LinkedOccupied(v.slots, v.order, v.head, v.tail);
    AddedItems(v, item);
    AddedTotal(v.contents, item);
  }

  lemma EntryAt(v: CacheView, i: nat)
    requires Good(v) && i < |v.order|
    ensures |v.contents| == |v.order| && OccupiedAt(v.slots, v.order[i])
    ensures v.slots[v.order[i]].node.entry == v.contents[i].entry
  {
    LinkedOccupied(v.slots, v.order, v.head, v.tail);
    assert OccupiedAt(v.slots, v.order[i]);
  }

  lemma AddedSize(v: CacheView, item: Item)
    requires Addable(v, item)
    ensures |AddedView(v, item).slots| == if v.freeHead == NONE then |v.slots| + 1 else |v.slots|
  {
  }

  /**
   What the structure amounts to: one recency sequence with distinct keys, found key by
   key through the map, in slots of which each is on exactly one of the two lists.
   */
  lemma OneRecencySequence(v: CacheView, key: CacheKey, idx: nat)
    requires Good(v) && idx < |v.slots|
    ensures DistinctKeys(v.contents) && |v.index| == |v.contents| == |v.order| && |v.order| + |v.free| == |v.slots|
    ensures key in v.index <==> Place(v.contents, key).Some?
    ensures key in v.index ==> v.index[key] == v.order[Place(v.contents, key).value]
    ensures idx in v.order <==> v.slots[idx].Occupied?
    ensures idx in v.free <==> v.slots[idx].Free?
    ensures v.bytesTotal == Total(v.contents)
  {
    MappedKeysDistinct(v.index, v.slots, v.order);
    MapFindsPlace(v.index, v.slots, v.order, key);
  }

  /** As many keys as items; a slot is free, or there are as many slots as items. */
  lemma Sizes(v: CacheView)
    requires Good(v)
    ensures |v.index| == |v.order| == |v.contents| <= |v.slots|
    ensures v.freeHead == NONE ==> |v.slots| == |v.order|
    ensures v.order == [] <==> v.tail == NONE
    ensures v.order != [] ==> v.tail == v.order[|v.order| - 1]
    ensures v.head == First(v.order) && Distinct<nat>(v.order)
  {
    if v.free != [] { assert v.free[0] < NONE; }
    if v.order != [] {
      var last := |v.order| - 1;
      assert Placed(v.slots, v.order[last], Before(v.order, last), After(v.order, last));
    }
  }

  class Cache {
    var index: map<CacheKey, nat>
    var slots: seq<Slot>
    var head: nat
    var tail: nat
    var freeHead: nat
    const capacity: nat
    var bytesTotal: nat
    const maxBytes: nat
    const serveStale: nat
    /** The slots of the recency list, and of the free list. */
    ghost var order: seq<nat>
    ghost var free: seq<nat>
    /** The recency sequence, most recently used first. */
    ghost var contents: seq<Item>

    ghost predicate Valid()
      reads this
    {
      && 0 < capacity < NONE && 0 < maxBytes && |slots| <= capacity
      && Good(View())
    }

    ghost function View(): CacheView
      reads this
    {
      CacheView(index, slots, head, tail, freeHead, bytesTotal, order, free, contents)
    }

    function Bounds(): Limits {
      Limits(capacity, maxBytes, serveStale)
    }

    /** Capacities are far below the sentinel index on any machine. */
    constructor (capacity: nat, maxBytes: nat, serveStale: nat)
      requires 0 < capacity < NONE && 0 < maxBytes
      ensures Valid() && contents == [] && Bounds() == Limits(capacity, maxBytes, serveStale)
    {
      index, slots := map[], [];
      head, tail, freeHead := NONE, NONE, NONE;
      this.capacity, this.maxBytes, this.serveStale := capacity, maxBytes, serveStale;
      bytesTotal := 0;
      order, free, contents := [], [], [];
    }

    /** Take `idx` out of the list; its slot stays occupied. */
    method Unlink(idx: nat, ghost i: nat)
      requires Detachable(slots, order, i) && order[i] == idx
      modifies this`slots, this`head, this`tail, this`order
      ensures order == Without(old(order), i) && slots == Unlinked(old(slots), old(order), i)
      ensures head == HeadWithout(old(order), i, old(head)) && tail == TailWithout(old(order), i, old(tail))
    {
      var prev, next := slots[idx].node.prev, slots[idx].node.next;
      if prev == NONE {
        head := next;
      } else {
        slots := SetNext(slots, prev, next);
      }
      if next == NONE {
        tail := prev;
      } else {
        slots := SetPrev(slots, next, prev);
      }
      slots := slots[idx := Occupied(slots[idx].node.(prev := NONE, next := NONE))];
      order := Without(order, i);
    }

    /** Put the occupied, unlinked slot `idx` in front. */
    method PushHead(idx: nat)
      requires Pushable(slots, order, idx, head, tail)
      modifies this`slots, this`head, this`tail, this`order
      ensures order == [idx] + old(order) && slots == Pushed(old(slots), old(order), idx, old(head))
      ensures head == idx && tail == if old(order) == [] then idx else old(tail)
    {
      slots := slots[idx := Occupied(slots[idx].node.(prev := NONE, next := head))];
      if head != NONE {
        slots := SetPrev(slots, head, idx);
      }
      head := idx;
      if tail == NONE {
        tail := idx;
      }
      order := [idx] + order;
    }

    /** Unlink the slot, forget its key and bytes, and put it on the free list. */
    method Remove(idx: nat, ghost i: nat)
      requires Removable(View(), i) && order[i] == idx
      modifies this
      ensures View() == old(RemovedView(View(), i))
    {
      Unlink(idx, i);
      bytesTotal := bytesTotal - slots[idx].node.bytes;
      index := index - {slots[idx].node.key};
      slots := slots[idx := Free(freeHead)];
      freeHead := idx;
      free := [idx] + free;
      contents := Without(contents, i);
    }

    method MoveToHead(idx: nat, ghost i: nat)
      requires Movable(View(), i) && order[i] == idx && head == First(order) && Distinct<nat>(order)
      modifies this
      ensures View() == if i == 0 then old(View()) else old(MovedView(View(), i))
    {
      if head == idx {
        return;
      }
      Unlink(idx, i);
      PushHead(idx);
      contents := [contents[i]] + Without(contents, i);
    }

    /** A slot for the node: from the free list if possible, else a new one. */
    method AllocSlot(node: Node) returns (idx: nat)
      requires freeHead == NONE || (freeHead < |slots| && slots[freeHead].Free?)
      modifies this`slots, this`freeHead, this`free
      ensures idx == SlotFor(old(slots), old(freeHead)) && slots == Filled(old(slots), old(freeHead), node)
      ensures freeHead == if old(freeHead) == NONE then NONE else old(slots[freeHead]).nextFree
      ensures free == FreeRest(old(free))
    {
      free := FreeRest(free);
      if freeHead == NONE {
        idx := |slots|;
        slots := slots + [Occupied(node)];
      } else {
        idx := freeHead;
        freeHead := slots[idx].nextFree;
        slots := slots[idx := Occupied(node)];
      }
    }

    /** Give a key that is not held a node in front of the list. */
    method Add(item: Item)
      requires Addable(View(), item)
      modifies this
      ensures View() == old(AddedView(View(), item))
    {
      var idx := AllocSlot(NewNode(item));
      index := index[item.key := idx];
      PushHead(idx);
      bytesTotal := bytesTotal + item.bytes;
      contents := [item] + contents;
    }

    /** Put a new entry in the node that holds its key. */
    method Refill(idx: nat, item: Item, ghost i: nat)
      requires i < |order| && i < |contents| && order[i] == idx && OccupiedAt(slots, idx)
      requires slots[idx].node.bytes <= bytesTotal
      modifies this`slots, this`bytesTotal, this`contents
      ensures View() == old(RefilledView(View(), i, item))
    {
      var oldBytes := slots[idx].node.bytes;
      slots := slots[idx := Occupied(slots[idx].node.(entry := item.entry, bytes := item.bytes))];
      bytesTotal := bytesTotal - oldBytes + item.bytes;
      contents := contents[i := item];
    }

    /** Remove the item at place `i` of the recency sequence. */
    method Forget(idx: nat, ghost i: nat)
      requires Valid() && i < |order| && order[i] == idx && i < |contents|
      modifies this
      ensures Valid() && contents == Without(old(contents), i)
    {
      EveryPlaceRemovable(View(), i);
      RemovedIsGood(View(), i);
      Remove(idx, i);
    }

    /** Make the item at place `i` the most recently used. */
    method Touch(idx: nat, ghost i: nat)
      requires Valid() && i < |order| && order[i] == idx && i < |contents|
      modifies this
      ensures Valid() && contents == old([contents[i]] + Without(contents, i))
    {
      Sizes(View());
      EveryPlaceMovable(View(), i);
      MovedIsGood(View(), i);
      FrontAgain(contents, i);
      MoveToHead(idx, i);
    }

    /** Evict the least recently used item. */
    method EvictTail()
      requires Valid()
      modifies this
      ensures Valid() && contents == if old(contents) == [] then [] else old(contents[..|contents| - 1])
    {
      ghost var v := View();
      Sizes(v);
      var last := tail;
      if last != NONE {
        WithoutLast(contents);
        Forget(last, |order| - 1);
      }
    }

    /** Evict from the tail until the bytes fit, but never the last item. */
    method EvictToByteBudget()
      requires Valid()
      modifies this
      ensures Valid() && contents == FitBytes(old(contents), maxBytes)
    {
      Sizes(View());
      while bytesTotal > maxBytes && |index| > 1
        invariant Valid() && FitBytes(contents, maxBytes) == FitBytes(old(contents), maxBytes)
        invariant |index| == |contents|
        decreases |index|
      {
        EvictTail();
        Sizes(View());
      }
    }

    /** A held key: replace its entry, and make it the most recently used. */
    method Replace(idx: nat, item: Item)
      requires Valid() && Place(contents, item.key).Some?
      requires Place(contents, item.key).value < |order| && idx == order[Place(contents, item.key).value]
      modifies this
      ensures Valid() && contents == Fronted(old(contents), capacity, item)
    {
      ghost var i := Place(contents, item.key).value;
      ghost var v := View();
      Sizes(v);
      LinkedOccupied(slots, order, head, tail);
      RefilledParts(v, i, item);
      RefilledIsGood(v, i, item);
      Refill(idx, item, i);
      TotalUpdated(v.contents, i, item);
      Touch(idx, i);
    }

    /** A key that is not held: make room if needed, then add it in front. */
    method AddNew(item: Item)
      requires Valid() && item.key !in index && Place(contents, item.key).None?
      modifies this
      ensures Valid() && contents == Fronted(old(contents), capacity, item)
    {
      Sizes(View());
      if |index| >= capacity {
        EvictForRoom(item.key);
      }
      PutInFront(item);
    }

    method PutInFront(item: Item)
      requires Valid() && item.key !in index && |index| < capacity
      modifies this
      ensures Valid() && contents == [item] + old(contents)
    {
      Sizes(View());
      AnyItemAddable(View(), item);
      AddedIsGood(View(), item);
      AddedSize(View(), item);
      Add(item);
    }

    method EvictForRoom(ghost key: CacheKey)
      requires Valid() && key !in index && contents != []
      modifies this
      ensures Valid() && contents == old(contents[..|contents| - 1]) && key !in index && |index| < capacity
    {
      ghost var v := View();
      MapFindsPlace(index, slots, order, key);
      PlaceAbsentInFront(contents, key);
      EvictTail();
      Sizes(v);
      Sizes(View());
      MapFindsPlace(index, slots, order, key);
    }

    /**
     Insert a response: refines the recency sequence's insert. Uncacheable responses
     change nothing; a cacheable one is at the front afterwards.
     */
    method Insert(key: CacheKey, msg: Message, now: nat)
      requires Valid()
      modifies this
      ensures Valid() && contents == Lru.Insert(old(contents), Bounds(), key, msg, now)
    {
      var entry := EntryOf(msg, now);
      if entry.None? {
        return;
      }
      var item := Item(key, entry.value, SizeOf(msg));
      MapFindsPlace(index, slots, order, key);
      Sizes(View());
      if key in index {
        Replace(index[key], item);
      } else {
        AddNew(item);
      }
      EvictToByteBudget();
    }

    /** Look a key up: refines the recency sequence's lookup, answer and new sequence both. */
    method Get(key: CacheKey, now: nat) returns (r: Lookup)
      requires Valid()
      modifies this
      ensures Valid() && contents == AfterGet(old(contents), Bounds(), key, now)
      ensures r == Lru.Get(old(contents), Bounds(), key, now)
    {
      MapFindsPlace(index, slots, order, key);
      Sizes(View());
      if key !in index {
        return Miss;
      }
      var idx := index[key];
      ghost var i := Place(contents, key).value;
      EntryAt(View(), i);
      var entry := slots[idx].node.entry;
      if Expired(entry, now, serveStale) {
        Forget(idx, i);
        return Miss;
      }
      Touch(idx, i);
      r := Answer(entry, now);
    }

    /** One operation of a run. */
    method Apply(op: Op)
      requires Valid()
      modifies this
      ensures Valid() && contents == Step(old(contents), Bounds(), op)
    {
      match op
      case OpInsert(key, msg, now) =>
        Insert(key, msg, now);
      case OpGet(key, now) =>
        var _ := Get(key, now);
    }
  }

  /**
   A whole run on a new cache ends with the recency sequence's run, so what is proved of
   all runs of the sequence holds of the cache.
   */
  method Replay(ops: seq<Op>, capacity: nat, maxBytes: nat, serveStale: nat) returns (cache: Cache)
    requires 0 < capacity < NONE && 0 < maxBytes
    ensures fresh(cache) && cache.Valid() && cache.Bounds() == Limits(capacity, maxBytes, serveStale)
    ensures cache.contents == Run(ops, cache.Bounds()) && Bounded(cache.contents, cache.Bounds())
  {
    cache := new Cache(capacity, maxBytes, serveStale);
    ghost var done: seq<Op> := [];
    var i := 0;
    while i < |ops|
      invariant |done| == i <= |ops| && done <= ops
      invariant cache.Valid() && cache.contents == Run(done, cache.Bounds())
    {
      RunNext(done, ops, cache.Bounds());
      cache.Apply(ops[i]);
      done := done + [ops[i]];
      i := i + 1;
    }
    assert done == ops;
    RunKeeps(ops, cache.Bounds());
  }

  lemma RunNext(done: seq<Op>, ops: seq<Op>, l: Limits)
    requires done <= ops && |done| < |ops|
    ensures done + [ops[|done|]] <= ops
    ensures Run(done + [ops[|done|]], l) == Step(Run(done, l), l, ops[|done|])
  {
    assert (done + [ops[|done|]])[..|done|] == done;
  }

  /** The first item moved to the front is where it was. */
  lemma FrontAgain(s: seq<Item>, i: nat)
    requires i < |s|
    ensures i == 0 ==> [s[i]] + Without(s, i) == s
  {
  }

  lemma PlaceAbsentInFront(s: seq<Item>, key: CacheKey)
    requires s != []
    ensures Place(s, key).None? ==> Place(s[..|s| - 1], key).None?
  {
  }
}
