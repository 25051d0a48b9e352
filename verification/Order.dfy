/** Byte-wise order of keys, sorting and permutations. */
module Order {

  /** Lexicographic order of byte strings; a proper prefix comes first. */
  predicate Less(a: string, b: string) {
    b != [] && (a == [] || a[0] < b[0] || (a[0] == b[0] && Less(a[1..], b[1..])))
  }

  lemma {:induction false} LessTotal(a: string, b: string)
    ensures Less(a, b) || a == b || Less(b, a)
    ensures !(Less(a, b) && Less(b, a)) && (Less(a, b) ==> a != b)
  {
    if a != [] && b != [] && a[0] == b[0] {
      LessTotal(a[1..], b[1..]);
      assert a == [a[0]] + a[1..] && b == [b[0]] + b[1..];
    }
  }

  lemma {:induction false} LessTransitive(a: string, b: string, c: string)
    requires Less(a, b) && !Less(c, b)
    ensures Less(a, c)
  {
    if a != [] && c != [] && a[0] == b[0] == c[0] {
      LessTransitive(a[1..], b[1..], c[1..]);
    }
  }

  ghost predicate Sorted(keys: seq<string>) {
    forall i, j :: 0 <= i < j < |keys| ==> !Less(keys[j], keys[i])
  }

  function Iota(n: nat): seq<nat> {
    seq(n, i => i)
  }

  /** `order` lists the first `n` indices of `keys` once each, in non-decreasing key order. */
  ghost predicate IsSortOrder(order: seq<nat>, keys: seq<string>, n: nat)
    requires n <= |keys|
  {
    && |order| == n
    && multiset(order) == multiset(Iota(n))
    && (forall p :: 0 <= p < |order| ==> order[p] < n)
    && (forall p, q :: 0 <= p < q < |order| ==> !Less(keys[order[q]], keys[order[p]]))
  }

  function InsertedInto(order: seq<nat>, n: nat, at: nat): seq<nat>
    requires at <= |order|
  {
    order[..at] + [n] + order[at..]
  }

  /** Key `n` is below every key listed from place `at` on. */
  ghost predicate AboveFrom(order: seq<nat>, keys: seq<string>, n: nat, at: nat)
    requires n < |keys| && at <= n && IsSortOrder(order, keys, n)
  {
    forall p :: at <= p < n ==> Less(keys[n], keys[order[p]])
  }

  /**
   Stands for the library's unstable sort: callers know only that the result is
   some sorted order, so what is proved holds whatever it does with equal keys.
   */
  method SortUnstable(keys: seq<string>) returns (order: seq<nat>)
    ensures IsSortOrder(order, keys, |keys|)
  {
    order := [];
    var n := 0;
    while n < |keys|
      invariant 0 <= n <= |keys|
      invariant IsSortOrder(order, keys, n)
    {
      var at := PlaceOf(order, keys, n);
      InsertKeepsOrder(order, keys, n, at);
      order := InsertedInto(order, n, at);
      n := n + 1;
    }
  }

  method PlaceOf(order: seq<nat>, keys: seq<string>, n: nat) returns (at: nat)
    requires n < |keys| && IsSortOrder(order, keys, n)
    ensures at <= n && AboveFrom(order, keys, n, at)
    ensures at > 0 ==> !Less(keys[n], keys[order[at - 1]])
  {
    at := n;
    while at > 0 && Less(keys[n], keys[order[at - 1]])
      invariant at <= n && AboveFrom(order, keys, n, at)
    {
      at := at - 1;
    }
  }

  lemma InsertKeepsOrder(order: seq<nat>, keys: seq<string>, n: nat, at: nat)
    requires n < |keys| && at <= n && IsSortOrder(order, keys, n)
    requires AboveFrom(order, keys, n, at)
    requires at > 0 ==> !Less(keys[n], keys[order[at - 1]])
    ensures IsSortOrder(InsertedInto(order, n, at), keys, n + 1)
  {
    var r := InsertedInto(order, n, at);
    InsertedBag(order, n, at);
    forall p | 0 <= p < |r| ensures r[p] <= n {
      InsertedAt(order, n, at, p);
    }
    forall p, q | 0 <= p < q < |r| ensures !Less(keys[r[q]], keys[r[p]]) {
      InsertedPair(order, keys, n, at, p, q);
    }
  }

  lemma InsertedAt(order: seq<nat>, n: nat, at: nat, p: nat)
    requires at <= |order| && p <= |order|
    ensures InsertedInto(order, n, at)[p] == if p < at then order[p] else if p == at then n else order[p - 1]
  {
  }

  lemma InsertedBag(order: seq<nat>, n: nat, at: nat)
    requires at <= |order| == n && multiset(order) == multiset(Iota(n))
    ensures multiset(InsertedInto(order, n, at)) == multiset(Iota(n + 1))
  {
    assert order == order[..at] + order[at..];
    assert Iota(n + 1) == Iota(n) + [n];
  }

  lemma InsertedPair(order: seq<nat>, keys: seq<string>, n: nat, at: nat, p: nat, q: nat)
    requires n < |keys| && at <= n && IsSortOrder(order, keys, n)
    requires AboveFrom(order, keys, n, at)
    requires at > 0 ==> !Less(keys[n], keys[order[at - 1]])
    requires p < q <= n
    ensures var r := InsertedInto(order, n, at);
            r[p] <= n && r[q] <= n && !Less(keys[r[q]], keys[r[p]])
  {
    InsertedAt(order, n, at, p);
    InsertedAt(order, n, at, q);
    if q == at {
      if p < at - 1 && Less(keys[n], keys[order[p]]) {
        assert !Less(keys[order[at - 1]], keys[order[p]]);
        LessTransitive(keys[n], keys[order[p]], keys[order[at - 1]]);
      }
    } else if p == at {
      LessTotal(keys[n], keys[order[q - 1]]);
    } else {
      var p', q' := if p < at then p else p - 1, if q < at then q else q - 1;
      assert !Less(keys[order[q']], keys[order[p']]);
    }
  }

  function Pick<T>(s: seq<T>, order: seq<nat>): (r: seq<T>)
    requires forall p :: 0 <= p < |order| ==> order[p] < |s|
    ensures |r| == |order|
  {
    seq(|order|, p requires 0 <= p < |order| => s[order[p]])
  }

  function Without<T>(s: seq<T>, k: nat): seq<T>
    requires k < |s|
  {
    s[..k] + s[k + 1..]
  }

  lemma WithoutBag<T>(s: seq<T>, k: nat)
    requires k < |s|
    ensures multiset(s) == multiset(Without(s, k)) + multiset{s[k]}
  {
    assert s == s[..k] + [s[k]] + s[k + 1..];
  }

  /** Picking along two orders with the same elements gives the same bag. */
  lemma {:induction false} PickMultiset<T>(s: seq<T>, a: seq<nat>, b: seq<nat>)
    requires multiset(a) == multiset(b)
    requires forall p :: 0 <= p < |a| ==> a[p] < |s|
    requires forall p :: 0 <= p < |b| ==> b[p] < |s|
    ensures multiset(Pick(s, a)) == multiset(Pick(s, b))
  {
    if a == [] {
      assert |multiset(b)| == 0;
    } else {
      var k := Locate(b, a[0]);
      WithoutBag(a, 0);
      WithoutBag(b, k);
      PickWithout(s, a, 0);
      PickWithout(s, b, k);
      var a', b' := Without(a, 0), Without(b, k);
      assert multiset(a') == multiset(b') by {
        assert multiset(a') == multiset(a) - multiset{a[0]} && multiset(b') == multiset(b) - multiset{b[k]};
      }
      PickMultiset(s, a', b');
    }
  }

  lemma Locate<T>(s: seq<T>, x: T) returns (k: nat)
    requires x in multiset(s)
    ensures k < |s| && s[k] == x
  {
    k :| 0 <= k < |s| && s[k] == x;
  }

  lemma PickWithout<T>(s: seq<T>, order: seq<nat>, k: nat)
    requires k < |order|
    requires forall p :: 0 <= p < |order| ==> order[p] < |s|
    ensures forall p :: 0 <= p < |order| - 1 ==> Without(order, k)[p] < |s|
    ensures multiset(Pick(s, order)) == multiset(Pick(s, Without(order, k))) + multiset{s[order[k]]}
  {
    WithoutBag(Pick(s, order), k);
    assert Without(Pick(s, order), k) == Pick(s, Without(order, k));
  }

  lemma PickPermutes<T>(s: seq<T>, order: seq<nat>)
    requires multiset(order) == multiset(Iota(|s|))
    requires forall p :: 0 <= p < |order| ==> order[p] < |s|
    ensures multiset(Pick(s, order)) == multiset(s)
  {
    PickMultiset(s, order, Iota(|s|));
    assert Pick(s, Iota(|s|)) == s;
  }

  predicate Distinct<T(==)>(s: seq<T>) {
    forall i, j :: 0 <= i < j < |s| ==> s[i] != s[j]
  }

  lemma DistinctAppend<T>(s: seq<T>, x: T)
    requires Distinct(s) && x !in s
    ensures Distinct(s + [x])
  {
  }

  lemma DistinctConcat<T>(a: seq<T>, b: seq<T>)
    requires Distinct(a) && Distinct(b)
    requires forall x :: x in a ==> x !in b
    ensures Distinct(a + b)
  {
    var s := a + b;
    forall i, j | 0 <= i < j < |s| ensures s[i] != s[j] {
      if i < |a| <= j { assert s[i] in a && s[j] in b; }
    }
  }

  lemma {:induction false} DistinctCounts<T>(s: seq<T>)
    ensures Distinct(s) <==> forall x :: x in s ==> multiset(s)[x] == 1
  {
    if s != [] {
      var t := s[1..];
      DistinctCounts(t);
      assert s == [s[0]] + t;
      assert multiset(s) == multiset{s[0]} + multiset(t);
      assert forall x :: x in s <==> x == s[0] || x in t;
      if Distinct(s) {
        assert s[0] !in t;
      } else if s[0] in t {
        assert s[0] in multiset(t);
        assert multiset(s)[s[0]] > 1;
      } else {
        var i, j :| 0 <= i < j < |s| && s[i] == s[j];
        assert t[j - 1] == s[j] && i != 0;
        assert t[i - 1] == s[i];
      }
    }
  }

  lemma SameBagDistinct<T>(s: seq<T>, t: seq<T>)
    requires multiset(s) == multiset(t) && Distinct(s)
    ensures Distinct(t)
  {
    DistinctCounts(s);
    DistinctCounts(t);
    forall x | x in t ensures multiset(t)[x] == 1 {
      assert x in multiset(t);
      assert x in multiset(s);
    }
  }
}
