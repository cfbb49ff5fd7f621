/** Python's `sorted(xs, key=key, reverse=rev)` and `list.sort`: a stable
    sort by a key, where `reverse=True` sorts by descending key and still
    keeps elements with equal keys in their original order. Keys are
    compared with `lt`, Python's `<` on the key type, a strict total order. */
module Sorting {

  ghost predicate TotalOrder<K(!new)>(lt: (K, K) -> bool) {
    && (forall a :: !lt(a, a))
    && (forall a, b, c :: lt(a, b) && lt(b, c) ==> lt(a, c))
    && (forall a, b :: a == b || lt(a, b) || lt(b, a))
  }

  /** `a` goes strictly before `b` in a sort by `key` with `reverse=rev`. */
  predicate Before<T, K>(key: T -> K, lt: (K, K) -> bool, rev: bool, a: T, b: T) {
    if rev then lt(key(b), key(a)) else lt(key(a), key(b))
  }

  lemma BeforeIrreflexive<T, K(!new)>(key: T -> K, lt: (K, K) -> bool, rev: bool, a: T)
    requires TotalOrder(lt)
    ensures !Before(key, lt, rev, a, a)
  {
  }

  lemma BeforeTransitive<T, K(!new)>(key: T -> K, lt: (K, K) -> bool, rev: bool, a: T, b: T, c: T)
    requires TotalOrder(lt)
    requires Before(key, lt, rev, a, b) && Before(key, lt, rev, b, c)
    ensures Before(key, lt, rev, a, c)
  {
  }

  /** Neither goes before the other exactly when the keys are equal. */
  lemma BeforeTotal<T, K(!new)>(key: T -> K, lt: (K, K) -> bool, rev: bool, a: T, b: T)
    requires TotalOrder(lt)
    ensures !Before(key, lt, rev, a, b) && !Before(key, lt, rev, b, a) <==> key(a) == key(b)
  {
    assert lt(key(a), key(b)) && lt(key(b), key(a)) ==> lt(key(a), key(a));
  }

  /** No element goes strictly before one to its left. */
  predicate Sorted<T, K>(s: seq<T>, key: T -> K, lt: (K, K) -> bool, rev: bool) {
    forall i, j :: 0 <= i < j < |s| ==> !Before(key, lt, rev, s[j], s[i])
  }

  /** The elements of `s` whose key is `k`, in their order in `s`. A sort
      is stable when it leaves every such run as it was. */
  function WithKey<T, K(==)>(s: seq<T>, key: T -> K, k: K): (r: seq<T>)
    ensures forall x :: x in r ==> x in s && key(x) == k
  {
    if s == [] then [] else (if key(s[0]) == k then [s[0]] else []) + WithKey(s[1..], key, k)
  }

  lemma {:induction false} WithKeyAppend<T, K>(a: seq<T>, b: seq<T>, key: T -> K, k: K)
    ensures WithKey(a + b, key, k) == WithKey(a, key, k) + WithKey(b, key, k)
  {
    if a == [] {
      assert a + b == b;
    } else {
      assert (a + b)[1..] == a[1..] + b;
      WithKeyAppend(a[1..], b, key, k);
    }
  }

  lemma {:induction false} WithKeyNone<T, K>(s: seq<T>, key: T -> K, k: K)
    requires forall i :: 0 <= i < |s| ==> key(s[i]) != k
    ensures WithKey(s, key, k) == []
  {
    if s != [] {
      WithKeyNone(s[1..], key, k);
    }
  }

  /** Puts `x` after every element it does not go strictly before: the
      step of a stable insertion sort. */
  function Insert<T, K>(x: T, s: seq<T>, key: T -> K, lt: (K, K) -> bool, rev: bool): (r: seq<T>)
    ensures |r| == |s| + 1
  {
    if s == [] then [x]
    else if Before(key, lt, rev, x, s[0]) then [x] + s
    else [s[0]] + Insert(x, s[1..], key, lt, rev)
  }

  lemma {:induction false} InsertMultiset<T, K>(x: T, s: seq<T>, key: T -> K, lt: (K, K) -> bool, rev: bool)
    ensures multiset(Insert(x, s, key, lt, rev)) == multiset(s) + multiset{x}
  {
    if s != [] && !Before(key, lt, rev, x, s[0]) {
      InsertMultiset(x, s[1..], key, lt, rev);
      assert s == [s[0]] + s[1..];
    }
  }

  lemma SortedTail<T, K>(s: seq<T>, key: T -> K, lt: (K, K) -> bool, rev: bool)
    requires s != [] && Sorted(s, key, lt, rev)
    ensures Sorted(s[1..], key, lt, rev)
  {
    forall i, j | 0 <= i < j < |s| - 1 ensures !Before(key, lt, rev, s[1..][j], s[1..][i]) {
      assert s[1..][j] == s[j + 1] && s[1..][i] == s[i + 1];
    }
  }

  /** What goes strictly before the head of a sorted sequence goes
      strictly before all of it. */
  lemma BeforeAll<T, K(!new)>(x: T, s: seq<T>, key: T -> K, lt: (K, K) -> bool, rev: bool)
    requires TotalOrder(lt)
    requires s != [] && Sorted(s, key, lt, rev) && Before(key, lt, rev, x, s[0])
    ensures forall j :: 0 <= j < |s| ==> Before(key, lt, rev, x, s[j])
  {
    forall j | 0 < j < |s| ensures Before(key, lt, rev, x, s[j]) {
      BeforeTotal(key, lt, rev, s[0], s[j]);
      if Before(key, lt, rev, s[0], s[j]) {
        BeforeTransitive(key, lt, rev, x, s[0], s[j]);
      }
    }
  }

  lemma {:induction false} InsertSorted<T, K(!new)>(x: T, s: seq<T>, key: T -> K, lt: (K, K) -> bool, rev: bool)
    requires TotalOrder(lt) && Sorted(s, key, lt, rev)
    ensures Sorted(Insert(x, s, key, lt, rev), key, lt, rev)
  {
    var r := Insert(x, s, key, lt, rev);
    if s == [] {
    } else if Before(key, lt, rev, x, s[0]) {
      BeforeAll(x, s, key, lt, rev);
      forall i, j | 0 <= i < j < |r| ensures !Before(key, lt, rev, r[j], r[i]) {
        if i == 0 {
          assert Before(key, lt, rev, x, r[j]);
          if Before(key, lt, rev, r[j], x) {
            BeforeTransitive(key, lt, rev, x, r[j], x);
            BeforeIrreflexive(key, lt, rev, x);
          }
        } else {
          assert r[i] == s[i - 1] && r[j] == s[j - 1];
        }
      }
    } else {
      SortedTail(s, key, lt, rev);
      InsertSorted(x, s[1..], key, lt, rev);
      InsertAfterHead(x, s, key, lt, rev);
    }
  }

  /** Nothing in `s` goes strictly before `y`. */
  predicate NoneBefore<T, K>(s: seq<T>, key: T -> K, lt: (K, K) -> bool, rev: bool, y: T) {
    forall j :: 0 <= j < |s| ==> !Before(key, lt, rev, s[j], y)
  }

  lemma {:induction false} InsertNoneBefore<T, K>(x: T, s: seq<T>, key: T -> K, lt: (K, K) -> bool, rev: bool, y: T)
    requires !Before(key, lt, rev, x, y) && NoneBefore(s, key, lt, rev, y)
    ensures NoneBefore(Insert(x, s, key, lt, rev), key, lt, rev, y)
  {
    if s != [] && !Before(key, lt, rev, x, s[0]) {
      InsertNoneBefore(x, s[1..], key, lt, rev, y);
      var t := Insert(x, s[1..], key, lt, rev);
      assert forall j :: 0 < j <= |t| ==> ([s[0]] + t)[j] == t[j - 1];
    }
  }

  /** When `x` does not go before the head, the head stays first and
      nothing inserted behind it goes before it. */
  lemma InsertAfterHead<T, K>(x: T, s: seq<T>, key: T -> K, lt: (K, K) -> bool, rev: bool)
    requires s != [] && Sorted(s, key, lt, rev) && !Before(key, lt, rev, x, s[0])
    requires Sorted(Insert(x, s[1..], key, lt, rev), key, lt, rev)
    ensures Sorted(Insert(x, s, key, lt, rev), key, lt, rev)
  {
    var t := Insert(x, s[1..], key, lt, rev);
    assert NoneBefore(s[1..], key, lt, rev, s[0]) by {
      forall j | 0 <= j < |s| - 1 ensures !Before(key, lt, rev, s[1..][j], s[0]) {
        assert s[1..][j] == s[j + 1];
      }
    }
    InsertNoneBefore(x, s[1..], key, lt, rev, s[0]);
    var r := [s[0]] + t;
    forall i, j | 0 <= i < j < |r| ensures !Before(key, lt, rev, r[j], r[i]) {
      assert r[j] == t[j - 1];
      if i > 0 {
        assert r[i] == t[i - 1];
      }
    }
  }

  lemma {:induction false} InsertWithKey<T, K(!new)>(x: T, s: seq<T>, key: T -> K, lt: (K, K) -> bool, rev: bool, k: K)
    requires TotalOrder(lt) && Sorted(s, key, lt, rev)
    ensures WithKey(Insert(x, s, key, lt, rev), key, k) == WithKey(s, key, k) + (if key(x) == k then [x] else [])
  {
    if s == [] {
      WithKeyCons(x, [], key, k);
    } else if Before(key, lt, rev, x, s[0]) {
      InsertFrontWithKey(x, s, key, lt, rev, k);
    } else {
      SortedTail(s, key, lt, rev);
      InsertWithKey(x, s[1..], key, lt, rev, k);
      InsertBehindWithKey(x, s, key, lt, rev, k);
    }
  }

  /** `x` goes behind the head: the head's entry, then the tail's. */
  lemma InsertBehindWithKey<T, K>(x: T, s: seq<T>, key: T -> K, lt: (K, K) -> bool, rev: bool, k: K)
    requires s != [] && !Before(key, lt, rev, x, s[0])
    requires WithKey(Insert(x, s[1..], key, lt, rev), key, k) == WithKey(s[1..], key, k) + (if key(x) == k then [x] else [])
    ensures WithKey(Insert(x, s, key, lt, rev), key, k) == WithKey(s, key, k) + (if key(x) == k then [x] else [])
  {
    var t := Insert(x, s[1..], key, lt, rev);
    var h := if key(s[0]) == k then [s[0]] else [];
    var e := if key(x) == k then [x] else [];
    assert Insert(x, s, key, lt, rev) == [s[0]] + t;
    WithKeyCons(s[0], t, key, k);
    assert WithKey(s, key, k) == h + WithKey(s[1..], key, k);
    AppendAssoc(h, WithKey(s[1..], key, k), e);
  }

  lemma AppendAssoc<T>(a: seq<T>, b: seq<T>, c: seq<T>)
    ensures a + (b + c) == (a + b) + c
  {
  }

  lemma WithKeyCons<T, K>(y: T, t: seq<T>, key: T -> K, k: K)
    ensures WithKey([y] + t, key, k) == (if key(y) == k then [y] else []) + WithKey(t, key, k)
  {
    assert ([y] + t)[1..] == t;
  }

  /** `x` goes in front of a sorted `s`: nothing in `s` has its key. */
  lemma InsertFrontWithKey<T, K(!new)>(x: T, s: seq<T>, key: T -> K, lt: (K, K) -> bool, rev: bool, k: K)
    requires TotalOrder(lt) && Sorted(s, key, lt, rev)
    requires s != [] && Before(key, lt, rev, x, s[0])
    ensures WithKey(Insert(x, s, key, lt, rev), key, k) == WithKey(s, key, k) + (if key(x) == k then [x] else [])
  {
    assert Insert(x, s, key, lt, rev) == [x] + s;
    WithKeyCons(x, s, key, k);
    if key(x) == k {
      BeforeAll(x, s, key, lt, rev);
      forall i | 0 <= i < |s| ensures key(s[i]) != k {
        BeforeIrreflexive(key, lt, rev, x);
      }
      WithKeyNone(s, key, k);
    }
  }

  /** `sorted(s, key=key, reverse=rev)`: the front sorted, then its last
      element put in place. The result holds the same elements, is sorted,
      and keeps every run of equal keys in its original order. */
  function SortBy<T, K(!new)>(s: seq<T>, key: T -> K, lt: (K, K) -> bool, rev: bool): (r: seq<T>)
    requires TotalOrder(lt)
    ensures multiset(r) == multiset(s)
    ensures Sorted(r, key, lt, rev)
    ensures forall k :: WithKey(r, key, k) == WithKey(s, key, k)
    decreases |s|
  {
    if s == [] then []
    else
      var sorted := SortBy(s[..|s| - 1], key, lt, rev);
      SortStep(s, sorted, key, lt, rev);
      Insert(s[|s| - 1], sorted, key, lt, rev)
  }

  lemma SortStep<T, K(!new)>(s: seq<T>, sorted: seq<T>, key: T -> K, lt: (K, K) -> bool, rev: bool)
    requires TotalOrder(lt) && s != [] && Sorted(sorted, key, lt, rev)
    requires multiset(sorted) == multiset(s[..|s| - 1])
    requires forall k :: WithKey(sorted, key, k) == WithKey(s[..|s| - 1], key, k)
    ensures var r := Insert(s[|s| - 1], sorted, key, lt, rev);
      && multiset(r) == multiset(s)
      && Sorted(r, key, lt, rev)
      && forall k :: WithKey(r, key, k) == WithKey(s, key, k)
  {
    var front, x := s[..|s| - 1], s[|s| - 1];
    assert s == front + [x];
    InsertMultiset(x, sorted, key, lt, rev);
    InsertSorted(x, sorted, key, lt, rev);
    forall k ensures WithKey(Insert(x, sorted, key, lt, rev), key, k) == WithKey(s, key, k) {
      InsertWithKey(x, sorted, key, lt, rev, k);
      WithKeyAppend(front, [x], key, k);
      assert [x][1..] == [];
    }
  }
}
