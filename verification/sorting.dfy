/**
 * Python's `sorted(s, key=...)` and `list.sort(key=...)`: a stable sort by a
 * key, where keys are compared with `<`. Python keeps equal-key elements in
 * their input order also under `reverse=True`, so a descending sort is a
 * stable ascending sort on the negated key.
 */
module Sorting {

  /** An irreflexive, transitive, total comparison on keys, as Python's `<`
      is on the ints, tuples and strings the source sorts by. */
  ghost predicate StrictTotalOrder<K(!new)>(lt: (K, K) -> bool) {
    && (forall a :: !lt(a, a))
    && (forall a, b, c :: lt(a, b) && lt(b, c) ==> lt(a, c))
    && (forall a, b :: a != b ==> lt(a, b) || lt(b, a))
  }

  /** Insert `x` after the leading elements whose keys are strictly smaller. */
  function Insert<T, K>(x: T, s: seq<T>, key: T -> K, lt: (K, K) -> bool): (r: seq<T>)
    ensures multiset(r) == multiset(s) + multiset{x}
    ensures |r| == |s| + 1
  {
    if |s| == 0 || !lt(key(s[0]), key(x)) then [x] + s
    else
      var rest := Insert(x, s[1..], key, lt);
      assert s == [s[0]] + s[1..];
      [s[0]] + rest
  }

  /** Stable insertion sort. */
  function SortBy<T, K>(s: seq<T>, key: T -> K, lt: (K, K) -> bool): (r: seq<T>)
    ensures multiset(r) == multiset(s)
    ensures |r| == |s|
  {
    if |s| == 0 then []
    else
      assert s == [s[0]] + s[1..];
      Insert(s[0], SortBy(s[1..], key, lt), key, lt)
  }

  ghost predicate SortedBy<T, K>(s: seq<T>, key: T -> K, lt: (K, K) -> bool) {
    forall i, j :: 0 <= i < j < |s| ==> !lt(key(s[j]), key(s[i]))
  }

  /** The elements of `s` whose key is `k`, in order. */
  function WithKey<T, K(==)>(s: seq<T>, key: T -> K, k: K): seq<T>
  {
    if |s| == 0 then []
    else (if key(s[0]) == k then [s[0]] else []) + WithKey(s[1..], key, k)
  }

  lemma {:induction false} InsertSorted<T, K(!new)>(x: T, s: seq<T>, key: T -> K, lt: (K, K) -> bool)
    requires StrictTotalOrder(lt)
    requires SortedBy(s, key, lt)
    ensures SortedBy(Insert(x, s, key, lt), key, lt)
  {
    if |s| > 0 && lt(key(s[0]), key(x)) {
      var rest := Insert(x, s[1..], key, lt);
      InsertSorted(x, s[1..], key, lt);
      var r := [s[0]] + rest;
      forall j | 0 < j < |r|
        ensures !lt(key(r[j]), key(s[0]))
      {
        assert r[j] == rest[j - 1];
        assert rest[j - 1] in multiset(rest);
        assert rest[j - 1] == x || rest[j - 1] in multiset(s[1..]);
        if rest[j - 1] != x {
          var m :| 1 <= m < |s| && s[m] == rest[j - 1];
          assert s[m] == s[1..][m - 1];
        }
      }
    }
  }

  /** The output of `SortBy` is ordered by key. */
  lemma {:induction false} SortBySorted<T, K(!new)>(s: seq<T>, key: T -> K, lt: (K, K) -> bool)
    requires StrictTotalOrder(lt)
    ensures SortedBy(SortBy(s, key, lt), key, lt)
  {
    if |s| > 0 {
      SortBySorted(s[1..], key, lt);
      InsertSorted(s[0], SortBy(s[1..], key, lt), key, lt);
    }
  }

  lemma {:induction false} InsertWithKey<T, K>(x: T, s: seq<T>, key: T -> K, lt: (K, K) -> bool, k: K)
    requires forall a :: !lt(a, a)
    ensures WithKey(Insert(x, s, key, lt), key, k)
            == (if key(x) == k then [x] else []) + WithKey(s, key, k)
  {
    if |s| == 0 || !lt(key(s[0]), key(x)) {
      assert ([x] + s)[1..] == s;
    } else {
      var rest := Insert(x, s[1..], key, lt);
      var mine := if key(x) == k then [x] else [];
      var first := if key(s[0]) == k then [s[0]] else [];
      InsertWithKey(x, s[1..], key, lt, k);
      assert ([s[0]] + rest)[1..] == rest;
      assert WithKey(s, key, k) == first + WithKey(s[1..], key, k);
      assert WithKey(Insert(x, s, key, lt), key, k) == first + (mine + WithKey(s[1..], key, k));
      if key(x) == k {
        assert key(s[0]) != k;
      }
    }
  }

  /** `SortBy` is stable: for every key, the elements with that key appear in
      the output in their input order. */
  lemma {:induction false} SortByStable<T, K>(s: seq<T>, key: T -> K, lt: (K, K) -> bool, k: K)
    requires forall a :: !lt(a, a)
    ensures WithKey(SortBy(s, key, lt), key, k) == WithKey(s, key, k)
  {
    if |s| > 0 {
      SortByStable(s[1..], key, lt, k);
      InsertWithKey(s[0], SortBy(s[1..], key, lt), key, lt, k);
    }
  }

  predicate IntLess(a: int, b: int) {
    a < b
  }

  /** Python's `<` on pairs of ints: lexicographic. */
  predicate PairLess(a: (int, int), b: (int, int)) {
    a.0 < b.0 || (a.0 == b.0 && a.1 < b.1)
  }

  /** Python's `<` on strings: code-point lexicographic, a proper prefix first. */
  predicate StrLess(a: string, b: string)
    decreases |a|
  {
    if |a| == 0 then |b| > 0
    else if |b| == 0 then false
    else a[0] < b[0] || (a[0] == b[0] && StrLess(a[1..], b[1..]))
  }

  lemma IntLessIsStrictTotalOrder()
    ensures StrictTotalOrder(IntLess)
  {
  }

  lemma PairLessIsStrictTotalOrder()
    ensures StrictTotalOrder(PairLess)
  {
  }

  lemma {:induction false} StrLessIrreflexive(a: string)
    ensures !StrLess(a, a)
    decreases |a|
  {
    if |a| > 0 {
      StrLessIrreflexive(a[1..]);
    }
  }

  lemma {:induction false} StrLessTransitive(a: string, b: string, c: string)
    requires StrLess(a, b) && StrLess(b, c)
    ensures StrLess(a, c)
    decreases |a|
  {
    if |a| > 0 && a[0] == b[0] && b[0] == c[0] {
      StrLessTransitive(a[1..], b[1..], c[1..]);
    }
  }

  lemma {:induction false} StrLessTotal(a: string, b: string)
    requires a != b
    ensures StrLess(a, b) || StrLess(b, a)
    decreases |a|
  {
    if |a| > 0 && |b| > 0 && a[0] == b[0] {
      assert a == [a[0]] + a[1..] && b == [b[0]] + b[1..];
      StrLessTotal(a[1..], b[1..]);
    }
  }

  lemma StrLessIsStrictTotalOrder()
    ensures StrictTotalOrder(StrLess)
  {
    forall a ensures !StrLess(a, a) {
      StrLessIrreflexive(a);
    }
    forall a, b, c | StrLess(a, b) && StrLess(b, c) ensures StrLess(a, c) {
      StrLessTransitive(a, b, c);
    }
    forall a, b | a != b ensures StrLess(a, b) || StrLess(b, a) {
      StrLessTotal(a, b);
    }
  }
}
