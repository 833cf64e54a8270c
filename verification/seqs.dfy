/** Small sequence utilities: element-wise maps and order-preserving filters. */
module Seqs {

  function Map<A, B>(s: seq<A>, f: A -> B): (r: seq<B>)
    ensures |r| == |s|
    ensures forall i :: 0 <= i < |s| ==> r[i] == f(s[i])
  {
    seq(|s|, i requires 0 <= i < |s| => f(s[i]))
  }

  /** The elements of `s` satisfying `p`, in order (a list comprehension
      with an `if`). */
  function Filter<A(!new)>(s: seq<A>, p: A -> bool): (r: seq<A>)
    ensures |r| <= |s|
    ensures forall x :: x in r <==> x in s && p(x)
    ensures multiset(r) <= multiset(s)
  {
    if |s| == 0 then []
    else
      assert s == [s[0]] + s[1..];
      (if p(s[0]) then [s[0]] else []) + Filter(s[1..], p)
  }

  lemma MapConcat<A, B>(a: seq<A>, b: seq<A>, f: A -> B)
    ensures Map(a + b, f) == Map(a, f) + Map(b, f)
  {
  }

  /** Taking out one occurrence of the same element from two rearrangements
      leaves two rearrangements. */
  lemma RemoveOne<A>(a: seq<A>, b: seq<A>, k: nat)
    requires multiset(a) == multiset(b)
    requires |a| > 0 && k < |b| && b[k] == a[0]
    ensures multiset(a[1..]) == multiset(b[..k] + b[k + 1..])
  {
    var x := a[0];
    var left := multiset(a[1..]);
    var right := multiset(b[..k] + b[k + 1..]);
    assert multiset(a) == left + multiset{x} by {
      assert a == [x] + a[1..];
    }
    assert multiset(b) == right + multiset{x} by {
      assert b == b[..k] + [x] + b[k + 1..];
    }
    forall y ensures left[y] == right[y] {
      assert (left + multiset{x})[y] == (right + multiset{x})[y];
    }
  }

  /** Removing the element at `k` removes exactly its image from the mapped multiset. */
  lemma MapRemove<A, B>(b: seq<A>, k: nat, f: A -> B)
    requires k < |b|
    ensures multiset(Map(b, f)) == multiset(Map(b[..k] + b[k + 1..], f)) + multiset{f(b[k])}
  {
    var m := Map(b, f);
    assert m == m[..k] + ([f(b[k])] + m[k + 1..]);
    assert Map(b[..k] + b[k + 1..], f) == m[..k] + m[k + 1..];
    Regroup(m[..k], m[k + 1..], f(b[k]));
  }

  lemma Regroup<B>(p: seq<B>, q: seq<B>, x: B)
    ensures multiset(p + ([x] + q)) == multiset(p + q) + multiset{x}
  {
    assert multiset(p + ([x] + q)) == multiset(p) + multiset{x} + multiset(q);
  }

  /** Mapping two rearrangements of the same elements yields rearrangements
      of the same images. */
  lemma {:induction false} MapPermutation<A, B>(a: seq<A>, b: seq<A>, f: A -> B)
    requires multiset(a) == multiset(b)
    ensures multiset(Map(a, f)) == multiset(Map(b, f))
    decreases |a|
  {
    if |a| > 0 {
      var x := a[0];
      assert x in multiset(b);
      var k :| 0 <= k < |b| && b[k] == x;
      var rest := b[..k] + b[k + 1..];
      RemoveOne(a, b, k);
      MapPermutation(a[1..], rest, f);
      MapRemove(b, k, f);
      assert Map(a, f) == [f(x)] + Map(a[1..], f);
    }
  }

  /** Filtering one more element at the end. */
  lemma {:induction false} FilterAppend<A(!new)>(s: seq<A>, x: A, p: A -> bool)
    ensures Filter(s + [x], p) == Filter(s, p) + (if p(x) then [x] else [])
  {
    FilterConcat(s, [x], p);
    FilterCons(x, [], p);
    assert [x] + [] == [x];
  }

  lemma FilterCons<A(!new)>(a: A, u: seq<A>, p: A -> bool)
    ensures Filter([a] + u, p) == (if p(a) then [a] else []) + Filter(u, p)
  {
    assert ([a] + u)[0] == a && ([a] + u)[1..] == u;
  }

  /** Splitting by a predicate and its negation loses and duplicates nothing. */
  lemma {:induction false} FilterPartition<A(!new)>(s: seq<A>, p: A -> bool, q: A -> bool)
    requires forall x :: q(x) == !p(x)
    ensures multiset(Filter(s, p)) + multiset(Filter(s, q)) == multiset(s)
  {
    if |s| > 0 {
      FilterPartition(s[1..], p, q);
      assert s == [s[0]] + s[1..];
    }
  }

  /** Filtering distributes over concatenation. */
  lemma {:induction false} FilterConcat<A(!new)>(a: seq<A>, b: seq<A>, p: A -> bool)
    ensures Filter(a + b, p) == Filter(a, p) + Filter(b, p)
    decreases |a|
  {
    if |a| > 0 {
      assert (a + b)[1..] == a[1..] + b;
      FilterConcat(a[1..], b, p);
    } else {
      assert a + b == b;
    }
  }

  /** A filter that every element passes keeps the sequence; one that none
      passes empties it. */
  lemma {:induction false} FilterAllOrNone<A(!new)>(s: seq<A>, p: A -> bool)
    ensures (forall i :: 0 <= i < |s| ==> p(s[i])) ==> Filter(s, p) == s
    ensures (forall i :: 0 <= i < |s| ==> !p(s[i])) ==> Filter(s, p) == []
    decreases |s|
  {
    if |s| > 0 {
      FilterAllOrNone(s[1..], p);
      assert s == [s[0]] + s[1..];
    }
  }
}
