/**
 * The small sequence combinators of summarize.js: `sumBy`, `filterBy` and
 * `groupBy`, together with the subsequence order used to compare traversals.
 * The JavaScript versions consume iterators; here every iterator is the
 * finite sequence it would produce.
 */
module Sequences {

  /** The sum of `fn` over `xs`, the value `sumBy` accumulates. */
  function Sum<T>(xs: seq<T>, fn: T -> int): int
  {
    if xs == [] then 0 else fn(xs[0]) + Sum(xs[1..], fn)
  }

  /** Summing distributes over concatenation. */
  lemma {:induction false} SumAppend<T>(a: seq<T>, b: seq<T>, fn: T -> int)
    ensures Sum(a + b, fn) == Sum(a, fn) + Sum(b, fn)
  {
    if a == [] {
      assert a + b == b;
    } else {
      assert (a + b)[1..] == a[1..] + b;
      SumAppend(a[1..], b, fn);
    }
  }

  /** Summing the constant 1 counts the elements. */
  lemma {:induction false} SumOfOnes<T>(xs: seq<T>, one: T -> int)
    requires forall x :: one(x) == 1
    ensures Sum(xs, one) == |xs|
  {
    if xs != [] {
      SumOfOnes(xs[1..], one);
    }
  }

  /** `sumBy`: a running total over the iterator, starting from 0. */
  method SumBy<T>(xs: seq<T>, fn: T -> int) returns (result: int)
    ensures result == Sum(xs, fn)
  {
    result := 0;
    for i := 0 to |xs|
      invariant result == Sum(xs[..i], fn)
    {
      SumAppend(xs[..i], [xs[i]], fn);
      assert xs[..i + 1] == xs[..i] + [xs[i]];
      result := result + fn(xs[i]);
    }
    assert xs[..|xs|] == xs;
  }

  /** `filterBy`: the elements of `xs` satisfying `p`, in their original order. */
  function Filter<T(==)>(xs: seq<T>, p: T -> bool): (r: seq<T>)
    ensures |r| <= |xs|
    ensures forall i :: 0 <= i < |r| ==> r[i] in xs && p(r[i])
    ensures forall i :: 0 <= i < |xs| && p(xs[i]) ==> xs[i] in r
  {
    if xs == [] then []
    else (if p(xs[0]) then [xs[0]] else []) + Filter(xs[1..], p)
  }

  /** An element is kept exactly when it occurs in the input and satisfies the predicate. */
  lemma {:induction false} FilterMembership<T>(xs: seq<T>, p: T -> bool, x: T)
    ensures x in Filter(xs, p) <==> x in xs && p(x)
  {
  }

  /** Filtering by predicates that agree everywhere gives the same result. */
  lemma {:induction false} FilterExt<T>(xs: seq<T>, p: T -> bool, q: T -> bool)
    requires forall x :: p(x) == q(x)
    ensures Filter(xs, p) == Filter(xs, q)
  {
    if xs != [] {
      FilterExt(xs[1..], p, q);
    }
  }

  /** Filtering distributes over concatenation. */
  lemma {:induction false} FilterAppend<T>(a: seq<T>, b: seq<T>, p: T -> bool)
    ensures Filter(a + b, p) == Filter(a, p) + Filter(b, p)
  {
    if a == [] {
      assert a + b == b;
    } else {
      assert (a + b)[1..] == a[1..] + b;
      FilterAppend(a[1..], b, p);
    }
  }

  /** Filtering twice is filtering once by the conjunction. */
  lemma {:induction false} FilterFilter<T>(xs: seq<T>, p: T -> bool, q: T -> bool, both: T -> bool)
    requires forall x :: both(x) == (p(x) && q(x))
    ensures Filter(Filter(xs, p), q) == Filter(xs, both)
  {
    if xs != [] {
      FilterFilter(xs[1..], p, q, both);
      if p(xs[0]) {
        var f := Filter(xs, p);
        assert f == [xs[0]] + Filter(xs[1..], p);
        assert f[0] == xs[0] && f[1..] == Filter(xs[1..], p);
        assert Filter(f, q) == (if q(xs[0]) then [xs[0]] else []) + Filter(f[1..], q);
      } else {
        assert Filter(xs, p) == Filter(xs[1..], p);
      }
    }
  }

  /** `a` can be obtained from `b` by deleting elements. */
  predicate IsSubseq<T(==)>(a: seq<T>, b: seq<T>)
  {
    if b == [] then a == []
    else (a != [] && a[0] == b[0] && IsSubseq(a[1..], b[1..])) || IsSubseq(a, b[1..])
  }

  lemma {:induction false} SubseqRefl<T>(a: seq<T>)
    ensures IsSubseq(a, a)
  {
    if a != [] {
      SubseqRefl(a[1..]);
    }
  }

  lemma {:induction false} SubseqEmpty<T>(b: seq<T>)
    ensures IsSubseq([], b)
  {
    if b != [] {
      SubseqEmpty(b[1..]);
    }
  }

  /** Subsequences of the parts give a subsequence of the whole. */
  lemma {:induction false} SubseqConcat<T>(a1: seq<T>, b1: seq<T>, a2: seq<T>, b2: seq<T>)
    requires IsSubseq(a1, b1) && IsSubseq(a2, b2)
    ensures IsSubseq(a1 + a2, b1 + b2)
  {
    if b1 == [] {
      assert a1 + a2 == a2 && b1 + b2 == b2;
    } else {
      assert (b1 + b2)[0] == b1[0] && (b1 + b2)[1..] == b1[1..] + b2;
      if a1 != [] && a1[0] == b1[0] && IsSubseq(a1[1..], b1[1..]) {
        SubseqConcat(a1[1..], b1[1..], a2, b2);
        assert (a1 + a2)[0] == a1[0] && (a1 + a2)[1..] == a1[1..] + a2;
      } else {
        SubseqConcat(a1, b1[1..], a2, b2);
      }
    }
  }

  /** Over a sequence of non-negative terms, a subsequence sums to at most the whole. */
  lemma {:induction false} SumSubseq<T>(a: seq<T>, b: seq<T>, fn: T -> int)
    requires IsSubseq(a, b)
    requires forall x :: x in b ==> fn(x) >= 0
    ensures Sum(a, fn) <= Sum(b, fn)
  {
    if b != [] {
      if a != [] && a[0] == b[0] && IsSubseq(a[1..], b[1..]) {
        SumSubseq(a[1..], b[1..], fn);
      } else {
        SumSubseq(a, b[1..], fn);
        assert fn(b[0]) >= 0;
      }
    }
  }

  /** The result of `filterBy` is a subsequence of its input. */
  lemma {:induction false} FilterIsSubseq<T>(xs: seq<T>, p: T -> bool)
    ensures IsSubseq(Filter(xs, p), xs)
  {
    if xs == [] {
    } else if p(xs[0]) {
      FilterIsSubseq(xs[1..], p);
      assert Filter(xs, p)[0] == xs[0] && Filter(xs, p)[1..] == Filter(xs[1..], p);
    } else {
      FilterIsSubseq(xs[1..], p);
      assert Filter(xs, p) == Filter(xs[1..], p);
    }
  }

  /** The keys `groupBy` creates: one per distinct key value in the input. */
  function KeysOf<T(==), K>(xs: seq<T>, key: T -> K): (ks: set<K>)
    ensures forall x :: x in xs ==> key(x) in ks
    ensures forall k :: k in ks ==> exists x :: x in xs && key(x) == k
  {
    set x | x in xs :: key(x)
  }

  /** The group under key `k`: the input elements whose key is `k`, in input order. */
  function Group<T(==), K(==)>(xs: seq<T>, key: T -> K, k: K): (g: seq<T>)
    ensures forall i :: 0 <= i < |g| ==> g[i] in xs && key(g[i]) == k
    ensures forall i :: 0 <= i < |xs| && key(xs[i]) == k ==> xs[i] in g
  {
    Filter(xs, x => key(x) == k)
  }

  /** A group is the input filtered by any predicate that tests for its key. */
  lemma {:induction false} GroupIsFilter<T, K>(xs: seq<T>, key: T -> K, k: K, q: T -> bool)
    requires forall x :: q(x) == (key(x) == k)
    ensures Group(xs, key, k) == Filter(xs, q)
  {
    FilterExt(xs, x => key(x) == k, q);
  }

  /** Appending one element only extends the group of that element's key. */
  lemma {:induction false} GroupSnoc<T, K>(xs: seq<T>, x: T, key: T -> K, k: K)
    ensures Group(xs + [x], key, k) == Group(xs, key, k) + (if key(x) == k then [x] else [])
  {
    FilterAppend(xs, [x], y => key(y) == k);
  }

  /** One push of `groupBy` turns the groups of `xs[..i]` into the groups of `xs[..i + 1]`. */
  lemma {:induction false} GroupPush<T, K>(xs: seq<T>, i: nat, key: T -> K, groups: map<K, seq<T>>)
    requires i < |xs|
    requires groups.Keys == KeysOf(xs[..i], key)
    requires forall k :: k in groups ==> groups[k] == Group(xs[..i], key, k)
    ensures var k := key(xs[i]);
      var pushed := groups[k := (if k in groups then groups[k] else []) + [xs[i]]];
      && pushed.Keys == KeysOf(xs[..i + 1], key)
      && forall k' :: k' in pushed ==> pushed[k'] == Group(xs[..i + 1], key, k')
  {
    var x, k := xs[i], key(xs[i]);
    assert xs[..i + 1] == xs[..i] + [x];
    var pushed := groups[k := (if k in groups then groups[k] else []) + [x]];
    assert KeysOf(xs[..i + 1], key) == KeysOf(xs[..i], key) + {k};
    var g := Group(xs[..i], key, k);
    assert g != [] ==> g[0] in xs[..i] && key(g[0]) in KeysOf(xs[..i], key);
    forall k' | k' in pushed
      ensures pushed[k'] == Group(xs[..i + 1], key, k')
    {
      GroupSnoc(xs[..i], x, key, k');
    }
  }

  /** Every group is non-empty and a subsequence of the input. */
  lemma {:induction false} GroupOfKey<T, K>(xs: seq<T>, key: T -> K, k: K)
    requires k in KeysOf(xs, key)
    ensures Group(xs, key, k) != [] && IsSubseq(Group(xs, key, k), xs)
  {
    var x :| x in xs && key(x) == k;
    var i :| 0 <= i < |xs| && xs[i] == x;
    assert x in Group(xs, key, k);
    FilterIsSubseq(xs, y => key(y) == k);
  }

  /**
   * `groupBy`: pushes every element onto the array under its key, creating
   * the array on first use. Every element lands in exactly one group, the one
   * under its own key, and each group keeps input order.
   */
  method GroupBy<T(==), K>(xs: seq<T>, key: T -> K) returns (groups: map<K, seq<T>>)
    ensures groups.Keys == KeysOf(xs, key)
    ensures forall k :: k in groups ==> groups[k] == Group(xs, key, k)
    ensures forall k :: k in groups ==> groups[k] != [] && IsSubseq(groups[k], xs)
    ensures forall k, x :: k in groups && x in xs ==> (x in groups[k] <==> key(x) == k)
  {
    groups := map[];
    for i := 0 to |xs|
      invariant groups.Keys == KeysOf(xs[..i], key)
      invariant forall k :: k in groups ==> groups[k] == Group(xs[..i], key, k)
    {
      var k := key(xs[i]);
      var group := if k in groups then groups[k] else [];
      GroupPush(xs, i, key, groups);
      groups := groups[k := group + [xs[i]]];
    }
    assert xs[..|xs|] == xs;
    forall k | k in groups
      ensures groups[k] != [] && IsSubseq(groups[k], xs)
    {
      GroupOfKey(xs, key, k);
    }
    forall k, x | k in groups && x in xs
      ensures x in groups[k] <==> key(x) == k
    {
      FilterMembership(xs, y => key(y) == k, x);
    }
  }
}
