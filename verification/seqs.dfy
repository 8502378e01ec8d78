/**
  Sequence operations the dashboard relies on: `Array.prototype.filter`,
  the first-seen de-duplication `[...new Set(xs)]`, and the notions used to
  state what they preserve (order, multiplicity, distinctness).
 */
module Seqs {

  /** `a` can be obtained from `b` by deleting elements: order is kept. */
  ghost predicate IsSubsequence<T>(a: seq<T>, b: seq<T>)
    decreases |b|
  {
    || |a| == 0
    || (|b| > 0 && ((a[0] == b[0] && IsSubsequence(a[1..], b[1..])) || IsSubsequence(a, b[1..])))
  }

  ghost predicate NoDuplicates<T>(s: seq<T>) {
    forall i, j :: 0 <= i < j < |s| ==> s[i] != s[j]
  }

  /** The elements of `s` satisfying `keep`, in their original order. */
  function Filter<T>(s: seq<T>, keep: T -> bool): (r: seq<T>)
    ensures |r| <= |s|
    ensures forall i :: 0 <= i < |r| ==> keep(r[i])
    ensures forall i :: 0 <= i < |s| && keep(s[i]) ==> s[i] in r
    ensures multiset(r) <= multiset(s)
    decreases |s|
  {
    if |s| == 0 then []
    else
      assert s == [s[0]] + s[1..];
      (if keep(s[0]) then [s[0]] else []) + Filter(s[1..], keep)
  }

  /** Filtering keeps the surviving elements in their original relative order. */
  lemma {:induction false} FilterIsSubsequence<T>(s: seq<T>, keep: T -> bool)
    ensures IsSubsequence(Filter(s, keep), s)
    decreases |s|
  {
    if |s| > 0 {
      FilterIsSubsequence(s[1..], keep);
      var r := Filter(s, keep);
      if keep(s[0]) {
        assert r[0] == s[0] && r[1..] == Filter(s[1..], keep);
      } else {
        assert r == Filter(s[1..], keep);
      }
    }
  }

  /** Filtering distributes over concatenation. */
  lemma {:induction false} FilterAppend<T>(s: seq<T>, t: seq<T>, keep: T -> bool)
    ensures Filter(s + t, keep) == Filter(s, keep) + Filter(t, keep)
    decreases |s|
  {
    if |s| == 0 {
      assert s + t == t;
    } else {
      assert (s + t)[1..] == s[1..] + t;
      FilterAppend(s[1..], t, keep);
    }
  }

  /** A filter that keeps every element is the identity. */
  lemma {:induction false} FilterKeepsAll<T>(s: seq<T>, keep: T -> bool)
    requires forall i :: 0 <= i < |s| ==> keep(s[i])
    ensures Filter(s, keep) == s
    decreases |s|
  {
    if |s| > 0 {
      FilterKeepsAll(s[1..], keep);
      assert s == [s[0]] + s[1..];
    }
  }

  /** A filter that keeps no element yields the empty sequence. */
  lemma {:induction false} FilterKeepsNone<T>(s: seq<T>, keep: T -> bool)
    requires forall i :: 0 <= i < |s| ==> !keep(s[i])
    ensures Filter(s, keep) == []
    decreases |s|
  {
    if |s| > 0 {
      FilterKeepsNone(s[1..], keep);
    }
  }

  /**
    A filter and its complement split `s` without loss: every element, with
    its multiplicity, ends up on exactly one side.
   */
  lemma {:induction false} FilterSplits<T>(s: seq<T>, keep: T -> bool, drop: T -> bool)
    requires forall x :: drop(x) == !keep(x)
    ensures multiset(Filter(s, keep)) + multiset(Filter(s, drop)) == multiset(s)
    decreases |s|
  {
    if |s| > 0 {
      var t := s[1..];
      var h := [s[0]];
      assert s == h + t;
      var a, b := Filter(t, keep), Filter(t, drop);
      FilterSplits(t, keep, drop);
      assert multiset(a) + multiset(b) == multiset(t);
      if keep(s[0]) {
        assert Filter(s, keep) == h + a;
        assert Filter(s, drop) == b;
        assert multiset(h + a) == multiset(h) + multiset(a);
      } else {
        assert Filter(s, keep) == a;
        assert Filter(s, drop) == h + b;
        assert multiset(h + b) == multiset(h) + multiset(b);
      }
    }
  }

  /** Does the element's key differ from `k`? */
  function KeyIsNot<T>(key: T -> int, k: int): T -> bool {
    x => key(x) != k
  }

  /** Does the element's key equal `k`? */
  function KeyIs<T>(key: T -> int, k: int): T -> bool {
    x => key(x) == k
  }

  /**
    `items.filter((x) => x.id !== k)`, the patch every list controller applies
    after a confirmed delete (or convert): no element with key `k` is left,
    every other element stays, and the survivors keep their relative order.
   */
  function WithoutKey<T>(s: seq<T>, key: T -> int, k: int): (r: seq<T>)
    ensures forall i :: 0 <= i < |r| ==> key(r[i]) != k
    ensures forall i :: 0 <= i < |s| && key(s[i]) != k ==> s[i] in r
    ensures multiset(r) <= multiset(s)
    ensures IsSubsequence(r, s)
  {
    FilterIsSubsequence(s, KeyIsNot(key, k));
    Filter(s, KeyIsNot(key, k))
  }

  /** Membership after removing key `k`: exactly the elements of `s` with another key. */
  lemma WithoutKeyMembers<T>(s: seq<T>, key: T -> int, k: int)
    ensures forall x :: x in WithoutKey(s, key, k) <==> x in s && key(x) != k
  {
    var r := WithoutKey(s, key, k);
    forall x | x in r
      ensures x in s && key(x) != k
    {
      assert x in multiset(r);
    }
  }

  /** Removing a key no element has is a no-op. */
  lemma WithoutAbsentKey<T>(s: seq<T>, key: T -> int, k: int)
    requires forall i :: 0 <= i < |s| ==> key(s[i]) != k
    ensures WithoutKey(s, key, k) == s
  {
    FilterKeepsAll(s, KeyIsNot(key, k));
  }

  /**
    Removing a key drops exactly the elements with that key: survivors and
    dropped elements together are `s`, with multiplicities.
   */
  lemma WithoutKeyDropsExactly<T>(s: seq<T>, key: T -> int, k: int)
    ensures multiset(WithoutKey(s, key, k)) + multiset(Filter(s, KeyIs(key, k))) == multiset(s)
  {
    FilterSplits(s, KeyIsNot(key, k), KeyIs(key, k));
  }

  /** Position of the first occurrence of `x` in `s`. */
  function FirstIndex<T(==)>(s: seq<T>, x: T): (i: nat)
    requires x in s
    ensures i < |s| && s[i] == x
    ensures forall j :: 0 <= j < i ==> s[j] != x
  {
    if s[0] == x then 0 else 1 + FirstIndex(s[1..], x)
  }

  /** An element present in a prefix is first seen at the same place there. */
  lemma FirstIndexInPrefix<T>(s: seq<T>, n: nat, x: T)
    requires n <= |s| && x in s[..n]
    ensures x in s && FirstIndex(s, x) == FirstIndex(s[..n], x)
  {
    var i := FirstIndex(s[..n], x);
    assert s[i] == x;
    var k := FirstIndex(s, x);
    assert k <= i;
    assert s[..n][k] == x;
  }

  /**
    `[...new Set(s)]`: the distinct elements of `s`, each once, in the order
    in which a left-to-right scan first meets them.
   */
  function Distinct<T(==)>(s: seq<T>): (r: seq<T>)
    ensures NoDuplicates(r)
    ensures forall i :: 0 <= i < |r| ==> r[i] in s
    ensures forall i :: 0 <= i < |s| ==> s[i] in r
    ensures |r| == 0 <==> |s| == 0
    ensures |r| <= |s|
    decreases |s|
  {
    if |s| == 0 then []
    else
      var prefix := Distinct(s[..|s| - 1]);
      assert s == s[..|s| - 1] + [s[|s| - 1]];
      if s[|s| - 1] in prefix then prefix else prefix + [s[|s| - 1]]
  }

  /** The first-seen order of `d` within `s`. */
  ghost predicate FirstSeenOrder<T>(s: seq<T>, d: seq<T>)
    requires forall i :: 0 <= i < |d| ==> d[i] in s
  {
    forall i, j :: 0 <= i < j < |d| ==> FirstIndex(s, d[i]) < FirstIndex(s, d[j])
  }

  /** One pair of the inductive step: extending `s` by one element keeps the order. */
  lemma DistinctOrderStep<T>(s: seq<T>, i: nat, j: nat)
    requires |s| > 0 && i < j < |Distinct(s)|
    requires FirstSeenOrder(s[..|s| - 1], Distinct(s[..|s| - 1]))
    ensures FirstIndex(s, Distinct(s)[i]) < FirstIndex(s, Distinct(s)[j])
  {
    var n := |s| - 1;
    var p := s[..n];
    var dp := Distinct(p);
    var d := Distinct(s);
    assert s == p + [s[n]];
    if s[n] in dp {
      assert d == dp;
    } else {
      assert d == dp + [s[n]];
    }
    assert d[i] == dp[i];
    FirstIndexInPrefix(s, n, d[i]);
    if j < |dp| {
      assert d[j] == dp[j];
      FirstIndexInPrefix(s, n, d[j]);
    } else {
      assert d[j] == s[n] && s[n] !in p;
    }
  }

  /** The order of `Distinct(s)` is the order of first occurrence in `s`. */
  lemma {:induction false} DistinctIsFirstSeenOrder<T>(s: seq<T>)
    ensures FirstSeenOrder(s, Distinct(s))
    decreases |s|
  {
    if |s| > 0 {
      DistinctIsFirstSeenOrder(s[..|s| - 1]);
      forall i, j | 0 <= i < j < |Distinct(s)|
        ensures FirstIndex(s, Distinct(s)[i]) < FirstIndex(s, Distinct(s)[j])
      {
        DistinctOrderStep(s, i, j);
      }
    }
  }

  /** The first element of a non-empty sequence is the first distinct element. */
  lemma {:induction false} DistinctStartsWithHead<T>(s: seq<T>)
    requires |s| > 0
    ensures Distinct(s)[0] == s[0]
    decreases |s|
  {
    if |s| > 1 {
      var p := s[..|s| - 1];
      DistinctStartsWithHead(p);
      assert p[0] == s[0];
    }
  }
}
