/** Sequence helpers that stand for the array built-ins the viewer uses
    (`new Set(...)`, `reduce`, `push(...xs)`). */
module Seqs {

  /** No element occurs twice. */
  predicate NoDup<T(==)>(s: seq<T>) {
    forall i, j :: 0 <= i < j < |s| ==> s[i] != s[j]
  }

  /** Index of the first occurrence of `x` in `s` (`indexOf`). */
  function Pos<T(==)>(s: seq<T>, x: T): (i: nat)
    requires x in s
    ensures i < |s| && s[i] == x
    ensures forall k :: 0 <= k < i ==> s[k] != x
  {
    if s[0] == x then 0 else 1 + Pos(s[1..], x)
  }

  /** A prefix one longer is the prefix and the next element. */
  lemma PrefixStep<T>(s: seq<T>, j: nat)
    requires j < |s|
    ensures s[..j + 1] == s[..j] + [s[j]]
  {
  }

  /** A prefix followed by the slice after it is the longer prefix. */
  lemma PrefixJoin<T>(s: seq<T>, lo: nat, hi: nat)
    requires lo <= hi <= |s|
    ensures s[..lo] + s[lo..hi] == s[..hi]
  {
  }

  lemma PrefixAll<T>(s: seq<T>)
    ensures s[..|s|] == s
  {
  }

  lemma PrefixOfPrefix<T>(s: seq<T>, m: nat, n: nat)
    requires m <= n <= |s|
    ensures s[..n][..m] == s[..m]
  {
  }

  /** The first occurrence of an element of a prefix is found in the prefix. */
  lemma {:induction false} PosInPrefix<T>(s: seq<T>, n: nat, x: T)
    requires n <= |s| && x in s[..n]
    ensures Pos(s, x) == Pos(s[..n], x)
  {
    if s[0] != x {
      assert s[1..][..n - 1] == s[..n][1..];
      PosInPrefix(s[1..], n - 1, x);
    }
  }

  /** Appending `here` and then `later` to `a` appends their concatenation. */
  lemma AppendStep<T>(a: seq<T>, mid: seq<T>, here: seq<T>, last: seq<T>, later: seq<T>)
    requires mid == a + here && last == mid + later
    ensures last == a + (here + later)
  {
  }

  /** `[...new Set(s)]`: the distinct elements of `s`, in the order in which
      each first occurs (see DistinctFirstSeenOrder). */
  function Distinct<T(==)>(s: seq<T>): (d: seq<T>)
    ensures NoDup(d)
    ensures forall i :: 0 <= i < |d| ==> d[i] in s
    ensures forall i :: 0 <= i < |s| ==> s[i] in d
  {
    if |s| == 0 then []
    else
      var d := Distinct(s[..|s| - 1]);
      assert forall i :: 0 <= i < |s| - 1 ==> s[i] == s[..|s| - 1][i];
      if s[|s| - 1] in d then d else d + [s[|s| - 1]]
  }

  /** The distinct elements come in the order of their first occurrences. */
  lemma {:induction false} DistinctFirstSeenOrder<T>(s: seq<T>)
    ensures forall i, j :: 0 <= i < j < |Distinct(s)| ==> Pos(s, Distinct(s)[i]) < Pos(s, Distinct(s)[j])
  {
    if |s| > 0 {
      var init := s[..|s| - 1];
      var d := Distinct(init);
      var x := s[|s| - 1];
      DistinctFirstSeenOrder(init);
      forall i | 0 <= i < |d| ensures Pos(s, d[i]) == Pos(init, d[i]) && Pos(s, d[i]) < |s| - 1 {
        PosInPrefix(s, |s| - 1, d[i]);
      }
      if x !in d {
        assert x !in init;
        assert Pos(s, x) == |s| - 1;
      }
    }
  }

  /** `xs.reduce((sum, v) => sum + v, 0)`: a left fold of `+` from zero. */
  function Sum(xs: seq<real>): real {
    if |xs| == 0 then 0.0 else Sum(xs[..|xs| - 1]) + xs[|xs| - 1]
  }

  /** The arithmetic mean, as the viewer computes it: the sum divided by the count. */
  function Mean(xs: seq<real>): real
    requires |xs| > 0
  {
    Sum(xs) / |xs| as real
  }

  /** The mean lies between the smallest and the largest value. */
  lemma {:induction false} SumBounds(xs: seq<real>, lo: real, hi: real)
    requires forall i :: 0 <= i < |xs| ==> lo <= xs[i] <= hi
    ensures |xs| as real * lo <= Sum(xs) <= |xs| as real * hi
  {
    if |xs| > 0 {
      SumBounds(xs[..|xs| - 1], lo, hi);
    }
  }

  lemma MeanBounds(xs: seq<real>, lo: real, hi: real)
    requires |xs| > 0
    requires forall i :: 0 <= i < |xs| ==> lo <= xs[i] <= hi
    ensures lo <= Mean(xs) <= hi
  {
    SumBounds(xs, lo, hi);
  }

  /** Sequential concatenation of a sequence of sequences (`push(...xs)` in turn). */
  function Concat<T>(ss: seq<seq<T>>): seq<T> {
    if |ss| == 0 then [] else Concat(ss[..|ss| - 1]) + ss[|ss| - 1]
  }

  lemma ConcatPrefixStep<T>(ss: seq<seq<T>>, p: nat)
    requires 0 < p <= |ss|
    ensures Concat(ss[..p]) == Concat(ss[..p - 1]) + ss[p - 1]
  {
    assert ss[..p][..p - 1] == ss[..p - 1];
  }

  /** A duplicate-free sequence holds each element at most once. */
  lemma {:induction false} NoDupCount<T>(s: seq<T>, x: T)
    requires NoDup(s)
    ensures multiset(s)[x] <= 1
  {
    if |s| > 0 {
      var init := s[..|s| - 1];
      assert s == init + [s[|s| - 1]];
      NoDupCount(init, x);
      if x == s[|s| - 1] {
        assert x !in init;
      }
    }
  }

  /** A permutation of a duplicate-free sequence is duplicate-free. */
  lemma NoDupPermutation<T>(a: seq<T>, b: seq<T>)
    requires NoDup(a) && multiset(a) == multiset(b)
    ensures NoDup(b)
  {
    forall i, j | 0 <= i < j < |b| ensures b[i] != b[j] {
      assert b == b[..j] + [b[j]] + b[j + 1..];
      assert b[i] in b[..j];
      NoDupCount(a, b[i]);
    }
  }
}
