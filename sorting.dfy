/** `Array.prototype.sort` with a comparator, which ECMAScript requires to be
    stable: modelled as insertion sort by a "strictly before" relation. */
module Sorting {
  import opened Seqs

  /** `less` is a strict weak order: asymmetric, and "not before" is transitive.
      A consistent comparator (`cmp(a, b) < 0`) is one. */
  ghost predicate StrictWeakOrder<T(!new)>(less: (T, T) -> bool) {
    && (forall a, b :: less(a, b) ==> !less(b, a))
    && (forall a, b, c :: !less(a, b) && !less(b, c) ==> !less(a, c))
  }

  /** Neither element goes strictly before the other: the comparator returns 0. */
  predicate Tied<T>(less: (T, T) -> bool, a: T, b: T) {
    !less(a, b) && !less(b, a)
  }

  /** No element goes strictly before one to its left. */
  predicate Sorted<T>(s: seq<T>, less: (T, T) -> bool) {
    forall i, j :: 0 <= i < j < |s| ==> !less(s[j], s[i])
  }

  /** Where `x` goes in `r`: after every element strictly before it, ahead of
      the first one that is not. */
  function InsertPoint<T>(x: T, r: seq<T>, less: (T, T) -> bool): (k: nat)
    ensures k <= |r|
    ensures forall i :: 0 <= i < k ==> less(r[i], x)
    ensures k < |r| ==> !less(r[k], x)
  {
    if r == [] || !less(r[0], x) then 0
    else
      var k := 1 + InsertPoint(x, r[1..], less);
      assert forall i :: 1 <= i < k ==> r[i] == r[1..][i - 1];
      k
  }

  function Insert<T>(x: T, r: seq<T>, less: (T, T) -> bool): seq<T> {
    var k := InsertPoint(x, r, less);
    r[..k] + [x] + r[k..]
  }

  /** The stable sort of `s` by `less`. */
  function Sort<T>(s: seq<T>, less: (T, T) -> bool): seq<T> {
    if s == [] then [] else Insert(s[0], Sort(s[1..], less), less)
  }

  /** Sorting only rearranges: the result is a permutation of the input. */
  lemma {:induction false} SortPermutes<T>(s: seq<T>, less: (T, T) -> bool)
    ensures multiset(Sort(s, less)) == multiset(s)
  {
    if s != [] {
      SortPermutes(s[1..], less);
      InsertPermutes(s[0], Sort(s[1..], less), less);
      assert s == [s[0]] + s[1..];
    }
  }

  lemma InsertPermutes<T>(x: T, r: seq<T>, less: (T, T) -> bool)
    ensures multiset(Insert(x, r, less)) == multiset(r) + multiset{x}
  {
    var k := InsertPoint(x, r, less);
    assert r == r[..k] + r[k..];
    assert multiset(r[..k] + [x] + r[k..]) == multiset(r[..k]) + multiset{x} + multiset(r[k..]);
  }

  lemma InsertSorted<T(!new)>(x: T, r: seq<T>, less: (T, T) -> bool)
    requires StrictWeakOrder(less)
    requires Sorted(r, less)
    ensures Sorted(Insert(x, r, less), less)
  {
    var k := InsertPoint(x, r, less);
    var t := Insert(x, r, less);
    forall i, j | 0 <= i < j < |t| ensures !less(t[j], t[i]) {
      if j < k {
        assert t[i] == r[i] && t[j] == r[j];
      } else if j == k {
        assert t[i] == r[i] && t[j] == x;
      } else if i == k {
        assert t[j] == r[j - 1] && t[i] == x;
        assert !less(r[j - 1], r[k]) || j - 1 == k;
      } else if i < k {
        assert t[i] == r[i] && t[j] == r[j - 1];
      } else {
        assert t[i] == r[i - 1] && t[j] == r[j - 1];
      }
    }
  }

  /** Under a strict weak order, the result is sorted. */
  lemma {:induction false} SortSorts<T(!new)>(s: seq<T>, less: (T, T) -> bool)
    requires StrictWeakOrder(less)
    ensures Sorted(Sort(s, less), less)
  {
    if s != [] {
      SortSorts(s[1..], less);
      InsertSorted(s[0], Sort(s[1..], less), less);
    }
  }

  lemma {:induction false} PosIs<T>(s: seq<T>, p: nat, y: T)
    requires p < |s| && s[p] == y
    requires forall q :: 0 <= q < p ==> s[q] != y
    ensures Pos(s, y) == p
  {
    if p > 0 {
      PosIs(s[1..], p - 1, y);
    }
  }

  /** Inserting `x` shifts every element at or after the insertion point by one. */
  lemma PosInsert<T>(x: T, r: seq<T>, less: (T, T) -> bool, y: T)
    requires x !in r && y in r
    ensures var k := InsertPoint(x, r, less);
            Pos(Insert(x, r, less), x) == k
            && Pos(Insert(x, r, less), y) == if Pos(r, y) < k then Pos(r, y) else Pos(r, y) + 1
  {
    PosSpliced(r, InsertPoint(x, r, less), x, y);
  }

  lemma PosSpliced<T>(r: seq<T>, k: nat, x: T, y: T)
    requires k <= |r| && x !in r && y in r
    ensures var t := r[..k] + [x] + r[k..];
            Pos(t, x) == k && Pos(t, y) == if Pos(r, y) < k then Pos(r, y) else Pos(r, y) + 1
  {
    PosSplicedNew(r, k, x);
    if Pos(r, y) < k {
      PosSplicedBefore(r, k, x, y);
    } else {
      PosSplicedAfter(r, k, x, y);
    }
  }

  lemma PosSplicedNew<T>(r: seq<T>, k: nat, x: T)
    requires k <= |r| && x !in r
    ensures Pos(r[..k] + [x] + r[k..], x) == k
  {
    var t := r[..k] + [x] + r[k..];
    forall q | 0 <= q < k ensures t[q] != x {
      SplicedAt(r, k, x, q);
    }
    SplicedAt(r, k, x, k);
    PosIs(t, k, x);
  }

  lemma PosSplicedBefore<T>(r: seq<T>, k: nat, x: T, y: T)
    requires k <= |r| && y in r && Pos(r, y) < k
    ensures Pos(r[..k] + [x] + r[k..], y) == Pos(r, y)
  {
    var t := r[..k] + [x] + r[k..];
    var p := Pos(r, y);
    forall q | 0 <= q <= p ensures t[q] == r[q] {
      SplicedAt(r, k, x, q);
    }
    PosIs(t, p, y);
  }

  lemma PosSplicedAfter<T>(r: seq<T>, k: nat, x: T, y: T)
    requires k <= |r| && x !in r && y in r && k <= Pos(r, y)
    ensures Pos(r[..k] + [x] + r[k..], y) == Pos(r, y) + 1
  {
    var t := r[..k] + [x] + r[k..];
    var p := Pos(r, y);
    forall q | 0 <= q < p + 1 ensures t[q] != y {
      SplicedAt(r, k, x, q);
    }
    SplicedAt(r, k, x, p + 1);
    PosIs(t, p + 1, y);
  }

  /** The elements of `r` with `x` spliced in at `k`. */
  lemma SplicedAt<T>(r: seq<T>, k: nat, x: T, q: nat)
    requires k <= |r| && q <= |r|
    ensures (r[..k] + [x] + r[k..])[q] == if q < k then r[q] else if q == k then x else r[q - 1]
  {
  }

  lemma SortKeeps<T>(s: seq<T>, less: (T, T) -> bool)
    ensures forall x :: x in s <==> x in Sort(s, less)
  {
    SortPermutes(s, less);
    assert forall x :: x in s <==> x in multiset(s);
  }

  /** Sorting a duplicate-free sequence gives its elements, each once. */
  lemma SortDistinct<T>(s: seq<T>, less: (T, T) -> bool)
    requires NoDup(s)
    ensures |Sort(s, less)| == |s| && NoDup(Sort(s, less))
    ensures forall x :: x in Sort(s, less) <==> x in s
  {
    var r := Sort(s, less);
    SortPermutes(s, less);
    SortKeeps(s, less);
    NoDupPermutation(s, r);
    assert |r| == |multiset(r)|;
  }

  /** One step of stability: `s[i]` and `s[j]` keep their order when `s[0]`
      is inserted into the sorted rest. */
  lemma StableStep<T>(s: seq<T>, less: (T, T) -> bool, i: nat, j: nat)
    requires NoDup(s) && 0 <= i < j < |s| && Tied(less, s[i], s[j])
    requires forall x :: x in s[1..] <==> x in Sort(s[1..], less)
    requires i > 0 ==> (s[i] in s[1..] && s[j] in s[1..] &&
                        Pos(Sort(s[1..], less), s[i]) < Pos(Sort(s[1..], less), s[j]))
    ensures s[i] in Sort(s, less) && s[j] in Sort(s, less)
    ensures Pos(Sort(s, less), s[i]) < Pos(Sort(s, less), s[j])
  {
    SortKeeps(s, less);
    var x := s[0];
    var r := Sort(s[1..], less);
    assert x !in s[1..];
    assert s[j] == s[1..][j - 1];
    PosInsert(x, r, less, s[j]);
    if i == 0 {
      var pj := Pos(r, s[j]);
      assert !less(r[pj], x);
    } else {
      assert s[i] == s[1..][i - 1];
      PosInsert(x, r, less, s[i]);
    }
  }

  /** Stability: of two tied elements of a duplicate-free input, the one that
      came first still comes first. */
  lemma {:induction false} SortStable<T>(s: seq<T>, less: (T, T) -> bool)
    requires NoDup(s)
    ensures forall x :: x in s <==> x in Sort(s, less)
    ensures forall i, j :: 0 <= i < j < |s| && Tied(less, s[i], s[j]) ==>
              Pos(Sort(s, less), s[i]) < Pos(Sort(s, less), s[j])
  {
    SortKeeps(s, less);
    if s != [] {
      SortStable(s[1..], less);
      forall i, j | 0 <= i < j < |s| && Tied(less, s[i], s[j])
        ensures Pos(Sort(s, less), s[i]) < Pos(Sort(s, less), s[j])
      {
        if i > 0 {
          assert s[i] == s[1..][i - 1] && s[j] == s[1..][j - 1];
        }
        StableStep(s, less, i, j);
      }
    }
  }

  /** `s.map(f)`. */
  function MapSeq<T, U>(f: T -> U, s: seq<T>): (r: seq<U>)
    ensures |r| == |s|
    ensures forall i :: 0 <= i < |s| ==> r[i] == f(s[i])
  {
    if s == [] then [] else [f(s[0])] + MapSeq(f, s[1..])
  }

  lemma {:induction false} InsertPointMap<T, U>(f: T -> U, x: T, r: seq<T>,
                                                less: (T, T) -> bool, less': (U, U) -> bool)
    requires forall a, b :: less'(f(a), f(b)) == less(a, b)
    ensures InsertPoint(f(x), MapSeq(f, r), less') == InsertPoint(x, r, less)
  {
    if r != [] {
      assert MapSeq(f, r)[1..] == MapSeq(f, r[1..]);
      InsertPointMap(f, x, r[1..], less, less');
    }
  }

  /** Sorting commutes with a map that preserves the order between elements. */
  lemma {:induction false} SortMap<T, U>(f: T -> U, s: seq<T>, less: (T, T) -> bool, less': (U, U) -> bool)
    requires forall a, b :: less'(f(a), f(b)) == less(a, b)
    ensures Sort(MapSeq(f, s), less') == MapSeq(f, Sort(s, less))
  {
    if s != [] {
      var r := Sort(s[1..], less);
      assert MapSeq(f, s)[1..] == MapSeq(f, s[1..]);
      SortMap(f, s[1..], less, less');
      InsertPointMap(f, s[0], r, less, less');
      MapSeqInsert(f, s[0], r, InsertPoint(s[0], r, less));
    }
  }

  lemma MapSeqInsert<T, U>(f: T -> U, x: T, r: seq<T>, k: nat)
    requires k <= |r|
    ensures MapSeq(f, r)[..k] + [f(x)] + MapSeq(f, r)[k..] == MapSeq(f, r[..k] + [x] + r[k..])
  {
    var m := MapSeq(f, r);
    var c := r[..k] + [x] + r[k..];
    var a := m[..k] + [f(x)] + m[k..];
    var b := MapSeq(f, c);
    assert |a| == |b|;
    forall i | 0 <= i < |a| ensures a[i] == b[i] {
      if i < k {
        assert a[i] == m[i] && c[i] == r[i];
      } else if i == k {
        assert a[i] == f(x) && c[i] == x;
      } else {
        assert a[i] == m[i - 1] && c[i] == r[i - 1];
      }
    }
  }
}
