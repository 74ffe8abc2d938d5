/**
 * The JavaScript array operations the application relies on: `filter` and
 * `find`/`findIndex`, with the facts about them that the rest of the model
 * uses.
 */
module Seqs {
  import opened Wrappers

  /**
   * `a` is `b` read at the strictly increasing positions `idx`: the
   * witness that `a` is an order-preserving subsequence of `b`.
   */
  ghost predicate Picks<T>(a: seq<T>, b: seq<T>, idx: seq<nat>) {
    && |idx| == |a|
    && (forall k :: 0 <= k < |idx| ==> idx[k] < |b| && a[k] == b[idx[k]])
    && (forall k, l :: 0 <= k < l < |idx| ==> idx[k] < idx[l])
  }

  /** `a` is obtained from `b` by dropping elements, keeping the order. */
  ghost predicate IsSubsequence<T>(a: seq<T>, b: seq<T>) {
    exists idx :: Picks(a, b, idx)
  }

  /** A prefix of a subsequence is a subsequence. */
  lemma SubsequencePrefix<T>(a: seq<T>, b: seq<T>, n: nat)
    requires IsSubsequence(a, b)
    requires n <= |a|
    ensures IsSubsequence(a[..n], b)
  {
    var idx :| Picks(a, b, idx);
    assert Picks(a[..n], b, idx[..n]);
  }

  /** `s.filter(p)`: the elements of `s` that satisfy `p`, in order. */
  function Filter<T>(s: seq<T>, p: T -> bool): (r: seq<T>)
    ensures |r| <= |s|
    ensures forall k :: 0 <= k < |r| ==> p(r[k])
  {
    if s == [] then []
    else (if p(s[0]) then [s[0]] else []) + Filter(s[1..], p)
  }

  /** Every position moved one place to the right. */
  function Shift(idx: seq<nat>): (r: seq<nat>)
    ensures |r| == |idx|
    ensures forall k :: 0 <= k < |idx| ==> r[k] == idx[k] + 1
  {
    seq(|idx|, k requires 0 <= k < |idx| => idx[k] + 1)
  }

  /** Positions in the tail of `b` are positions in `b`, one place on. */
  lemma PicksShift<T>(a: seq<T>, b: seq<T>, idx: seq<nat>)
    requires |b| > 0 && Picks(a, b[1..], idx)
    ensures Picks(a, b, Shift(idx))
  {
    var sh := Shift(idx);
    forall k | 0 <= k < |idx| ensures sh[k] < |b| && a[k] == b[sh[k]] {
      assert a[k] == b[1..][idx[k]];
    }
  }

  /** Picking the head of `b` first, then positions in its tail, is a pick from `b`. */
  lemma PicksCons<T>(a: seq<T>, b: seq<T>, idx: seq<nat>)
    requires |b| > 0 && Picks(a, b[1..], idx)
    ensures Picks([b[0]] + a, b, [0] + Shift(idx))
  {
    PicksShift(a, b, idx);
    var sh, a' := [0] + Shift(idx), [b[0]] + a;
    forall k | 1 <= k < |sh| ensures sh[k] < |b| && a'[k] == b[sh[k]] {
      assert sh[k] == Shift(idx)[k - 1] && a'[k] == a[k - 1];
    }
    forall k, l | 0 <= k < l < |sh| ensures sh[k] < sh[l] {
      if k > 0 {
        assert sh[k] == Shift(idx)[k - 1] && sh[l] == Shift(idx)[l - 1];
      }
    }
  }

  /** The positions of `s` that `Filter` keeps. */
  ghost function FilterPositions<T>(s: seq<T>, p: T -> bool): (idx: seq<nat>)
    ensures Picks(Filter(s, p), s, idx)
  {
    if s == [] then []
    else
      var rest := FilterPositions(s[1..], p);
      if p(s[0]) then
        PicksCons(Filter(s[1..], p), s, rest);
        [0] + Shift(rest)
      else
        PicksShift(Filter(s[1..], p), s, rest);
        Shift(rest)
  }

  /** The filtered sequence is an order-preserving subsequence. */
  lemma FilterIsSubsequence<T>(s: seq<T>, p: T -> bool)
    ensures IsSubsequence(Filter(s, p), s)
  {
    var idx := FilterPositions(s, p);
  }

  /** An element is kept exactly when it is in `s` and satisfies `p`. */
  lemma {:induction false} FilterMembers<T>(s: seq<T>, p: T -> bool)
    ensures forall x :: x in Filter(s, p) <==> x in s && p(x)
  {
    if s != [] {
      FilterMembers(s[1..], p);
      assert s == [s[0]] + s[1..];
    }
  }

  /**
   * Filtering keeps every copy of an element that passes and no copy of one
   * that fails: the result is determined up to order by its multiset.
   */
  lemma {:induction false} FilterMultiset<T>(s: seq<T>, p: T -> bool)
    ensures forall x :: multiset(Filter(s, p))[x] == if p(x) then multiset(s)[x] else 0
  {
    if s != [] {
      FilterMultiset(s[1..], p);
      assert s == [s[0]] + s[1..];
    }
  }

  /** Filtering distributes over concatenation. */
  lemma {:induction false} FilterAppend<T>(a: seq<T>, b: seq<T>, p: T -> bool)
    ensures Filter(a + b, p) == Filter(a, p) + Filter(b, p)
  {
    if a == [] {
      assert a + b == b;
    } else {
      assert (a + b)[1..] == a[1..] + b;
      FilterAppend(a[1..], b, p);
    }
  }

  /** Appending one element appends it to the result when it passes. */
  lemma FilterSnoc<T>(s: seq<T>, x: T, p: T -> bool)
    ensures Filter(s + [x], p) == Filter(s, p) + (if p(x) then [x] else [])
  {
    FilterAppend(s, [x], p);
    assert Filter([x], p) == (if p(x) then [x] else []) + Filter([], p);
  }

  /** When every element passes, filtering changes nothing. */
  lemma {:induction false} FilterAll<T>(s: seq<T>, p: T -> bool)
    requires forall k :: 0 <= k < |s| ==> p(s[k])
    ensures Filter(s, p) == s
  {
    if s != [] {
      FilterAll(s[1..], p);
    }
  }

  /** When no element passes, the result is empty. */
  lemma {:induction false} FilterNone<T>(s: seq<T>, p: T -> bool)
    requires forall k :: 0 <= k < |s| ==> !p(s[k])
    ensures Filter(s, p) == []
  {
    if s != [] {
      FilterNone(s[1..], p);
    }
  }

  /** Filtering twice with the same test is filtering once. */
  lemma FilterIdempotent<T>(s: seq<T>, p: T -> bool)
    ensures Filter(Filter(s, p), p) == Filter(s, p)
  {
    FilterAll(Filter(s, p), p);
  }

  /**
   * `s.findIndex(p)`, with -1 written as `None`: the first position whose
   * element satisfies `p`.
   */
  function FindIndex<T>(s: seq<T>, p: T -> bool): (r: Option<nat>)
    ensures r.Some? ==> r.value < |s| && p(s[r.value])
    ensures r.Some? ==> forall j :: 0 <= j < r.value ==> !p(s[j])
    ensures r.None? <==> forall j :: 0 <= j < |s| ==> !p(s[j])
  {
    if s == [] then None
    else if p(s[0]) then Some(0)
    else match FindIndex(s[1..], p)
      case Some(k) => Some(k + 1)
      case None => None
  }

  /**
   * The head of a filtered sequence is the element `find` returns: the
   * first one in `s` that passes. The result is empty exactly when
   * nothing passes.
   */
  lemma {:induction false} FilterHeadIsFirst<T>(s: seq<T>, p: T -> bool)
    ensures Filter(s, p) == [] <==> FindIndex(s, p).None?
    ensures Filter(s, p) != [] ==> Filter(s, p)[0] == s[FindIndex(s, p).value]
  {
    if s != [] && !p(s[0]) {
      FilterHeadIsFirst(s[1..], p);
    }
  }

  /** Two tests that agree on every element of `s` keep the same elements. */
  lemma {:induction false} FilterSameTest<T>(s: seq<T>, p: T -> bool, q: T -> bool)
    requires forall k :: 0 <= k < |s| ==> p(s[k]) == q(s[k])
    ensures Filter(s, p) == Filter(s, q)
  {
    if s != [] {
      FilterSameTest(s[1..], p, q);
    }
  }
}
