/** Sequence helpers shared by the front-end store and both back-end stores:
    the two JavaScript array operations they are built from, `filter` and `find`.
 */
module Seqs {

  datatype Option<+T> = None | Some(value: T)

  /** The elements of `s` that satisfy `p`, in their original order
      (`Array.prototype.filter`). */
  function Filter<T(!new)>(s: seq<T>, p: T -> bool): (r: seq<T>)
    ensures |r| <= |s|
    ensures forall x :: x in r <==> x in s && p(x)
  {
    if |s| == 0 then []
    else
      assert s == [s[0]] + s[1..];
      if p(s[0]) then [s[0]] + Filter(s[1..], p) else Filter(s[1..], p)
  }

  /** Filtering a concatenation filters each part and keeps the parts in order:
      the kept elements appear in the same relative order as in the input. */
  lemma {:induction false} FilterAppend<T(!new)>(a: seq<T>, b: seq<T>, p: T -> bool)
    ensures Filter(a + b, p) == Filter(a, p) + Filter(b, p)
  {
    if |a| == 0 {
      assert a + b == b;
    } else {
      assert (a + b)[0] == a[0];
      assert (a + b)[1..] == a[1..] + b;
      FilterAppend(a[1..], b, p);
    }
  }

  /** Filtering with a test every element passes changes nothing. */
  lemma {:induction false} FilterKeepsAll<T(!new)>(s: seq<T>, p: T -> bool)
    requires forall i :: 0 <= i < |s| ==> p(s[i])
    ensures Filter(s, p) == s
  {
    if |s| > 0 {
      FilterKeepsAll(s[1..], p);
    }
  }

  /** Filtering twice with the same test is filtering once. */
  lemma FilterIdempotent<T(!new)>(s: seq<T>, p: T -> bool)
    ensures Filter(Filter(s, p), p) == Filter(s, p)
  {
    var r := Filter(s, p);
    forall i | 0 <= i < |r|
      ensures p(r[i])
    {
      assert r[i] in r;
    }
    FilterKeepsAll(r, p);
  }

  /** A test and its negation split a sequence: the two filtered parts
      together are exactly as long as the whole. */
  lemma {:induction false} FilterComplementLength<T(!new)>(s: seq<T>, p: T -> bool, q: T -> bool)
    requires forall x :: q(x) == !p(x)
    ensures |Filter(s, p)| + |Filter(s, q)| == |s|
  {
    if |s| > 0 {
      FilterComplementLength(s[1..], p, q);
    }
  }

  /** A relation that holds between every element and each later one still
      holds after filtering: filtering only drops elements, never reorders
      them. */
  lemma {:induction false} FilterKeepsPairwise<T(!new)>(s: seq<T>, p: T -> bool, rel: (T, T) -> bool)
    requires forall i, j :: 0 <= i < j < |s| ==> rel(s[i], s[j])
    ensures forall i, j :: 0 <= i < j < |Filter(s, p)| ==> rel(Filter(s, p)[i], Filter(s, p)[j])
  {
    if |s| > 0 {
      var rest := Filter(s[1..], p);
      FilterKeepsPairwise(s[1..], p, rel);
      forall y | y in rest
        ensures rel(s[0], y)
      {
        var k :| 0 <= k < |s[1..]| && s[1..][k] == y;
        assert s[k + 1] == y;
      }
    }
  }

  /** `i` is the position of the first element of `s` that passes `p`. */
  ghost predicate IsFirst<T>(s: seq<T>, p: T -> bool, i: int)
  {
    && 0 <= i < |s|
    && p(s[i])
    && forall k :: 0 <= k < i ==> !p(s[k])
  }

  /** The position `Array.prototype.find` stops at: the first element passing
      `p`, or None when no element does. */
  function FirstIndex<T>(s: seq<T>, p: T -> bool): (r: Option<nat>)
    ensures r.Some? ==> IsFirst(s, p, r.value)
    ensures r.None? <==> forall k :: 0 <= k < |s| ==> !p(s[k])
  {
    if |s| == 0 then None
    else if p(s[0]) then Some(0)
    else
      match FirstIndex(s[1..], p)
      case None => None
      case Some(j) => Some(j + 1)
  }

  /** There is at most one first position. */
  lemma IsFirstUnique<T>(s: seq<T>, p: T -> bool, i: int, j: int)
    requires IsFirst(s, p, i) && IsFirst(s, p, j)
    ensures i == j
  {
  }

  /** `FirstIndex` looks only at which elements pass the test: two sequences
      of equal length that agree on the test at every position give the
      same answer. */
  lemma FirstIndexSameTests<T>(s: seq<T>, t: seq<T>, p: T -> bool)
    requires |s| == |t|
    requires forall k :: 0 <= k < |s| ==> p(s[k]) == p(t[k])
    ensures FirstIndex(s, p) == FirstIndex(t, p)
  {
    var a, b := FirstIndex(s, p), FirstIndex(t, p);
    if a.Some? {
      assert IsFirst(t, p, a.value);
      IsFirstUnique(t, p, a.value, b.value);
    }
  }
}
