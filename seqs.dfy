/** The order-preserving filter that every derived-relationship query
  * computes, and what it guarantees: soundness, completeness, how often
  * each scanned element appears, the order of the result, and how it
  * behaves when the scanned sequence grows or the test changes. */
module Seqs {

  /** The elements of `s` for which `keep` holds, in the order of `s`.
    * Defined from the back, the way a scan that appends builds it. */
  function Filter<T>(s: seq<T>, keep: T -> bool): (r: seq<T>)
    ensures |r| <= |s|
    ensures forall x :: x in r ==> x in s && keep(x)
  {
    if s == [] then []
    else
      var kept := Filter(s[..|s| - 1], keep);
      if keep(s[|s| - 1]) then kept + [s[|s| - 1]] else kept
  }

  /** `idx` lists, in increasing order, exactly the positions of `s` whose
    * element passes `keep`, and `r` holds the elements at those positions. */
  ghost predicate SelectsKept<T>(s: seq<T>, keep: T -> bool, r: seq<T>, idx: seq<nat>)
  {
    && |idx| == |r|
    && (forall k :: 0 <= k < |idx| ==> idx[k] < |s| && r[k] == s[idx[k]])
    && (forall k, l :: 0 <= k < l < |idx| ==> idx[k] < idx[l])
    && (forall i :: 0 <= i < |s| ==> (keep(s[i]) <==> i in idx))
  }

  /** Every element that passes the test is kept. */
  lemma {:induction false} FilterComplete<T>(s: seq<T>, keep: T -> bool, x: T)
    requires x in s && keep(x)
    ensures x in Filter(s, keep)
  {
    var n := |s|;
    if s[n - 1] != x {
      assert s == s[..n - 1] + [s[n - 1]];
      FilterComplete(s[..n - 1], keep, x);
    }
  }

  /** A kept element occurs in the result exactly as often as in `s`, and a
    * rejected one never: no scanned element is kept twice or dropped. */
  lemma {:induction false} FilterCount<T>(s: seq<T>, keep: T -> bool, x: T)
    ensures multiset(Filter(s, keep))[x] == if keep(x) then multiset(s)[x] else 0
  {
    if s != [] {
      var n := |s|;
      FilterCount(s[..n - 1], keep, x);
      assert s == s[..n - 1] + [s[n - 1]];
      assert multiset(s) == multiset(s[..n - 1]) + multiset{s[n - 1]};
    }
  }

  /** A selection of `s` extends to one of `s + [x]`: with position `|s|`
    * appended when `x` is kept, unchanged when it is rejected. */
  lemma SelectsKeptExtend<T>(s: seq<T>, keep: T -> bool, r: seq<T>, idx: seq<nat>, x: T)
    requires SelectsKept(s, keep, r, idx)
    ensures keep(x) ==> SelectsKept(s + [x], keep, r + [x], idx + [|s|])
    ensures !keep(x) ==> SelectsKept(s + [x], keep, r, idx)
  {
    var s', n := s + [x], |s|;
    assert forall i :: 0 <= i < n ==> s'[i] == s[i];
    assert n !in idx;
    if keep(x) {
      var idx' := idx + [n];
      forall i | 0 <= i < n + 1
        ensures keep(s'[i]) <==> i in idx'
      {
      }
    }
  }

  /** The result is the subsequence of `s` made of the kept positions, in
    * their original order. */
  lemma {:induction false} FilterIndices<T>(s: seq<T>, keep: T -> bool) returns (idx: seq<nat>)
    ensures SelectsKept(s, keep, Filter(s, keep), idx)
  {
    if s == [] {
      idx := [];
    } else {
      var n := |s|;
      var init, x := s[..n - 1], s[n - 1];
      var prev := FilterIndices(init, keep);
      SelectsKeptExtend(init, keep, Filter(init, keep), prev, x);
      assert s == init + [x];
      idx := if keep(x) then prev + [n - 1] else prev;
    }
  }

  /** When the last element of `s` is kept, a selection ends with its
    * position. */
  lemma SelectsKeptEndsWithLast<T>(s: seq<T>, keep: T -> bool, r: seq<T>, idx: seq<nat>)
    requires SelectsKept(s, keep, r, idx)
    requires s != [] && keep(s[|s| - 1])
    ensures |idx| > 0 && idx[|idx| - 1] == |s| - 1
  {
    var n, m := |s|, |idx|;
    assert n - 1 in idx;
    var j :| 0 <= j < m && idx[j] == n - 1;
    if j < m - 1 {
      assert false;
    }
  }

  /** When the last element of `s` is kept, dropping it from `s` and from
    * the selection leaves a selection of the prefix. */
  lemma SelectsKeptLastKept<T>(s: seq<T>, keep: T -> bool, r: seq<T>, idx: seq<nat>)
    requires SelectsKept(s, keep, r, idx)
    requires s != [] && keep(s[|s| - 1])
    ensures |r| > 0 && r == r[..|r| - 1] + [s[|s| - 1]]
    ensures SelectsKept(s[..|s| - 1], keep, r[..|r| - 1], idx[..|idx| - 1])
  {
    SelectsKeptEndsWithLast(s, keep, r, idx);
    var n, m := |s|, |idx|;
    var init, r', idx' := s[..n - 1], r[..m - 1], idx[..m - 1];
    assert r == r' + [s[n - 1]];
    forall k | 0 <= k < m - 1
      ensures idx'[k] < n - 1 && r'[k] == init[idx'[k]]
    {
      assert idx[k] < idx[m - 1];
    }
    forall i | 0 <= i < n - 1
      ensures keep(init[i]) <==> i in idx'
    {
      if i in idx {
        var k :| 0 <= k < m && idx[k] == i;
        assert idx'[k] == i;
      }
    }
  }

  /** When the last element of `s` is rejected, a selection of `s` is also
    * one of its prefix. */
  lemma SelectsKeptLastRejected<T>(s: seq<T>, keep: T -> bool, r: seq<T>, idx: seq<nat>)
    requires SelectsKept(s, keep, r, idx)
    requires s != [] && !keep(s[|s| - 1])
    ensures SelectsKept(s[..|s| - 1], keep, r, idx)
  {
    var n := |s|;
    forall k | 0 <= k < |idx|
      ensures idx[k] < n - 1 && r[k] == s[..n - 1][idx[k]]
    {
      assert idx[k] != n - 1;
    }
  }

  /** The selection of kept positions determines the result: any `r` that
    * picks exactly the kept positions, in increasing order, is the filter. */
  lemma {:induction false} FilterUnique<T>(s: seq<T>, keep: T -> bool, r: seq<T>, idx: seq<nat>)
    requires SelectsKept(s, keep, r, idx)
    ensures r == Filter(s, keep)
    decreases s
  {
    assert idx != [] ==> idx[0] < |s|;
    if idx == [] {
      FilterEmpty(s, keep);
    } else if keep(s[|s| - 1]) {
      SelectsKeptLastKept(s, keep, r, idx);
      FilterUnique(s[..|s| - 1], keep, r[..|r| - 1], idx[..|idx| - 1]);
    } else {
      SelectsKeptLastRejected(s, keep, r, idx);
      FilterUnique(s[..|s| - 1], keep, r, idx);
    }
  }

  /** The result is empty exactly when nothing in `s` passes the test. */
  lemma {:induction false} FilterEmpty<T>(s: seq<T>, keep: T -> bool)
    ensures Filter(s, keep) == [] <==> forall i :: 0 <= i < |s| ==> !keep(s[i])
  {
    if s != [] {
      var n := |s|;
      FilterEmpty(s[..n - 1], keep);
      if Filter(s, keep) == [] {
        forall i | 0 <= i < n
          ensures !keep(s[i])
        {
          if i < n - 1 {
            assert s[..n - 1][i] == s[i];
          }
        }
      } else {
        var x := Filter(s, keep)[0];
        assert x in s && keep(x);
      }
    }
  }

  /** Filtering a concatenation filters each part: scanning more elements
    * only adds their kept ones at the end. */
  lemma {:induction false} FilterAppend<T>(s: seq<T>, t: seq<T>, keep: T -> bool)
    ensures Filter(s + t, keep) == Filter(s, keep) + Filter(t, keep)
  {
    if t != [] {
      var n := |t|;
      FilterAppend(s, t[..n - 1], keep);
      assert (s + t)[..|s + t| - 1] == s + t[..n - 1];
      assert (s + t)[|s + t| - 1] == t[n - 1];
    } else {
      assert s + t == s;
    }
  }

  /** The result depends on the test only through its verdict on the
    * elements of `s`. */
  lemma {:induction false} FilterCongruent<T>(s: seq<T>, keep1: T -> bool, keep2: T -> bool)
    requires forall x :: x in s ==> keep1(x) == keep2(x)
    ensures Filter(s, keep1) == Filter(s, keep2)
  {
    if s != [] {
      var n := |s|;
      assert forall x :: x in s[..n - 1] ==> x in s;
      FilterCongruent(s[..n - 1], keep1, keep2);
      assert s[n - 1] in s;
    }
  }
}
