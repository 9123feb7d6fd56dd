/** `Array.prototype.filter` on sequences, and the facts about it that
    the order views rely on: what it keeps, that it keeps the input order,
    and how two filters combine. */
module Seqs {

  /** Keeps, in their original order, the elements satisfying `keep`. */
  function Filter<T>(s: seq<T>, keep: T -> bool): (r: seq<T>)
    ensures |r| <= |s|
    ensures forall i :: 0 <= i < |r| ==> keep(r[i]) && r[i] in s
    ensures forall i :: 0 <= i < |s| && keep(s[i]) ==> s[i] in r
    ensures multiset(r) <= multiset(s)
  {
    if |s| == 0 then []
    else
      assert s == [s[0]] + s[1..];
      (if keep(s[0]) then [s[0]] else []) + Filter(s[1..], keep)
  }

  /** Every occurrence of an accepted value survives the filter, and no
      occurrence of a rejected one does. */
  lemma {:induction false} FilterCounts<T>(s: seq<T>, keep: T -> bool)
    ensures forall x :: multiset(Filter(s, keep))[x] == if keep(x) then multiset(s)[x] else 0
    decreases |s|
  {
    if |s| > 0 {
      var head := if keep(s[0]) then [s[0]] else [];
      var rest := Filter(s[1..], keep);
      FilterCounts(s[1..], keep);
      FilterUnfold(s, keep);
      HeadAndTailCounts(s);
      assert multiset(head + rest) == multiset(head) + multiset(rest);
    }
  }

  lemma HeadAndTailCounts<T>(s: seq<T>)
    requires |s| > 0
    ensures multiset(s) == multiset([s[0]]) + multiset(s[1..])
  {
    assert s == [s[0]] + s[1..];
  }

  /** `idx` picks out `a` inside `b` at strictly increasing positions. */
  ghost predicate IsEmbedding<T>(idx: seq<nat>, a: seq<T>, b: seq<T>) {
    && |idx| == |a|
    && (forall k :: 0 <= k < |idx| ==> idx[k] < |b| && b[idx[k]] == a[k])
    && (forall k, l :: 0 <= k < l < |idx| ==> idx[k] < idx[l])
  }

  /** `a` is an order-preserving subsequence of `b`. */
  ghost predicate IsSubsequence<T>(a: seq<T>, b: seq<T>) {
    exists idx :: IsEmbedding(idx, a, b)
  }

  function Shift(idx: seq<nat>): (r: seq<nat>)
    ensures |r| == |idx|
    ensures forall k :: 0 <= k < |idx| ==> r[k] == idx[k] + 1
  {
    seq(|idx|, k requires 0 <= k < |idx| => idx[k] + 1)
  }

  /** An embedding into the tail of `s`, shifted by one, is an embedding
      into `s`. */
  lemma ShiftEmbedding<T>(idx: seq<nat>, a: seq<T>, s: seq<T>)
    requires |s| > 0 && IsEmbedding(idx, a, s[1..])
    ensures IsEmbedding(Shift(idx), a, s)
  {
    var shifted := Shift(idx);
    forall k | 0 <= k < |shifted| ensures shifted[k] < |s| && s[shifted[k]] == a[k] {
      assert s[shifted[k]] == s[1..][idx[k]];
    }
  }

  /** The head of `s` can be put in front of such a shifted embedding. */
  lemma ConsEmbedding<T>(idx: seq<nat>, a: seq<T>, s: seq<T>)
    requires |s| > 0 && IsEmbedding(idx, a, s[1..])
    ensures IsEmbedding([0] + Shift(idx), [s[0]] + a, s)
  {
    ShiftEmbedding(idx, a, s);
    var shifted, b := Shift(idx), [s[0]] + a;
    var r := [0] + shifted;
    forall k | 0 <= k < |r| ensures r[k] < |s| && s[r[k]] == b[k] {
      if k > 0 {
        assert r[k] == shifted[k - 1] && b[k] == a[k - 1];
      }
    }
    forall k, l | 0 <= k < l < |r| ensures r[k] < r[l] {
      assert r[l] == shifted[l - 1];
      if k > 0 {
        assert r[k] == shifted[k - 1];
      }
    }
  }

  /** The filtered sequence is embedded in its input: it keeps the input's
      relative order. */
  lemma {:induction false} FilterEmbedding<T>(s: seq<T>, keep: T -> bool) returns (idx: seq<nat>)
    ensures IsEmbedding(idx, Filter(s, keep), s)
    decreases |s|
  {
    if |s| == 0 {
      idx := [];
    } else {
      var tail := FilterEmbedding(s[1..], keep);
      var ft := Filter(s[1..], keep);
      if keep(s[0]) {
        ConsEmbedding(tail, ft, s);
        idx := [0] + Shift(tail);
      } else {
        ShiftEmbedding(tail, ft, s);
        idx := Shift(tail);
      }
    }
  }

  lemma FilterIsSubsequence<T>(s: seq<T>, keep: T -> bool)
    ensures IsSubsequence(Filter(s, keep), s)
  {
    var idx := FilterEmbedding(s, keep);
  }

  /** Filtering by `p` and then by `q` is filtering once by their
      conjunction `pq`. */
  lemma {:induction false} FilterFuse<T>(s: seq<T>, p: T -> bool, q: T -> bool, pq: T -> bool)
    requires forall x :: pq(x) == (p(x) && q(x))
    ensures Filter(Filter(s, p), q) == Filter(s, pq)
    decreases |s|
  {
    if |s| > 0 {
      FilterFuse(s[1..], p, q, pq);
      var fp := Filter(s, p);
      if p(s[0]) {
        assert fp == [s[0]] + Filter(s[1..], p);
        assert fp[1..] == Filter(s[1..], p);
        assert Filter(fp, q) == (if q(s[0]) then [s[0]] else []) + Filter(fp[1..], q);
      } else {
        assert fp == Filter(s[1..], p);
      }
    }
  }

  /** The order of two filters does not matter. */
  lemma FilterCommute<T>(s: seq<T>, p: T -> bool, q: T -> bool)
    ensures Filter(Filter(s, p), q) == Filter(Filter(s, q), p)
  {
    var pq := x => p(x) && q(x);
    FilterFuse(s, p, q, pq);
    FilterFuse(s, q, p, pq);
  }

  /** A filter that rejects nothing in `s` returns `s` itself. */
  lemma {:induction false} FilterKeepsAll<T>(s: seq<T>, keep: T -> bool)
    requires forall i :: 0 <= i < |s| ==> keep(s[i])
    ensures Filter(s, keep) == s
    decreases |s|
  {
    if |s| > 0 {
      AllKeptInTail(s, keep);
      FilterKeepsAll(s[1..], keep);
      KeptHeadAndTail(s, keep);
    }
  }

  lemma KeptHeadAndTail<T>(s: seq<T>, keep: T -> bool)
    requires |s| > 0 && keep(s[0]) && Filter(s[1..], keep) == s[1..]
    ensures Filter(s, keep) == s
  {
    FilterUnfold(s, keep);
    assert s == [s[0]] + s[1..];
  }

  /** One step of the filter: the verdict on the head, then the rest. */
  lemma FilterUnfold<T>(s: seq<T>, keep: T -> bool)
    requires |s| > 0
    ensures Filter(s, keep) == (if keep(s[0]) then [s[0]] else []) + Filter(s[1..], keep)
  {
  }

  /** Filtering a sequence with a known head. */
  lemma FilterCons<T>(x: T, s: seq<T>, keep: T -> bool)
    ensures Filter([x] + s, keep) == (if keep(x) then [x] else []) + Filter(s, keep)
  {
    FilterUnfold([x] + s, keep);
    assert ([x] + s)[1..] == s;
  }

  lemma AllKeptInTail<T>(s: seq<T>, keep: T -> bool)
    requires |s| > 0 && forall i :: 0 <= i < |s| ==> keep(s[i])
    ensures keep(s[0]) && forall i :: 0 <= i < |s| - 1 ==> keep(s[1..][i])
  {
    forall i | 0 <= i < |s| - 1 ensures keep(s[1..][i]) {
      assert s[1..][i] == s[i + 1];
    }
  }

  /** Filtering twice by the same predicate is filtering once. */
  lemma FilterIdempotent<T>(s: seq<T>, keep: T -> bool)
    ensures Filter(Filter(s, keep), keep) == Filter(s, keep)
  {
    FilterKeepsAll(Filter(s, keep), keep);
  }

  /** Filtering distributes over concatenation. */
  lemma {:induction false} FilterConcat<T>(a: seq<T>, b: seq<T>, keep: T -> bool)
    ensures Filter(a + b, keep) == Filter(a, keep) + Filter(b, keep)
    decreases |a|
  {
    if |a| > 0 {
      FilterConcat(a[1..], b, keep);
      assert (a + b)[1..] == a[1..] + b;
      FilterUnfold(a + b, keep);
      FilterUnfold(a, keep);
    } else {
      assert a + b == b;
    }
  }

  lemma FilterSingle<T>(x: T, keep: T -> bool)
    ensures Filter([x], keep) == if keep(x) then [x] else []
  {
    assert [x][1..] == [];
  }
}
