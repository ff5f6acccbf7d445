/** The array operations the data layer uses: `findIndex` and `filter`. */
module Seqs {

  /** `a` is `b` with some elements left out and the rest in their order. */
  predicate IsSubsequence<T(==)>(a: seq<T>, b: seq<T>)
    decreases |b|
  {
    |a| == 0 || (|b| > 0 && ((a[0] == b[0] && IsSubsequence(a[1..], b[1..])) || IsSubsequence(a, b[1..])))
  }

  lemma {:induction false} SubsequenceReflexive<T>(s: seq<T>)
    ensures IsSubsequence(s, s)
  {
    if |s| > 0 {
      SubsequenceReflexive(s[1..]);
    }
  }

  /** `findIndex`: the first index whose element satisfies `p`, or -1. */
  function FindIndex<T>(s: seq<T>, p: T -> bool): (r: int)
    ensures -1 <= r < |s|
    ensures r == -1 <==> forall j :: 0 <= j < |s| ==> !p(s[j])
    ensures r >= 0 ==> p(s[r]) && forall j :: 0 <= j < r ==> !p(s[j])
  {
    if |s| == 0 then -1
    else if p(s[0]) then 0
    else
      var i := FindIndex(s[1..], p);
      if i == -1 then -1 else i + 1
  }

  /** `filter`: the elements satisfying `keep`, in their original order. */
  function Filter<T(==,!new)>(s: seq<T>, keep: T -> bool): (r: seq<T>)
    ensures |r| <= |s|
    ensures forall k :: 0 <= k < |r| ==> keep(r[k])
  {
    if |s| == 0 then []
    else if keep(s[0]) then [s[0]] + Filter(s[1..], keep)
    else Filter(s[1..], keep)
  }

  /** The filter keeps the surviving elements in their original order. */
  lemma {:induction false} FilterIsSubsequence<T(!new)>(s: seq<T>, keep: T -> bool)
    ensures IsSubsequence(Filter(s, keep), s)
  {
    if |s| > 0 {
      FilterIsSubsequence(s[1..], keep);
      if keep(s[0]) {
        assert ([s[0]] + Filter(s[1..], keep))[1..] == Filter(s[1..], keep);
      }
    }
  }

  /** An element survives the filter exactly when it occurs and passes the test. */
  lemma {:induction false} FilterMembership<T(!new)>(s: seq<T>, keep: T -> bool)
    ensures forall x :: x in Filter(s, keep) <==> x in s && keep(x)
  {
    if |s| > 0 {
      FilterMembership(s[1..], keep);
      assert s == [s[0]] + s[1..];
    }
  }

  /** Each element occurs in the filter's result as often as in the input if it passes, and never otherwise. */
  lemma {:induction false} FilterCounts<T(!new)>(s: seq<T>, keep: T -> bool)
    ensures forall x :: multiset(Filter(s, keep))[x] == if keep(x) then multiset(s)[x] else 0
  {
    if |s| > 0 {
      FilterCounts(s[1..], keep);
      assert s == [s[0]] + s[1..];
      assert multiset(s) == multiset{s[0]} + multiset(s[1..]);
    }
  }

  /** Filtering a filtered sequence again with the same test changes nothing. */
  lemma {:induction false} FilterIdempotent<T(!new)>(s: seq<T>, keep: T -> bool)
    ensures Filter(Filter(s, keep), keep) == Filter(s, keep)
  {
    if |s| > 0 {
      FilterIdempotent(s[1..], keep);
      if keep(s[0]) {
        var t := Filter(s[1..], keep);
        assert ([s[0]] + t)[1..] == t;
      }
    }
  }

  /** A filter that keeps every element returns the sequence itself. */
  lemma {:induction false} FilterKeepsAll<T(!new)>(s: seq<T>, keep: T -> bool)
    requires forall j :: 0 <= j < |s| ==> keep(s[j])
    ensures Filter(s, keep) == s
  {
    if |s| > 0 {
      FilterKeepsAll(s[1..], keep);
      assert [s[0]] + s[1..] == s;
    }
  }

  /** Filtering distributes over concatenation. */
  lemma {:induction false} FilterConcat<T(!new)>(a: seq<T>, b: seq<T>, keep: T -> bool)
    ensures Filter(a + b, keep) == Filter(a, keep) + Filter(b, keep)
  {
    if |a| == 0 {
      assert a + b == b;
    } else {
      assert (a + b)[0] == a[0];
      assert (a + b)[1..] == a[1..] + b;
      FilterConcat(a[1..], b, keep);
    }
  }

  lemma FilterSingle<T(!new)>(x: T, keep: T -> bool)
    ensures Filter([x], keep) == if keep(x) then [x] else []
  {
    assert [x][1..] == [];
  }

  /** A rejected head is dropped and the filter carries on with the tail. */
  lemma FilterSkipsHead<T(!new)>(x: T, t: seq<T>, keep: T -> bool)
    requires !keep(x)
    ensures Filter([x] + t, keep) == Filter(t, keep)
  {
    assert ([x] + t)[1..] == t;
  }

  /** Every element from `lo` on in `s` passes, so its suffix from `lo` is kept whole. */
  lemma KeepsSuffix<T(!new)>(s: seq<T>, lo: int, keep: T -> bool)
    requires 0 <= lo <= |s|
    requires forall j :: lo <= j < |s| ==> keep(s[j])
    ensures Filter(s[lo..], keep) == s[lo..]
  {
    var t := s[lo..];
    forall j | 0 <= j < |t|
      ensures keep(t[j])
    {
      assert t[j] == s[lo + j];
    }
    FilterKeepsAll(t, keep);
  }

  /** A filter that rejects exactly the element at `i` splices that element out. */
  lemma {:induction false} FilterDropsOne<T(!new)>(s: seq<T>, i: int, keep: T -> bool)
    requires 0 <= i < |s| && !keep(s[i])
    requires forall j :: 0 <= j < |s| && j != i ==> keep(s[j])
    ensures Filter(s, keep) == s[..i] + s[i + 1..]
  {
    var pre, post := s[..i], s[i + 1..];
    var rest := [s[i]] + post;
    assert Filter(pre, keep) == pre by {
      KeepsSuffix(pre, 0, keep);
      assert pre[0..] == pre;
    }
    assert Filter(rest, keep) == post by {
      KeepsSuffix(s, i + 1, keep);
      FilterSkipsHead(s[i], post, keep);
    }
    assert Filter(s, keep) == Filter(pre, keep) + Filter(rest, keep) by {
      assert s == pre + rest;
      FilterConcat(pre, rest, keep);
    }
  }
}
