/** The array operations the application relies on: `filter`, `slice(-n)` and `slice(0, n)`. */
module Seqs {

  /** `r` is `s` with some elements dropped, the rest kept in their order. */
  ghost predicate IsSubsequence<T>(r: seq<T>, s: seq<T>)
    decreases |s|
  {
    r == [] || (s != [] && ((r[0] == s[0] && IsSubsequence(r[1..], s[1..])) || IsSubsequence(r, s[1..])))
  }

  /** `filter`: the elements that pass the test, in their order. */
  function Filter<T(!new)>(s: seq<T>, p: T -> bool): (r: seq<T>)
    ensures forall x :: x in r <==> x in s && p(x)
    ensures IsSubsequence(r, s)
  {
    if s == [] then []
    else if p(s[0]) then [s[0]] + Filter(s[1..], p)
    else Filter(s[1..], p)
  }

  /** `filter` keeps each element that passes the test as often as it occurs, and no other. */
  lemma {:induction false} FilterCounts<T(!new)>(s: seq<T>, p: T -> bool)
    ensures forall x :: multiset(Filter(s, p))[x] == if p(x) then multiset(s)[x] else 0
    decreases |s|
  {
    if s != [] {
      FilterCounts(s[1..], p);
      assert s == [s[0]] + s[1..];
    }
  }

  /** The last element `filter` keeps is the last element of `s` that satisfies `p`. */
  lemma {:induction false} FilterLast<T(!new)>(s: seq<T>, p: T -> bool)
    requires Filter(s, p) != []
    ensures exists i :: 0 <= i < |s| && s[i] == Filter(s, p)[|Filter(s, p)| - 1]
                        && p(s[i]) && forall j :: i < j < |s| ==> !p(s[j])
  {
    var tail := Filter(s[1..], p);
    if tail != [] {
      FilterLast(s[1..], p);
      var i :| 0 <= i < |s[1..]| && s[1..][i] == tail[|tail| - 1]
               && p(s[1..][i]) && forall j :: i < j < |s[1..]| ==> !p(s[1..][j]);
      assert Filter(s, p)[|Filter(s, p)| - 1] == tail[|tail| - 1];
      assert forall j :: i + 1 < j < |s| ==> s[j] == s[1..][j - 1];
      assert s[i + 1] == s[1..][i];
    } else {
      assert forall j :: 0 < j < |s| ==> s[j] in s[1..];
    }
  }

  /** `slice(-n)` for a positive `n`: the last `n` elements, or all of `s` when it is shorter. */
  function LastN<T>(s: seq<T>, n: nat): (r: seq<T>)
    requires n > 0
    ensures |r| == if |s| < n then |s| else n
    ensures r == s[|s| - |r|..]
  {
    if |s| < n then s else s[|s| - n..]
  }

  /** `s.slice(0, n)`: the first `n` elements, or all of `s` when it is shorter. */
  function Take<T>(s: seq<T>, n: nat): (r: seq<T>)
    ensures |r| == if |s| < n then |s| else n
    ensures r == s[..|r|]
  {
    if |s| < n then s else s[..n]
  }

  /** Every element of a subsequence is an element of the sequence. */
  lemma {:induction false} SubsequenceMembers<T>(r: seq<T>, s: seq<T>)
    requires IsSubsequence(r, s)
    ensures forall x :: x in r ==> x in s
    decreases |s|
  {
    if r != [] {
      if r[0] == s[0] && IsSubsequence(r[1..], s[1..]) {
        SubsequenceMembers(r[1..], s[1..]);
        assert forall x :: x in r ==> x == r[0] || x in r[1..];
      } else {
        SubsequenceMembers(r, s[1..]);
      }
    }
  }

  /** A prefix of a subsequence is a subsequence. */
  lemma {:induction false} PrefixSubsequence<T>(r: seq<T>, s: seq<T>, n: nat)
    requires IsSubsequence(r, s) && n <= |r|
    ensures IsSubsequence(r[..n], s)
    decreases |s|
  {
    if n > 0 {
      if r[0] == s[0] && IsSubsequence(r[1..], s[1..]) {
        PrefixSubsequence(r[1..], s[1..], n - 1);
        assert r[..n][1..] == r[1..][..n - 1];
      } else {
        PrefixSubsequence(r, s[1..], n);
      }
    }
  }

  /** `filter` distributes over concatenation. */
  lemma {:induction false} FilterAppend<T(!new)>(a: seq<T>, b: seq<T>, p: T -> bool)
    ensures Filter(a + b, p) == Filter(a, p) + Filter(b, p)
    decreases |a|
  {
    if a != [] {
      assert (a + b)[1..] == a[1..] + b;
      FilterAppend(a[1..], b, p);
    } else {
      assert a + b == b;
    }
  }

  /** Taking the last `b` of the last `a` elements takes the last `b`, for `b <= a`. */
  lemma LastNOfLastN<T>(s: seq<T>, a: nat, b: nat)
    requires 0 < b <= a
    ensures LastN(LastN(s, a), b) == LastN(s, b)
  {
  }

  /** The last `n + 1` elements of `s + [x]` are the last `n` of `s` followed by `x`. */
  lemma LastNAppend<T>(s: seq<T>, x: T, n: nat)
    requires n > 0
    ensures LastN(s + [x], n + 1) == LastN(s, n) + [x]
  {
    if |s| < n {
      assert LastN(s + [x], n + 1) == s + [x];
    } else {
      assert (s + [x])[|s| - n..] == s[|s| - n..] + [x];
    }
  }
}
