/** Sums of a weight over the elements of a sequence.  The concurrent models use
    them to count threads in a phase, to add up per-thread results and to build
    termination measures. */
module Totals {

  function Total<T>(s: seq<T>, w: T -> int): int
  {
    if s == [] then 0 else w(s[0]) + Total(s[1..], w)
  }

  /** Changing one element changes the total by the difference of its weights. */
  lemma {:induction false} TotalUpdate<T>(s: seq<T>, w: T -> int, i: nat, x: T)
    requires i < |s|
    ensures Total(s[i := x], w) == Total(s, w) - w(s[i]) + w(x)
  {
    if i == 0 {
      assert s[i := x][1..] == s[1..];
    } else {
      assert s[i := x][1..] == s[1..][i - 1 := x];
      TotalUpdate(s[1..], w, i - 1, x);
    }
  }

  /** With weights that are never negative, no element outweighs the total. */
  lemma {:induction false} TotalAtLeast<T>(s: seq<T>, w: T -> int)
    requires forall k :: 0 <= k < |s| ==> 0 <= w(s[k])
    ensures 0 <= Total(s, w)
    ensures forall k :: 0 <= k < |s| ==> w(s[k]) <= Total(s, w)
  {
    if s != [] {
      TotalAtLeast(s[1..], w);
      forall k | 0 <= k < |s|
        ensures w(s[k]) <= Total(s, w)
      {
        assert k > 0 ==> s[k] == s[1..][k - 1];
      }
    }
  }

  /** With weights of at most one, the total is at most the length, and below it
      as soon as one element weighs nothing. */
  lemma {:induction false} TotalAtMost<T>(s: seq<T>, w: T -> int)
    requires forall k :: 0 <= k < |s| ==> w(s[k]) <= 1
    ensures Total(s, w) <= |s|
    ensures forall k :: 0 <= k < |s| && w(s[k]) <= 0 ==> Total(s, w) < |s|
  {
    if s != [] {
      TotalAtMost(s[1..], w);
      forall k | 0 <= k < |s| && w(s[k]) <= 0
        ensures Total(s, w) < |s|
      {
        assert k > 0 ==> s[k] == s[1..][k - 1];
      }
    }
  }

  /** Two weightings that agree element by element have the same total. */
  lemma {:induction false} TotalSame<T, U>(s: seq<T>, w: T -> int, r: seq<U>, v: U -> int)
    requires |s| == |r|
    requires forall k :: 0 <= k < |s| ==> w(s[k]) == v(r[k])
    ensures Total(s, w) == Total(r, v)
  {
    if s != [] {
      forall k | 0 <= k < |s[1..]|
        ensures w(s[1..][k]) == v(r[1..][k])
      {
        assert s[1..][k] == s[k + 1] && r[1..][k] == r[k + 1];
      }
      TotalSame(s[1..], w, r[1..], v);
    }
  }

  lemma {:induction false} TotalAppend<T>(s: seq<T>, w: T -> int, x: T)
    ensures Total(s + [x], w) == Total(s, w) + w(x)
  {
    if s == [] {
      assert s + [x] == [x];
    } else {
      assert (s + [x])[1..] == s[1..] + [x];
      TotalAppend(s[1..], w, x);
    }
  }

  /** Equal weights add up to a product. */
  lemma {:induction false} TotalConstant<T>(s: seq<T>, w: T -> int, k: int)
    requires forall i :: 0 <= i < |s| ==> w(s[i]) == k
    ensures Total(s, w) == |s| * k
  {
    if s != [] {
      TotalConstant(s[1..], w, k);
      assert |s| * k == |s[1..]| * k + k;
    }
  }
}
