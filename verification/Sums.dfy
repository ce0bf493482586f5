/** Finite sums over integer sequences, used for every conservation law of the project: weights, counts and
    hashes are sums of columns. */
module Sums {

  function Sum(s: seq<int>): int {
    if s == [] then 0 else s[0] + Sum(s[1..])
  }

  lemma {:induction false} SumUpdate(s: seq<int>, i: nat, x: int)
    requires i < |s|
    ensures Sum(s[i := x]) == Sum(s) - s[i] + x
  {
    if i == 0 {
      assert s[i := x][1..] == s[1..];
    } else {
      assert s[i := x][1..] == s[1..][i - 1 := x];
      SumUpdate(s[1..], i - 1, x);
    }
  }

  /** Pointwise domination carries over to sums. */
  lemma {:induction false} SumMonotone(a: seq<int>, b: seq<int>)
    requires |a| == |b|
    requires forall i :: 0 <= i < |a| ==> a[i] <= b[i]
    ensures Sum(a) <= Sum(b)
  {
    if a != [] {
      assert a[0] <= b[0];
      assert forall i :: 0 <= i < |a[1..]| ==> a[1..][i] == a[i + 1] && b[1..][i] == b[i + 1];
      SumMonotone(a[1..], b[1..]);
    }
  }

  lemma {:induction false} SumZero(s: seq<int>)
    requires forall i :: 0 <= i < |s| ==> s[i] == 0
    ensures Sum(s) == 0
  {
    if s != [] {
      assert s[0] == 0;
      SumZero(s[1..]);
    }
  }

  lemma {:induction false} SumDifference(a: seq<int>, b: seq<int>, c: seq<int>)
    requires |a| == |b| == |c|
    requires forall i :: 0 <= i < |a| ==> c[i] == a[i] - b[i]
    ensures Sum(c) == Sum(a) - Sum(b)
  {
    if a != [] {
      assert c[0] == a[0] - b[0];
      assert forall i :: 0 <= i < |a[1..]| ==> c[1..][i] == c[i + 1] && a[1..][i] == a[i + 1] && b[1..][i] == b[i + 1];
      SumDifference(a[1..], b[1..], c[1..]);
    }
  }

  /** A sum of non-negative numbers is at least each of them. */
  lemma {:induction false} SumAtLeast(s: seq<int>, i: nat)
    requires i < |s| && forall j :: 0 <= j < |s| ==> s[j] >= 0
    ensures Sum(s) >= s[i]
  {
    assert s[0] >= 0;
    assert forall j :: 0 <= j < |s[1..]| ==> s[1..][j] == s[j + 1];
    if i == 0 {
      SumMonotone(seq(|s| - 1, j => 0), s[1..]);
      SumZero(seq(|s| - 1, j => 0));
    } else {
      SumAtLeast(s[1..], i - 1);
    }
  }

  /** A positive sum has a positive term. */
  lemma {:induction false} SumPositive(s: seq<int>) returns (i: nat)
    requires Sum(s) > 0
    ensures i < |s| && s[i] > 0
  {
    if s[0] > 0 {
      i := 0;
    } else {
      i := SumPositive(s[1..]);
      i := i + 1;
    }
  }

  lemma {:induction false} SumAppend(a: seq<int>, b: seq<int>)
    ensures Sum(a + b) == Sum(a) + Sum(b)
  {
    if a == [] {
      assert a + b == b;
    } else {
      assert (a + b)[1..] == a[1..] + b;
      SumAppend(a[1..], b);
    }
  }
}
