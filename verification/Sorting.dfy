/** Sorting by an arbitrary order.

    Both detections of parallel edges use it, and so do the children of the contraction tree and the removed pins. */
module Sorting {

  /** Of any two elements at most one precedes the other, and not preceding is transitive. */
  ghost predicate IsOrder<T(!new)>(less: (T, T) -> bool) {
    && (forall a, b {:trigger less(a, b)} :: less(a, b) ==> !less(b, a))
    && (forall a, b, c {:trigger less(b, a), less(c, b)} :: !less(b, a) && !less(c, b) ==> !less(c, a))
  }

  ghost predicate Sorted<T(!new)>(s: seq<T>, less: (T, T) -> bool) {
    forall i, j :: 0 <= i < j < |s| ==> !less(s[j], s[i])
  }

  method Insert<T(!new)>(s: seq<T>, x: T, less: (T, T) -> bool) returns (r: seq<T>)
    requires IsOrder(less) && Sorted(s, less)
    ensures Sorted(r, less) && multiset(r) == multiset(s) + multiset{x}
  {
    var pos := 0;
    while pos < |s| && less(s[pos], x)
      invariant pos <= |s|
      invariant forall j :: 0 <= j < pos ==> less(s[j], x)
    {
      pos := pos + 1;
    }
    forall j | 0 <= j < |s| ensures j < pos ==> !less(x, s[j]) ensures pos <= j ==> !less(s[j], x) {
      assert pos < j ==> !less(s[j], s[pos]);
    }
    InsertedSorted(s, x, pos, less);
    r := s[..pos] + [x] + s[pos..];
  }

  lemma InsertedSorted<T(!new)>(s: seq<T>, x: T, pos: nat, less: (T, T) -> bool)
    requires Sorted(s, less) && pos <= |s|
    requires forall j :: 0 <= j < pos ==> !less(x, s[j])
    requires forall j :: pos <= j < |s| ==> !less(s[j], x)
    ensures Sorted(s[..pos] + [x] + s[pos..], less)
    ensures multiset(s[..pos] + [x] + s[pos..]) == multiset(s) + multiset{x}
  {
    var r := s[..pos] + [x] + s[pos..];
    forall i, j | 0 <= i < j < |r| ensures !less(r[j], r[i]) {
      var a, b := if i < pos then i else i - 1, if j < pos then j else j - 1;
      assert i != pos ==> r[i] == s[a];
      assert j != pos ==> r[j] == s[b];
    }
    assert s == s[..pos] + s[pos..];
  }

  method Sort<T(!new)>(s: seq<T>, less: (T, T) -> bool) returns (r: seq<T>)
    requires IsOrder(less)
    ensures Sorted(r, less) && multiset(r) == multiset(s)
  {
    r := [];
    for i := 0 to |s|
      invariant Sorted(r, less) && multiset(r) == multiset(s[..i])
    {
      assert s[..i + 1] == s[..i] + [s[i]];
      r := Insert(r, s[i], less);
    }
    assert s[..|s|] == s;
  }

  /** A rearranged set has no repetitions. */
  lemma Rearranged<T>(r: seq<T>, s: set<T>)
    requires multiset(r) == multiset(s)
    ensures forall e :: e in r <==> e in s
    ensures forall i, j :: 0 <= i < j < |r| ==> r[i] != r[j]
  {
    forall e ensures e in r <==> e in s {
      assert e in r <==> e in multiset(r);
    }
    forall i, j | 0 <= i < j < |r| ensures r[i] != r[j] {
      assert r == r[..i] + [r[i]] + r[i + 1..j] + [r[j]] + r[j + 1..];
      assert multiset(r)[r[i]] == multiset(s)[r[i]] <= 1;
    }
  }
}
