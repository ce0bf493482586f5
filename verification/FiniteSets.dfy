/** Sizes of finite sets of node ids.

    Counting arguments of all parts use them: degrees count edges, and batches count contractions. */
module FiniteSets {
  import opened Sums

  function UpTo(n: nat): (s: set<nat>)
    ensures |s| == n && forall x: nat :: x in s <==> x < n
  {
    if n == 0 then {} else UpTo(n - 1) + {n - 1}
  }

  /** A range of numbers has as many elements as its length. */
  lemma {:induction false} RangeSize(s: set<nat>, lo: nat, hi: nat)
    requires lo <= hi && forall x: nat :: x in s <==> lo <= x < hi
    ensures |s| == hi - lo
    decreases hi
  {
    if lo == hi {
      assert s == {};
    } else {
      RangeSize(s - {hi - 1}, lo, hi - 1);
    }
  }

  lemma {:induction false} SubsetSize<T>(a: set<T>, b: set<T>)
    requires a <= b
    ensures |a| <= |b|
  {
    if a != {} {
      var x :| x in a;
      SubsetSize(a - {x}, b - {x});
    }
  }

  /** Sets that f and its inverse map into each other have the same size. */
  lemma {:induction false} ImageSize(a: set<nat>, b: set<nat>, f: seq<nat>, back: seq<nat>)
    requires forall x :: x in a ==> x < |f| && f[x] in b && f[x] < |back| && back[f[x]] == x
    requires forall y :: y in b ==> y < |back| && back[y] in a && back[y] < |f| && f[back[y]] == y
    ensures |a| == |b|
  {
    if a == {} {
      if y :| y in b {
        assert false;
      }
    } else {
      var x :| x in a;
      ImageSize(a - {x}, b - {f[x]}, f, back);
    }
  }

  /** The union of the first k sets. */
  ghost function UnionOf<T(!new)>(sets: seq<set<T>>, k: nat): set<T>
    requires k <= |sets|
  {
    if k == 0 then {} else UnionOf(sets, k - 1) + sets[k - 1]
  }

  /** Pairwise disjoint parts of a set are together no larger than it. */
  lemma {:induction false} DisjointParts<T(!new)>(sets: seq<set<T>>, sizes: seq<int>, k: nat, all: set<T>)
    requires k <= |sets| == |sizes| && forall i :: 0 <= i < |sets| ==> sets[i] <= all && sizes[i] == |sets[i]|
    requires forall i, j :: 0 <= i < j < |sets| ==> sets[i] !! sets[j]
    ensures UnionOf(sets, k) <= all && |UnionOf(sets, k)| == Sum(sizes[..k])
    ensures forall i :: k <= i < |sets| ==> UnionOf(sets, k) !! sets[i]
  {
    if k > 0 {
      DisjointParts(sets, sizes, k - 1, all);
      assert sizes[..k] == sizes[..k - 1] + [sizes[k - 1]];
      SumAppend(sizes[..k - 1], [sizes[k - 1]]);
      assert Sum([sizes[k - 1]]) == sizes[k - 1];
      var a, b := UnionOf(sets, k - 1), sets[k - 1];
      assert |a + b| == |a| + |b|;
    }
  }
}
