/** Circular doubly linked lists stored as two pointer columns.

    Both incidence structures chain the lists of contracted nodes this way. */
module Rings {

  ghost predicate Distinct(c: seq<nat>) {
    forall i, j :: 0 <= i < j < |c| ==> c[i] != c[j]
  }

  /** The nodes of c form one circle, in the order of c. */
  ghost predicate Ring(next: seq<nat>, prev: seq<nat>, c: seq<nat>) {
    && |next| == |prev| && c != [] && Distinct(c)
    && (forall i :: 0 <= i < |c| ==> c[i] < |next|)
    && (forall i, j :: 0 <= i && j == i + 1 && j < |c| ==> next[c[i]] == c[j] && prev[c[j]] == c[i])
    && next[c[|c| - 1]] == c[0] && prev[c[0]] == c[|c| - 1]
  }

  ghost predicate Disjoint(c: seq<nat>, d: seq<nat>) {
    forall i, j :: 0 <= i < |c| && 0 <= j < |d| ==> c[i] != d[j]
  }

  /** A circle is not affected by changes at other nodes. */
  lemma RingFrame(next: seq<nat>, prev: seq<nat>, next': seq<nat>, prev': seq<nat>, c: seq<nat>)
    requires Ring(next, prev, c) && |next'| == |prev'| == |next|
    requires forall i :: 0 <= i < |c| ==> next'[c[i]] == next[c[i]] && prev'[c[i]] == prev[c[i]]
    ensures Ring(next', prev', c)
  {
  }

  /** The next pointer leads through the circle and back to its first node. */
  lemma NextInRing(next: seq<nat>, prev: seq<nat>, c: seq<nat>, i: nat)
    requires Ring(next, prev, c) && i < |c|
    ensures i + 1 < |c| ==> next[c[i]] == c[i + 1] && c[i + 1] != c[0]
    ensures i + 1 == |c| ==> next[c[i]] == c[0]
  {
  }

  /** The pointers after the circle of v is appended to the circle of u. */
  function NextAppended(next: seq<nat>, prev: seq<nat>, u: nat, v: nat): (r: seq<nat>)
    requires |next| == |prev| && u < |prev| && v < |prev| && prev[u] < |next| && prev[v] < |next|
    ensures |r| == |next|
  {
    next[prev[u] := v][prev[v] := u]
  }

  function PrevAppended(prev: seq<nat>, u: nat, v: nat): (r: seq<nat>)
    requires u < |prev| && v < |prev|
    ensures |r| == |prev|
  {
    prev[v := prev[u]][u := prev[v]]
  }

  lemma AppendedIsRing(next: seq<nat>, prev: seq<nat>, c: seq<nat>, d: seq<nat>)
    requires Ring(next, prev, c) && Ring(next, prev, d) && Disjoint(c, d)
    ensures Ring(NextAppended(next, prev, c[0], d[0]), PrevAppended(prev, c[0], d[0]), c + d)
  {
    var u, v := c[0], d[0];
    var next', prev' := NextAppended(next, prev, u, v), PrevAppended(prev, u, v);
    var e := c + d;
    forall i, j | 0 <= i && j == i + 1 && j < |e| ensures next'[e[i]] == e[j] && prev'[e[j]] == e[i] {
      if j < |c| {
        assert next[c[i]] == c[j] && prev[c[j]] == c[i] && c[i] != c[|c| - 1] && c[j] != c[0];
      } else if |c| <= i {
        var k, l := i - |c|, j - |c|;
        assert next[d[k]] == d[l] && prev[d[l]] == d[k] && d[k] != d[|d| - 1] && d[l] != d[0];
      }
    }
  }

  /** The pointers after the stretch from v to t is cut out and closed to a circle of its own. */
  function NextCut(next: seq<nat>, prev: seq<nat>, v: nat, t: nat): (r: seq<nat>)
    requires |next| == |prev| && v < |prev| && t < |next| && prev[v] < |next|
    ensures |r| == |next|
  {
    next[t := v][prev[v] := next[t]]
  }

  function PrevCut(next: seq<nat>, prev: seq<nat>, v: nat, t: nat): (r: seq<nat>)
    requires |next| == |prev| && v < |prev| && t < |next| && next[t] < |prev|
    ensures |r| == |prev|
  {
    prev[v := t][next[t] := prev[v]]
  }

  /** What is left of c after the stretch [p, q) is cut out. */
  function Without(c: seq<nat>, p: nat, q: nat): (r: seq<nat>)
    requires p <= q <= |c|
    ensures |r| == |c| - (q - p)
  {
    c[..p] + c[q..]
  }

  lemma WithoutMembers(c: seq<nat>, p: nat, q: nat, w: nat)
    requires Distinct(c) && p <= q <= |c|
    ensures w in Without(c, p, q) <==> w in c && w !in c[p..q]
  {
    var a, d, b := c[..p], c[p..q], c[q..];
    assert c == a + d + b;
    forall i, j | 0 <= i < |a| && 0 <= j < |d| ensures a[i] != d[j] {
      assert a[i] == c[i] && d[j] == c[p + j];
    }
    forall i, j | 0 <= i < |b| && 0 <= j < |d| ensures b[i] != d[j] {
      assert b[i] == c[q + i] && d[j] == c[p + j];
    }
  }

  lemma CutIsRings(next: seq<nat>, prev: seq<nat>, c: seq<nat>, p: nat, q: nat)
    requires Ring(next, prev, c) && 0 < p < q <= |c|
    ensures var v, t := c[p], c[q - 1];
            prev[v] == c[p - 1] && next[t] == (if q == |c| then c[0] else c[q])
            && Ring(NextCut(next, prev, v, t), PrevCut(next, prev, v, t), Without(c, p, q))
            && Ring(NextCut(next, prev, v, t), PrevCut(next, prev, v, t), c[p..q])
  {
    StretchIsRing(next, prev, c, p, q);
    RestIsRing(next, prev, c, p, q);
  }

  /** The same for a stretch d given by its contents. */
  lemma CutStretch(next: seq<nat>, prev: seq<nat>, c: seq<nat>, d: seq<nat>, p: nat, v: nat, t: nat)
    requires Ring(next, prev, c) && d != [] && 0 < p && p + |d| <= |c| && c[p..p + |d|] == d && v == d[0] && t == d[|d| - 1]
    ensures v == c[p] && t == c[p + |d| - 1] && v < |next| && t < |next| && prev[v] == c[p - 1] < |next| && next[t] in c && next[t] < |next|
    ensures Ring(NextCut(next, prev, v, t), PrevCut(next, prev, v, t), d)
    ensures Ring(NextCut(next, prev, v, t), PrevCut(next, prev, v, t), Without(c, p, p + |d|))
  {
    hide *;
    StretchEnds(c, d, p);
    RingInRange(next, prev, c);
    CutIsRings(next, prev, c, p, p + |d|);
    assert next[t] == c[if p + |d| == |c| then 0 else p + |d|];
  }

  lemma StretchEnds(c: seq<nat>, d: seq<nat>, p: nat)
    requires d != [] && p + |d| <= |c| && c[p..p + |d|] == d
    ensures d[0] == c[p] && d[|d| - 1] == c[p + |d| - 1]
  {
    assert c[p..p + |d|][0] == c[p] && c[p..p + |d|][|d| - 1] == c[p + |d| - 1];
  }

  lemma RingInRange(next: seq<nat>, prev: seq<nat>, c: seq<nat>)
    requires Ring(next, prev, c)
    ensures |next| == |prev| && forall i :: 0 <= i < |c| ==> c[i] < |next|
  {
  }

  /** Cutting out a single node. */
  lemma CutOne(next: seq<nat>, prev: seq<nat>, c: seq<nat>, p: nat, w: nat)
    requires Ring(next, prev, c) && 0 < p < |c| && c[p] == w
    ensures w < |next| && prev[w] < |next| && next[w] < |next| && prev[w] in c && next[w] in c && prev[w] != w && next[w] != w
    ensures Ring(NextCut(next, prev, w, w), PrevCut(next, prev, w, w), Without(c, p, p + 1))
  {
    CutIsRings(next, prev, c, p, p + 1);
    assert c[p - 1] in c && (p + 1 < |c| ==> c[p + 1] in c) && c[0] in c;
    assert c[p - 1] != c[p] && c[0] != c[p] && (p + 1 < |c| ==> c[p] != c[p + 1]);
  }

  lemma StretchIsRing(next: seq<nat>, prev: seq<nat>, c: seq<nat>, p: nat, q: nat)
    requires Ring(next, prev, c) && 0 < p < q <= |c|
    ensures prev[c[p]] == c[p - 1] && next[c[q - 1]] == (if q == |c| then c[0] else c[q])
    ensures Ring(NextCut(next, prev, c[p], c[q - 1]), PrevCut(next, prev, c[p], c[q - 1]), c[p..q])
  {
    var d := c[p..q];
    assert next[c[p - 1]] == c[p] && prev[c[p]] == c[p - 1];
    assert q < |c| ==> next[c[q - 1]] == c[q];
    var next', prev' := NextCut(next, prev, c[p], c[q - 1]), PrevCut(next, prev, c[p], c[q - 1]);
    assert forall i :: 0 <= i < |d| ==> d[i] == c[p + i];
    forall i, j | 0 <= i && j == i + 1 && j < |d| ensures next'[d[i]] == d[j] && prev'[d[j]] == d[i] {
      assert next[c[p + i]] == c[p + j];
      assert c[p + i] != c[q - 1] && c[p + i] != c[p - 1] && c[p + j] != c[p];
      assert c[p + j] != (if q == |c| then c[0] else c[q]);
    }
  }

  lemma RestIsRing(next: seq<nat>, prev: seq<nat>, c: seq<nat>, p: nat, q: nat)
    requires Ring(next, prev, c) && 0 < p < q <= |c|
    requires prev[c[p]] == c[p - 1] && next[c[q - 1]] == (if q == |c| then c[0] else c[q])
    ensures Ring(NextCut(next, prev, c[p], c[q - 1]), PrevCut(next, prev, c[p], c[q - 1]), Without(c, p, q))
  {
    var r := Without(c, p, q);
    var next', prev' := NextCut(next, prev, c[p], c[q - 1]), PrevCut(next, prev, c[p], c[q - 1]);
    forall i, j | 0 <= i && j == i + 1 && j < |r| ensures next'[r[i]] == r[j] && prev'[r[j]] == r[i] {
      RestLink(next, prev, c, p, q, i);
    }
    RestCloses(next, prev, c, p, q);
    hide NextCut, PrevCut;
    assert forall i :: 0 <= i < |r| ==> r[i] == c[if i < p then i else i + (q - p)];
  }

  lemma RestLink(next: seq<nat>, prev: seq<nat>, c: seq<nat>, p: nat, q: nat, i: nat)
    requires Ring(next, prev, c) && 0 < p < q <= |c| && i + 1 < |Without(c, p, q)|
    requires prev[c[p]] == c[p - 1] && next[c[q - 1]] == (if q == |c| then c[0] else c[q])
    ensures var r, v, t := Without(c, p, q), c[p], c[q - 1];
            r[i] < |next| && r[i + 1] < |next|
            && NextCut(next, prev, v, t)[r[i]] == r[i + 1] && PrevCut(next, prev, v, t)[r[i + 1]] == r[i]
  {
    var j := i + 1;
    if j < p {
      assert next[c[i]] == c[j] && c[i] != c[p - 1] && c[i] != c[q - 1] && c[j] != c[p];
      assert c[j] != (if q == |c| then c[0] else c[q]);
    } else if p <= i {
      var k, l := i + (q - p), j + (q - p);
      assert next[c[k]] == c[l] && c[k] != c[p - 1] && c[k] != c[q - 1] && c[l] != c[p] && c[l] != c[q];
    }
  }

  /** The last node of the rest leads to its first. */
  lemma RestCloses(next: seq<nat>, prev: seq<nat>, c: seq<nat>, p: nat, q: nat)
    requires Ring(next, prev, c) && 0 < p < q <= |c|
    requires prev[c[p]] == c[p - 1] && next[c[q - 1]] == (if q == |c| then c[0] else c[q])
    ensures var r, v, t := Without(c, p, q), c[p], c[q - 1];
            r != [] && r[0] == c[0] < |next| && r[|r| - 1] < |next|
            && NextCut(next, prev, v, t)[r[|r| - 1]] == r[0] && PrevCut(next, prev, v, t)[r[0]] == r[|r| - 1]
  {
    var r := Without(c, p, q);
    if q == |c| {
      assert r[|r| - 1] == c[p - 1];
    } else {
      assert r[|r| - 1] == c[|c| - 1];
      assert c[|c| - 1] != c[p - 1] && c[|c| - 1] != c[q - 1] && c[0] != c[p] && c[0] != c[q];
    }
  }

  /** Linking the neighbours of the stretch [p, q) with each other leaves a ring without it. */
  lemma Bridged(next: seq<nat>, prev: seq<nat>, c: seq<nat>, p: nat, q: nat)
    requires Ring(next, prev, c) && 0 < p <= q <= |c|
    ensures var n := if q == |c| then c[0] else c[q];
            Ring(next[c[p - 1] := n], prev[n := c[p - 1]], Without(c, p, q))
  {
    var n := if q == |c| then c[0] else c[q];
    assert q < |c| ==> next[c[q - 1]] == c[q];
    if p == q {
      assert Without(c, p, q) == c;
      assert next[c[p - 1] := n] == next && prev[n := c[p - 1]] == prev;
    } else {
      StretchIsRing(next, prev, c, p, q);
      RestIsRing(next, prev, c, p, q);
      RestUntouched(c, p, q);
      var r := Without(c, p, q);
      hide Without;
      assert forall i :: 0 <= i < |r| ==> r[i] < |next|;
      RingFrame(NextCut(next, prev, c[p], c[q - 1]), PrevCut(next, prev, c[p], c[q - 1]), next[c[p - 1] := n], prev[n := c[p - 1]], r);
    }
  }

  lemma RestUntouched(c: seq<nat>, p: nat, q: nat)
    requires Distinct(c) && 0 < p < q <= |c|
    ensures forall i :: 0 <= i < |Without(c, p, q)| ==> Without(c, p, q)[i] != c[p] && Without(c, p, q)[i] != c[q - 1]
  {
    var r := Without(c, p, q);
    forall i | 0 <= i < |r| ensures r[i] != c[p] && r[i] != c[q - 1] {
      assert r[i] == c[if i < p then i else i + (q - p)];
    }
  }
}
