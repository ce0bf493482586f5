/** Circles of lists: which node is the head of which circle.

    The operations join the circle of a contracted node to the circle of its representative and cut it out
    again. */
module Chains {
  import opened Rings

  /** The id that stands for no node. */
  const INVALID: nat := 0xFFFF_FFFF

  /** `rep[w]` is the head of the circle of w. For a head `circ` is its circle, for a contracted node the
      circle it had when it was contracted. */
  datatype Chains = Chains(isHead: seq<bool>, rep: seq<nat>, circ: seq<seq<nat>>) {
    ghost predicate CircleOk(h: nat)
      requires h < |rep| == |isHead| == |circ|
    {
      && rep[h] < |rep| && isHead[rep[h]] && isHead[h] == (rep[h] == h)
      && (isHead[h] ==>
            && circ[h] != [] && circ[h][0] == h && Distinct(circ[h])
            && (forall w: nat :: w in circ[h] <==> w < |rep| && rep[w] == h))
    }

    ghost predicate Valid() {
      && |rep| == |isHead| == |circ|
      && forall h: nat {:trigger CircleOk(h)} :: h < |rep| ==> CircleOk(h)
    }
  }

  function Identity(n: nat): (s: seq<nat>)
    ensures |s| == n && forall w :: 0 <= w < n ==> s[w] == w
  {
    seq(n, w requires 0 <= w < n => w)
  }

  /** Every node is a head alone. */
  function Singles(n: nat): (g: Chains)
    ensures |g.isHead| == |g.rep| == |g.circ| == n
    ensures forall w :: 0 <= w < n ==> g.isHead[w] && g.rep[w] == w && g.circ[w] == [w]
  {
    Chains(seq(n, w => true), Identity(n), seq(n, w requires 0 <= w < n => [w]))
  }

  lemma SinglesLinked(n: nat)
    ensures Singles(n).Valid() && ListsOk(Singles(n), Identity(n), Identity(n), Identity(n))
  {
    var g := Singles(n);
    forall h: nat | h < n ensures g.CircleOk(h) && ListOk(Identity(n), Identity(n), Identity(n), g.circ, g.isHead, h) {}
  }

  function Renamed(x: nat, from: nat, into: nat): nat {
    if x == from then into else x
  }

  function AllRenamed(rep: seq<nat>, from: nat, into: nat): (r: seq<nat>)
    ensures |r| == |rep|
  {
    seq(|rep|, w requires 0 <= w < |rep| => Renamed(rep[w], from, into))
  }

  function AllReturned(rep: seq<nat>, d: seq<nat>, v: nat): (r: seq<nat>)
    ensures |r| == |rep|
  {
    seq(|rep|, w requires 0 <= w < |rep| => if w in d then v else rep[w])
  }

  lemma CirclesDisjoint(g: Chains, u: nat, v: nat)
    requires g.Valid() && u < |g.rep| && v < |g.rep| && u != v && g.isHead[u] && g.isHead[v]
    ensures Disjoint(g.circ[u], g.circ[v])
  {
    assert g.CircleOk(u) && g.CircleOk(v);
    forall i, j | 0 <= i < |g.circ[u]| && 0 <= j < |g.circ[v]| ensures g.circ[u][i] != g.circ[v][j] {
      assert g.circ[u][i] in g.circ[u] && g.circ[v][j] in g.circ[v];
    }
  }

  /** A head leads through its circle, a contracted node remembers where its former circle ended. */
  ghost predicate ListOk(next: seq<nat>, prev: seq<nat>, tail: seq<nat>, circ: seq<seq<nat>>, isHead: seq<bool>, h: nat) {
    && h < |circ| && h < |isHead| && h < |tail|
    && (if isHead[h] then Ring(next, prev, circ[h])
        else circ[h] != [] && circ[h][0] == h && tail[h] == circ[h][|circ[h]| - 1])
  }

  ghost predicate ListsOk(g: Chains, next: seq<nat>, prev: seq<nat>, tail: seq<nat>) {
    && |next| == |prev| == |tail| == |g.rep|
    && forall h: nat {:trigger ListOk(next, prev, tail, g.circ, g.isHead, h)} :: h < |g.rep| ==> ListOk(next, prev, tail, g.circ, g.isHead, h)
  }

  function Appended(g: Chains, u: nat, v: nat): Chains
    requires u < |g.circ| && v < |g.circ| && v < |g.isHead|
  {
    g.(isHead := g.isHead[v := false], rep := AllRenamed(g.rep, v, u), circ := g.circ[u := g.circ[u] + g.circ[v]])
  }

  /** The former circle of v is the stretch of the circle of u that starts at k. */
  ghost predicate IsSegment(g: Chains, u: nat, v: nat, k: nat)
    requires u < |g.circ| && v < |g.circ|
  {
    0 < k && k + |g.circ[v]| <= |g.circ[u]| && g.circ[u][k..k + |g.circ[v]|] == g.circ[v]
  }

  ghost function Spliced(g: Chains, u: nat, v: nat, k: nat): Chains
    requires u < |g.circ| && v < |g.circ| && v < |g.isHead| && k + |g.circ[v]| <= |g.circ[u]|
  {
    g.(isHead := g.isHead[v := true], rep := AllReturned(g.rep, g.circ[v], v), circ := g.circ[u := Without(g.circ[u], k, k + |g.circ[v]|)])
  }

  lemma HeadLists(g: Chains, next: seq<nat>, prev: seq<nat>, tail: seq<nat>, u: nat, v: nat)
    requires g.Valid() && ListsOk(g, next, prev, tail)
    requires u < |g.isHead| && v < |g.isHead| && u != v && g.isHead[u] && g.isHead[v]
    ensures Ring(next, prev, g.circ[u]) && Ring(next, prev, g.circ[v]) && g.circ[u][0] == u && g.circ[v][0] == v
    ensures Disjoint(g.circ[u], g.circ[v])
    ensures prev[u] == g.circ[u][|g.circ[u]| - 1] < |next| && prev[v] == g.circ[v][|g.circ[v]| - 1] < |next| && u < |next| && v < |next|
  {
    assert ListOk(next, prev, tail, g.circ, g.isHead, u) && ListOk(next, prev, tail, g.circ, g.isHead, v);
    assert g.CircleOk(u) && g.CircleOk(v);
    CirclesDisjoint(g, u, v);
  }

  lemma TailsInRange(g: Chains, next: seq<nat>, prev: seq<nat>, tail: seq<nat>, u: nat, v: nat)
    requires g.Valid() && ListsOk(g, next, prev, tail)
    requires u < |g.isHead| && v < |g.isHead| && u != v && g.isHead[u] && g.isHead[v]
    ensures |next| == |prev| == |tail| == |g.rep| == |g.isHead| == |g.circ|
    ensures u < |next| && v < |next| && prev[u] < |next| && prev[v] < |next| && prev[u] != v
  {
    HeadLists(g, next, prev, tail, u, v);
  }

  lemma AppendedWired(g: Chains, next: seq<nat>, prev: seq<nat>, tail: seq<nat>, u: nat, v: nat)
    requires g.Valid() && ListsOk(g, next, prev, tail)
    requires u < |g.isHead| && v < |g.isHead| && u != v && g.isHead[u] && g.isHead[v]
    requires u < |next| && v < |next| && prev[u] < |next| && prev[v] < |next|
    ensures Appended(g, u, v).Valid()
    ensures ListsOk(Appended(g, u, v), NextAppended(next, prev, u, v), PrevAppended(prev, u, v), tail[v := prev[v]])
  {
    var g' := Appended(g, u, v);
    var n, p, t := NextAppended(next, prev, u, v), PrevAppended(prev, u, v), tail[v := prev[v]];
    forall h: nat | h < |g.rep| ensures ListOk(n, p, t, g'.circ, g'.isHead, h) {
      AppendedList(g, next, prev, tail, u, v, h);
    }
    AppendedValid(g, u, v);
  }

  lemma AppendedValid(g: Chains, u: nat, v: nat)
    requires g.Valid() && u < |g.rep| && v < |g.rep| && u != v && g.isHead[u] && g.isHead[v]
    ensures Appended(g, u, v).Valid()
  {
    CirclesDisjoint(g, u, v);
    forall h: nat | h < |g.rep| ensures Appended(g, u, v).CircleOk(h) {
      assert g.CircleOk(h) && g.CircleOk(u) && g.CircleOk(v) && g.CircleOk(g.rep[h]);
    }
  }

  lemma AppendedList(g: Chains, next: seq<nat>, prev: seq<nat>, tail: seq<nat>, u: nat, v: nat, h: nat)
    requires g.Valid() && ListsOk(g, next, prev, tail)
    requires u < |g.isHead| && v < |g.isHead| && u != v && g.isHead[u] && g.isHead[v] && h < |g.rep|
    requires u < |next| && v < |next| && prev[u] < |next| && prev[v] < |next|
    ensures ListOk(NextAppended(next, prev, u, v), PrevAppended(prev, u, v), tail[v := prev[v]], Appended(g, u, v).circ, Appended(g, u, v).isHead, h)
  {
    HeadLists(g, next, prev, tail, u, v);
    assert ListOk(next, prev, tail, g.circ, g.isHead, h);
    if h == u {
      AppendedIsRing(next, prev, g.circ[u], g.circ[v]);
    } else if g.isHead[h] && h != v {
      HeadLists(g, next, prev, tail, h, u);
      HeadLists(g, next, prev, tail, h, v);
      RingFrame(next, prev, NextAppended(next, prev, u, v), PrevAppended(prev, u, v), g.circ[h]);
    }
  }

  lemma SegmentLists(g: Chains, next: seq<nat>, prev: seq<nat>, tail: seq<nat>, u: nat, v: nat, k: nat)
    requires g.Valid() && ListsOk(g, next, prev, tail)
    requires u < |g.isHead| && v < |g.isHead| && u != v && g.isHead[u] && g.rep[v] == u
    requires IsSegment(g, u, v, k)
    ensures g.circ[v] != [] && g.circ[v][0] == v && tail[v] == g.circ[v][|g.circ[v]| - 1] && v < |next| && tail[v] < |next|
    ensures v == g.circ[u][k] && tail[v] == g.circ[u][k + |g.circ[v]| - 1] && Ring(next, prev, g.circ[u])
    ensures prev[v] < |next| && next[tail[v]] < |next|
    ensures prev[v] == g.circ[u][k - 1] && next[tail[v]] in g.circ[u]
  {
    assert ListOk(next, prev, tail, g.circ, g.isHead, u) && ListOk(next, prev, tail, g.circ, g.isHead, v);
    assert g.CircleOk(u) && g.CircleOk(v);
    CutStretch(next, prev, g.circ[u], g.circ[v], k, v, tail[v]);
  }

  lemma SegmentInRange(g: Chains, next: seq<nat>, prev: seq<nat>, tail: seq<nat>, u: nat, v: nat, k: nat)
    requires g.Valid() && ListsOk(g, next, prev, tail)
    requires u < |g.isHead| && v < |g.isHead| && u != v && g.isHead[u] && g.rep[v] == u
    requires IsSegment(g, u, v, k)
    ensures v < |next| && tail[v] < |next| && prev[v] < |next| && next[tail[v]] < |next|
  {
    SegmentLists(g, next, prev, tail, u, v, k);
  }

  lemma SplicedList(g: Chains, next: seq<nat>, prev: seq<nat>, tail: seq<nat>, u: nat, v: nat, k: nat, h: nat)
    requires g.Valid() && ListsOk(g, next, prev, tail)
    requires u < |g.isHead| && v < |g.isHead| && u != v && g.isHead[u] && g.rep[v] == u
    requires IsSegment(g, u, v, k) && h < |g.rep|
    requires v < |next| && tail[v] < |next| && prev[v] < |next| && next[tail[v]] < |next|
    ensures ListOk(NextCut(next, prev, v, tail[v]), PrevCut(next, prev, v, tail[v]), tail, Spliced(g, u, v, k).circ, Spliced(g, u, v, k).isHead, h)
  {
    assert ListOk(next, prev, tail, g.circ, g.isHead, h);
    if h == u || h == v {
      SplicedRings(g, next, prev, tail, u, v, k);
    } else if g.isHead[h] {
      OtherRing(g, next, prev, tail, u, v, k, h);
    }
  }

  lemma SplicedRings(g: Chains, next: seq<nat>, prev: seq<nat>, tail: seq<nat>, u: nat, v: nat, k: nat)
    requires g.Valid() && ListsOk(g, next, prev, tail)
    requires u < |g.isHead| && v < |g.isHead| && u != v && g.isHead[u] && g.rep[v] == u
    requires IsSegment(g, u, v, k)
    requires v < |next| && tail[v] < |next| && prev[v] < |next| && next[tail[v]] < |next|
    ensures Ring(NextCut(next, prev, v, tail[v]), PrevCut(next, prev, v, tail[v]), g.circ[v])
    ensures Ring(NextCut(next, prev, v, tail[v]), PrevCut(next, prev, v, tail[v]), Without(g.circ[u], k, k + |g.circ[v]|))
  {
    assert ListOk(next, prev, tail, g.circ, g.isHead, u) && ListOk(next, prev, tail, g.circ, g.isHead, v);
    assert g.CircleOk(v);
    CutStretch(next, prev, g.circ[u], g.circ[v], k, v, tail[v]);
  }

  lemma OtherRing(g: Chains, next: seq<nat>, prev: seq<nat>, tail: seq<nat>, u: nat, v: nat, k: nat, h: nat)
    requires g.Valid() && ListsOk(g, next, prev, tail)
    requires u < |g.isHead| && v < |g.isHead| && u != v && g.isHead[u] && g.rep[v] == u
    requires IsSegment(g, u, v, k) && h < |g.rep| && h != u && h != v && g.isHead[h]
    requires v < |next| && tail[v] < |next| && prev[v] < |next| && next[tail[v]] < |next|
    ensures Ring(NextCut(next, prev, v, tail[v]), PrevCut(next, prev, v, tail[v]), g.circ[h])
  {
    SegmentLists(g, next, prev, tail, u, v, k);
    HeadLists(g, next, prev, tail, h, u);
    UntouchedRing(next, prev, g.circ[u], g.circ[h], v, tail[v]);
  }

  /** Circles that are disjoint from the one that is cut stay as they are. */
  lemma UntouchedRing(next: seq<nat>, prev: seq<nat>, c: seq<nat>, other: seq<nat>, v: nat, t: nat)
    requires Ring(next, prev, other) && Disjoint(other, c)
    requires v < |prev| && t < |next| && prev[v] < |next| && next[t] < |prev|
    requires v in c && t in c && prev[v] in c && next[t] in c
    ensures Ring(NextCut(next, prev, v, t), PrevCut(next, prev, v, t), other)
  {
    forall i | 0 <= i < |other| ensures other[i] != v && other[i] != t && other[i] != prev[v] && other[i] != next[t] {
    }
    RingFrame(next, prev, NextCut(next, prev, v, t), PrevCut(next, prev, v, t), other);
  }

  lemma SplicedWired(g: Chains, next: seq<nat>, prev: seq<nat>, tail: seq<nat>, u: nat, v: nat, k: nat)
    requires g.Valid() && ListsOk(g, next, prev, tail)
    requires u < |g.isHead| && v < |g.isHead| && u != v && g.isHead[u] && g.rep[v] == u
    requires IsSegment(g, u, v, k)
    requires v < |next| && tail[v] < |next| && prev[v] < |next| && next[tail[v]] < |next|
    ensures Spliced(g, u, v, k).Valid()
    ensures ListsOk(Spliced(g, u, v, k), NextCut(next, prev, v, tail[v]), PrevCut(next, prev, v, tail[v]), tail)
  {
    var g' := Spliced(g, u, v, k);
    var n, p := NextCut(next, prev, v, tail[v]), PrevCut(next, prev, v, tail[v]);
    SegmentLists(g, next, prev, tail, u, v, k);
    forall h: nat | h < |g.rep| ensures ListOk(n, p, tail, g'.circ, g'.isHead, h) {
      SplicedList(g, next, prev, tail, u, v, k, h);
    }
    forall h: nat | h < |g.rep| ensures g'.CircleOk(h) {
      SplicedCircle(g, u, v, k, h);
    }
  }

  /** The part of the circle of u that stays behind. */
  lemma RestOfCircle(g: Chains, u: nat, v: nat, k: nat, w: nat)
    requires g.Valid() && u < |g.isHead| && v < |g.isHead| && u != v && g.isHead[u] && g.CircleOk(u) && IsSegment(g, u, v, k)
    ensures w in Without(g.circ[u], k, k + |g.circ[v]|) <==> w in g.circ[u] && w !in g.circ[v]
  {
    WithoutMembers(g.circ[u], k, k + |g.circ[v]|, w);
  }

  lemma RestStartsAtHead(g: Chains, u: nat, v: nat, k: nat)
    requires g.Valid() && u < |g.isHead| && v < |g.isHead| && g.isHead[u] && g.CircleOk(u) && IsSegment(g, u, v, k)
    ensures var r := Without(g.circ[u], k, k + |g.circ[v]|); r != [] && r[0] == u && Distinct(r)
  {
  }

  /** Heads and representatives after the cut. */
  lemma SplicedReps(g: Chains, u: nat, v: nat, k: nat, h: nat)
    requires g.Valid() && u < |g.isHead| && v < |g.isHead| && u != v && g.isHead[u] && g.rep[v] == u && h < |g.rep|
    requires IsSegment(g, u, v, k) && g.circ[v] != [] && g.circ[v][0] == v
    ensures var g' := Spliced(g, u, v, k);
            && g'.rep[h] == (if h in g.circ[v] then v else g.rep[h]) && g'.rep[h] < |g'.rep|
            && g'.isHead[g'.rep[h]] && g'.isHead[h] == (g'.rep[h] == h)
    ensures forall w: nat :: w in g.circ[v] ==> w in g.circ[u]
  {
    assert g.CircleOk(u) && g.CircleOk(v) && g.CircleOk(h) && g.CircleOk(g.rep[h]);
    var c, d := g.circ[u], g.circ[v];
    assert forall i :: 0 <= i < |d| ==> d[i] == c[k + i];
    assert forall w: nat :: w in d ==> w in c;
    assert v in d;
  }

  lemma SplicedCircle(g: Chains, u: nat, v: nat, k: nat, h: nat)
    requires g.Valid() && u < |g.isHead| && v < |g.isHead| && u != v && g.isHead[u] && g.rep[v] == u && h < |g.rep|
    requires IsSegment(g, u, v, k) && g.circ[v] != [] && g.circ[v][0] == v
    ensures Spliced(g, u, v, k).CircleOk(h)
  {
    var g' := Spliced(g, u, v, k);
    SplicedReps(g, u, v, k, h);
    assert g.CircleOk(u) && g.CircleOk(v) && g.CircleOk(h);
    assert g'.isHead[h] ==> h == u || h == v || (h !in g.circ[v] && g.isHead[h] && g'.circ[h] == g.circ[h]);
    if g'.isHead[h] {
      if h == u { RestStartsAtHead(g, u, v, k); }
      if h == v { SegmentIsDistinct(g.circ[u], g.circ[v], k); }
      forall w: nat ensures w in g'.circ[h] <==> w < |g.rep| && g'.rep[w] == h {
        if h == u { RestOfCircle(g, u, v, k, w); }
        if w < |g.rep| {
          SplicedReps(g, u, v, k, w);
          assert g.CircleOk(w);
        }
      }
    }
  }

  lemma SegmentIsDistinct(c: seq<nat>, d: seq<nat>, k: nat)
    requires Distinct(c) && k + |d| <= |c| && c[k..k + |d|] == d
    ensures Distinct(d)
  {
    assert forall i :: 0 <= i < |d| ==> d[i] == c[k + i];
  }

  /** Cutting out the circle that was appended last gives back all circles, heads and representatives. */
  lemma SplicedUndoesAppended(g: Chains, u: nat, v: nat)
    requires g.Valid() && u < |g.rep| && v < |g.rep| && u != v && g.isHead[u] && g.isHead[v]
    ensures IsSegment(Appended(g, u, v), u, v, |g.circ[u]|)
    ensures Spliced(Appended(g, u, v), u, v, |g.circ[u]|) == g
  {
    var b, c, d := Appended(g, u, v), g.circ[u], g.circ[v];
    assert g.CircleOk(u) && g.CircleOk(v);
    assert b.circ[u][|c|..|c| + |d|] == d;
    assert Without(b.circ[u], |c|, |c| + |d|) == c;
    assert AllReturned(b.rep, d, v) == g.rep;
    assert b.circ[u := c] == g.circ;
  }
}
