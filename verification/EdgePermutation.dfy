/** The permutation of edge ids that moves removed edges to the front, and the graph that is left. */
module EdgePermutation {
  import opened QuotientGraph
  import opened ParallelEdges
  import opened FiniteSets
  import opened Sums

  // The removed edges of every slice are swapped to its front, one at a time.

  // ---------- Swaps inside one slice ----------

  function SwapAt<T>(s: seq<T>, i: nat, j: nat): (r: seq<T>)
    requires i < |s| && j < |s|
    ensures |r| == |s|
  {
    s[i := s[j]][j := s[i]]
  }

  /** Ascending ids, the k-th of which is at least a + k. */
  ghost predicate Ascending(a: nat, es: seq<nat>, bound: nat) {
    && (forall k :: 0 <= k < |es| ==> a + k <= es[k] < bound)
    && (forall k, l :: 0 <= k < l < |es| ==> es[k] < es[l])
  }

  /** What is at every position after the k-th id of es was swapped with position a + k, for all k in turn. */
  ghost function Content(m: nat, a: nat, es: seq<nat>): (c: seq<nat>)
    requires Ascending(a, es, m)
    ensures |c| == m
    decreases |es|
  {
    if es == [] then seq(m, i => i)
    else
      var k := |es| - 1;
      SwapAt(Content(m, a, es[..k]), a + k, es[k])
  }

  lemma {:induction false} ContentOutside(m: nat, a: nat, es: seq<nat>, bound: nat, p: nat)
    requires Ascending(a, es, m) && (forall k :: 0 <= k < |es| ==> es[k] < bound) && p < m && (p < a || bound <= p)
    ensures Content(m, a, es)[p] == p
    decreases |es|
  {
    if es != [] {
      var k := |es| - 1;
      assert a + k <= es[k] < bound;
      ContentOutside(m, a, es[..k], bound, p);
    }
  }

  lemma {:induction false} ContentInside(m: nat, a: nat, es: seq<nat>, bound: nat, p: nat)
    requires Ascending(a, es, m) && (forall k :: 0 <= k < |es| ==> es[k] < bound) && a <= p < bound <= m
    ensures a <= Content(m, a, es)[p] < bound
    decreases |es|
  {
    if es != [] {
      var k := |es| - 1;
      assert a + k <= es[k] < bound;
      ContentInside(m, a, es[..k], bound, if p == a + k then es[k] else if p == es[k] then a + k else p);
    }
  }

  /** The front holds the swapped ids in their order. */
  lemma {:induction false} ContentFront(m: nat, a: nat, es: seq<nat>, k: nat)
    requires Ascending(a, es, m) && k < |es|
    ensures Content(m, a, es)[a + k] == es[k]
    decreases |es|
  {
    var l := |es| - 1;
    if k == l {
      ContentOutside(m, a, es[..l], es[l], es[l]);
    } else {
      ContentFront(m, a, es[..l], k);
    }
  }

  // ---------- Swaps in all slices ----------

  ghost predicate SlotsOk(g: Graph, slots: seq<seq<nat>>) {
    && g.Shape() && |slots| == |g.first|
    && forall w: nat {:trigger SlotOk(g, slots, w)} :: w < |slots| ==> SlotOk(g, slots, w)
  }

  ghost predicate SlotOk(g: Graph, slots: seq<seq<nat>>, w: nat)
    requires g.Shape() && w < |slots| == |g.first|
  {
    Ascending(g.active[w], slots[w], g.last[w]) && Ascending(g.active[w], slots[w], |g.edges|)
  }

  /** The original id of the edge at every position. */
  ghost function Contents(g: Graph, slots: seq<seq<nat>>): (c: seq<nat>)
    requires SlotsOk(g, slots)
    ensures |c| == |g.edges|
  {
    seq(|g.edges|, p requires 0 <= p < |g.edges| => ContentAt(g, slots, p))
  }

  ghost function ContentAt(g: Graph, slots: seq<seq<nat>>, p: nat): nat
    requires SlotsOk(g, slots) && p < |g.edges|
  {
    var w := g.owner[p];
    assert SlotOk(g, slots, w);
    Content(|g.edges|, g.active[w], slots[w])[p]
  }

  ghost predicate Inverse(content: seq<nat>, mapping: seq<nat>) {
    && |content| == |mapping|
    && (forall p :: 0 <= p < |content| ==> content[p] < |mapping| && mapping[content[p]] == p)
    && (forall x :: 0 <= x < |mapping| ==> mapping[x] < |content| && content[mapping[x]] == x)
  }

  /** The mapping after two positions were swapped. */
  lemma InverseSwapped(content: seq<nat>, mapping: seq<nat>, i: nat, j: nat)
    requires Inverse(content, mapping) && i < |content| && j < |content|
    ensures Inverse(SwapAt(content, i, j), mapping[content[j] := i][content[i] := j])
  {
  }

  lemma NoSlots(g: Graph, slots: seq<seq<nat>>)
    requires g.Shape() && |slots| == |g.first| && forall w :: 0 <= w < |slots| ==> slots[w] == []
    ensures SlotsOk(g, slots) && Contents(g, slots) == seq(|g.edges|, i => i)
  {
    forall w: nat | w < |slots| ensures SlotOk(g, slots, w) {}
  }

  /** One more swap at the end of slice w. */
  lemma OneMoreSwap(g: Graph, slots: seq<seq<nat>>, w: nat, e: nat)
    requires SlotsOk(g, slots) && w < |slots| && g.active[w] + |slots[w]| <= e < g.last[w]
    requires forall k :: 0 <= k < |slots[w]| ==> slots[w][k] < e
    ensures SlotsOk(g, slots[w := slots[w] + [e]])
    ensures Contents(g, slots[w := slots[w] + [e]]) == SwapAt(Contents(g, slots), g.active[w] + |slots[w]|, e)
    ensures Contents(g, slots)[e] == e
  {
    SlotsGrow(g, slots, w, e);
    assert SlotOk(g, slots, w);
    var slots' := slots[w := slots[w] + [e]];
    var a, k := g.active[w], |slots[w]|;
    assert InSlice(g.first, g.last, w, e) && InSlice(g.first, g.last, w, a + k);
    assert slots'[w][..k] == slots[w];
    ContentOutside(|g.edges|, a, slots[w], e, e);
    var c, c' := Contents(g, slots), Contents(g, slots');
    forall p: nat | p < |c| ensures c'[p] == SwapAt(c, a + k, e)[p] {
      assert c'[p] == ContentAt(g, slots', p) && c[p] == ContentAt(g, slots, p);
    }
  }

  lemma SlotsGrow(g: Graph, slots: seq<seq<nat>>, w: nat, e: nat)
    requires SlotsOk(g, slots) && w < |slots| && g.active[w] + |slots[w]| <= e < g.last[w]
    requires forall k :: 0 <= k < |slots[w]| ==> slots[w][k] < e
    ensures SlotsOk(g, slots[w := slots[w] + [e]])
  {
    var slots' := slots[w := slots[w] + [e]];
    forall x: nat | x < |slots| ensures SlotOk(g, slots', x) {
      assert SlotOk(g, slots, x);
    }
  }

  lemma ContentsStay(g: Graph, slots: seq<seq<nat>>, p: nat)
    requires SlotsOk(g, slots) && p < |g.edges|
    ensures Contents(g, slots)[p] < |g.edges| && g.owner[Contents(g, slots)[p]] == g.owner[p]
    ensures g.Active(Contents(g, slots)[p]) == g.Active(p)
    ensures !g.Active(p) ==> Contents(g, slots)[p] == p
  {
    var w := g.owner[p];
    assert SlotOk(g, slots, w) && InSlice(g.first, g.last, w, p);
    if p < g.active[w] {
      ContentOutside(|g.edges|, g.active[w], slots[w], g.last[w], p);
    } else {
      ContentInside(|g.edges|, g.active[w], slots[w], g.last[w], p);
    }
    assert InSlice(g.first, g.last, w, ContentAt(g, slots, p));
    assert Contents(g, slots)[p] == ContentAt(g, slots, p);
  }

  /** Position p is in the removed front of its slice exactly if a removed id is there. */
  lemma FrontIsSlots(g: Graph, slots: seq<seq<nat>>, mapping: seq<nat>, p: nat)
    requires SlotsOk(g, slots) && Inverse(Contents(g, slots), mapping) && p < |g.edges| && g.Active(p)
    ensures p < g.active[g.owner[p]] + |slots[g.owner[p]]| <==> Contents(g, slots)[p] in slots[g.owner[p]]
  {
    var w, c := g.owner[p], Contents(g, slots);
    var a := g.active[w];
    assert SlotOk(g, slots, w);
    forall k: nat | k < |slots[w]| ensures a + k < |c| && c[a + k] == slots[w][k] {
      assert a + k <= slots[w][k] < g.last[w];
      ContentFront(|g.edges|, a, slots[w], k);
      assert InSlice(g.first, g.last, w, a + k);
      assert c[a + k] == ContentAt(g, slots, a + k);
    }
    forall k: nat | k < |slots[w]| ensures c[p] == slots[w][k] ==> p == a + k {
      assert mapping[c[p]] == p && mapping[c[a + k]] == a + k;
    }
    if p < a + |slots[w]| {
      assert c[a + (p - a)] == slots[w][p - a];
    }
  }

  // ---------- The graph after removal ----------

  datatype Removal = Removal(dups: set<nat>, marked: seq<Edge>, slots: seq<seq<nat>>, mapping: seq<nat>)

  ghost predicate RemovalOk(g: Graph, r: Removal) {
    && Marked(g, r.dups, r.marked) && SlotsOk(g, r.slots) && Inverse(Contents(g, r.slots), r.mapping)
    && (forall x: nat :: x in r.dups <==> Duplicate(g, x))
    && (forall x: nat :: x < |g.edges| ==> r.marked[x].back == g.edges[x].back)
    && (forall w: nat, x: nat {:trigger x in r.slots[w]} :: w < |r.slots| ==>
          (x in r.slots[w] <==> x < |g.edges| && g.owner[x] == w && g.Active(x) && !Kept(g, x)))
  }

  /** The live edges of h that are removed. */
  ghost function RemovedLive(g: Graph, h: nat): set<nat>
    requires g.Shape()
  {
    set x: nat | x < |g.edges| && g.Live(x) && g.Head(x) == h && !Kept(g, x)
  }

  function MovedBack(e: Edge, mapping: seq<nat>): Edge {
    if e.back < |mapping| then e.(back := mapping[e.back]) else e
  }

  ghost function Removed(g: Graph, r: Removal): Graph
    requires RemovalOk(g, r)
  {
    var c := Contents(g, r.slots);
    g.(active := seq(|g.active|, w requires 0 <= w < |g.active| => g.active[w] + |r.slots[w]|),
       edges := seq(|g.edges|, p requires 0 <= p < |g.edges| => MovedBack(r.marked[c[p]], r.mapping)),
       degree := seq(|g.degree|, h requires 0 <= h < |g.degree| => g.degree[h] - |RemovedLive(g, h)|))
  }

  lemma RemovedShape(g: Graph, r: Removal)
    requires RemovalOk(g, r)
    ensures Removed(g, r).Shape() && |Removed(g, r).edges| == |g.edges|
  {
    forall w: nat | w < |g.first| ensures g.active[w] + |r.slots[w]| <= g.last[w] {
      assert SlotOk(g, r.slots, w);
      if r.slots[w] != [] {
        assert g.active[w] + (|r.slots[w]| - 1) <= r.slots[w][|r.slots[w]| - 1];
      }
    }
  }

  /** What is active after the removal are exactly the kept edges, with unchanged ends. */
  lemma RemovedLiveAt(g: Graph, r: Removal, p: nat)
    requires RemovalOk(g, r) && Removed(g, r).Shape() && p < |g.edges|
    ensures var x := Contents(g, r.slots)[p];
            x < |g.edges| && g.owner[x] == g.owner[p]
            && (Removed(g, r).Active(p) <==> Kept(g, x))
            && (Removed(g, r).Live(p) <==> Kept(g, x))
            && (Kept(g, x) ==> Removed(g, r).edges[p].source == g.edges[x].source && Removed(g, r).edges[p].target == g.edges[x].target)
  {
    var x, w := Contents(g, r.slots)[p], g.owner[p];
    ContentsStay(g, r.slots, p);
    if g.Active(p) {
      FrontIsSlots(g, r.slots, r.mapping, p);
      assert x in r.slots[w] <==> !Kept(g, x);
    }
    assert MarkedAt(g.edges, r.dups, r.marked, x);
  }

  lemma RemovedEdgeOk(g: Graph, r: Removal, p: nat)
    requires RemovalOk(g, r) && Removed(g, r).Shape() && p < |g.edges|
    ensures Removed(g, r).EdgeOk(p) && Removed(g, r).BackOk(p)
  {
    var c, g' := Contents(g, r.slots), Removed(g, r);
    RemovedLiveAt(g, r, p);
    var x := c[p];
    assert g.EdgeOk(x) && g.BackOk(x);
    var y := g.edges[x].back;
    var q := r.mapping[y];
    assert g'.edges[p].back == q && c[q] == y;
    assert g'.edges[q].back == r.mapping[g.edges[y].back];
    if Kept(g, x) {
      KeptClosed(g, x);
      RemovedLiveAt(g, r, q);
    }
  }

  /** The invariant survives the removal. */
  lemma RemovedValid(g: Graph, r: Removal)
    requires RemovalOk(g, r)
    ensures Removed(g, r).Valid()
  {
    RemovedShape(g, r);
    var g' := Removed(g, r);
    forall h: nat | h < |g.rep| ensures g'.CircleOk(h) {
      assert g.CircleOk(h);
    }
    forall p: nat | p < |g.edges| ensures g'.EdgeOk(p) && g'.BackOk(p) {
      RemovedEdgeOk(g, r, p);
    }
  }

  /** No single-pin edge is left, and at most one edge from any head to any other. */
  lemma RemovedIsSimple(g: Graph, r: Removal, p: nat, q: nat)
    requires RemovalOk(g, r) && Removed(g, r).Shape() && Removed(g, r).Live(p)
    ensures !Removed(g, r).edges[p].IsSinglePin()
    ensures (Removed(g, r).Live(q) && Removed(g, r).Head(q) == Removed(g, r).Head(p)
             && Removed(g, r).edges[q].target == Removed(g, r).edges[p].target) ==> q == p
  {
    var c := Contents(g, r.slots);
    RemovedLiveAt(g, r, p);
    if Removed(g, r).Live(q) && Removed(g, r).Head(q) == Removed(g, r).Head(p)
       && Removed(g, r).edges[q].target == Removed(g, r).edges[p].target {
      RemovedLiveAt(g, r, q);
      KeptUnique(g, c[p], c[q]);
      assert r.mapping[c[p]] == p && r.mapping[c[q]] == q;
    }
  }

  /** Of the live edges from one head to another, that of smallest id, counting both directions, stays. */
  lemma SmallestIdStays(g: Graph, r: Removal, x: nat)
    requires RemovalOk(g, r) && Removed(g, r).Shape() && x < |g.edges| && g.Live(x)
    ensures r.mapping[x] < |g.edges| && Contents(g, r.slots)[r.mapping[x]] == x
    ensures Removed(g, r).Live(r.mapping[x]) <==>
            g.edges[x].source != g.edges[x].target
            && forall y: nat {:trigger UniqueId(g, y)} :: y < |g.edges| && g.Live(y) && g.edges[y].source == g.edges[x].source && g.edges[y].target == g.edges[x].target ==>
                 UniqueId(g, x) <= UniqueId(g, y)
  {
    RemovedLiveAt(g, r, r.mapping[x]);
    assert g.EdgeOk(x);
    forall y: nat | y < |g.edges| && g.Live(y) ensures g.edges[y].source == g.Head(y) {
      assert g.EdgeOk(y);
    }
    if Kept(g, x) {
      forall y: nat | y < |g.edges| && g.Live(y) && g.edges[y].source == g.edges[x].source && g.edges[y].target == g.edges[x].target
        ensures UniqueId(g, x) <= UniqueId(g, y)
      {
        assert Parallel(g, x, y);
      }
    }
  }

  lemma RemovedDegrees(g: Graph, r: Removal)
    requires RemovalOk(g, r) && g.DegreesOk() && Removed(g, r).Shape()
    ensures Removed(g, r).DegreesOk()
  {
    forall h: nat | h < |g.rep| && g.isHead[h] ensures Removed(g, r).degree[h] == |Removed(g, r).LiveOf(h)| {
      RemovedDegree(g, r, h);
    }
  }

  ghost function KeptOf(g: Graph, h: nat): set<nat>
    requires g.Shape()
  {
    set x: nat | x < |g.edges| && Kept(g, x) && g.Head(x) == h
  }

  lemma RemovedDegree(g: Graph, r: Removal, h: nat)
    requires RemovalOk(g, r) && g.DegreesOk() && Removed(g, r).Shape() && h < |g.rep| && g.isHead[h]
    ensures Removed(g, r).degree[h] == |Removed(g, r).LiveOf(h)|
  {
    var c, g' := Contents(g, r.slots), Removed(g, r);
    assert g.LiveOf(h) == KeptOf(g, h) + RemovedLive(g, h);
    assert KeptOf(g, h) !! RemovedLive(g, h);
    forall p: nat | p < |g.edges| ensures p in g'.LiveOf(h) <==> c[p] in KeptOf(g, h) {
      RemovedLiveAt(g, r, p);
    }
    ImageSize(g'.LiveOf(h), KeptOf(g, h), c, r.mapping);
  }

  // ---------- The weight between two heads ----------

  /** The removal leaves the total weight from any head to any other unchanged. */
  lemma WeightConserved(g: Graph, r: Removal, h: nat, t: nat)
    requires RemovalOk(g, r) && Removed(g, r).Shape()
    ensures Sum(PairColumn(Removed(g, r), h, t)) == Sum(PairColumn(g, h, t))
  {
    var before, after := PairColumn(g, h, t), PairColumn(Removed(g, r), h, t);
    if k: nat :| Kept(g, k) && g.Head(k) == h && g.edges[k].target == t {
      PairWeight(g, k);
      WeightAtRepresentative(g, r.dups, r.marked, k);
      KeptCarriesAll(g, r, k);
    } else {
      forall x: nat | x < |before| ensures before[x] == 0 && after[x] == 0 {
        NothingBetween(g, r, h, t, x);
      }
      SumZero(before);
      SumZero(after);
    }
  }

  /** After the removal the kept edge is the only one of its pair, and it carries its marked weight. */
  lemma KeptCarriesAll(g: Graph, r: Removal, k: nat)
    requires RemovalOk(g, r) && Removed(g, r).Shape() && Kept(g, k)
    ensures Sum(PairColumn(Removed(g, r), g.Head(k), g.edges[k].target)) == r.marked[k].weight
  {
    var g', h, t, q := Removed(g, r), g.Head(k), g.edges[k].target, r.mapping[k];
    var column := PairColumn(g', h, t);
    RemovedLiveAt(g, r, q);
    RemovedIsSimple(g, r, q, q);
    assert column[q] == PairShare(g', h, t, q) == r.marked[k].weight;
    forall p: nat | p < |column| && p != q ensures column[p] == 0 {
      assert column[p] == PairShare(g', h, t, p);
      RemovedIsSimple(g, r, q, p);
    }
    SingleTerm(column, q);
  }

  lemma NothingBetween(g: Graph, r: Removal, h: nat, t: nat, x: nat)
    requires RemovalOk(g, r) && Removed(g, r).Shape() && x < |g.edges|
    requires forall k: nat :: Kept(g, k) ==> g.Head(k) != h || g.edges[k].target != t
    ensures PairColumn(g, h, t)[x] == 0 && PairColumn(Removed(g, r), h, t)[x] == 0
  {
    RemovedLiveAt(g, r, x);
    assert PairColumn(g, h, t)[x] == PairShare(g, h, t, x) && PairColumn(Removed(g, r), h, t)[x] == PairShare(Removed(g, r), h, t, x);
    assert x in r.dups ==> RepresentativeOk(g, x, r.marked[x].source);
    assert Crossing(g, x) ==> Kept(g, x) || Duplicate(g, x);
  }
}
