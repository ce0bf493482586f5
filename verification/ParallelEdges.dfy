/** Removing single-pin and parallel edges.

    Which edges go, what the removed ones remember, and how the ids are permuted so that the removed edges of
    every slice come first. */
module ParallelEdges {
  import opened QuotientGraph
  import opened Sums

  // ---------- Which edges are removed ----------

  function UniqueId(g: Graph, x: nat): nat
    requires x < |g.edges|
  {
    if x < g.edges[x].back then x else g.edges[x].back
  }

  /** Live and not single-pin. */
  ghost predicate Crossing(g: Graph, x: nat)
    requires g.Shape()
  {
    g.Live(x) && !g.edges[x].IsSinglePin()
  }

  /** x and y are parallel: both crossing, from the same head to the same target. */
  ghost predicate Parallel(g: Graph, x: nat, y: nat)
    requires g.Shape()
  {
    Crossing(g, x) && Crossing(g, y) && g.Head(x) == g.Head(y) && g.edges[x].target == g.edges[y].target
  }

  /** x has the smallest unique id among its parallel edges. */
  ghost predicate Kept(g: Graph, x: nat)
    requires g.Shape()
  {
    Crossing(g, x) && forall y: nat {:trigger Parallel(g, x, y)} :: Parallel(g, x, y) ==> UniqueId(g, x) <= UniqueId(g, y)
  }

  ghost predicate Duplicate(g: Graph, x: nat)
    requires g.Shape()
  {
    Crossing(g, x) && !Kept(g, x)
  }

  /** At most one edge per ordered pair of heads is kept. */
  lemma KeptUnique(g: Graph, x: nat, y: nat)
    requires g.Valid() && Kept(g, x) && Kept(g, y) && Parallel(g, x, y)
    ensures x == y
  {
    assert Parallel(g, y, x);
    assert g.EdgeOk(x) && g.EdgeOk(y) && g.BackOk(x) && g.BackOk(y);
  }

  /** The kept edges are closed under back edges. */
  lemma KeptClosed(g: Graph, x: nat)
    requires g.Valid() && Kept(g, x)
    ensures Kept(g, g.edges[x].back)
  {
    var b := g.edges[x].back;
    assert g.EdgeOk(x) && g.BackOk(x) && g.BackOk(b) && g.EdgeOk(b);
    forall y: nat | Parallel(g, b, y) ensures UniqueId(g, b) <= UniqueId(g, y) {
      assert g.EdgeOk(y) && g.BackOk(y);
      var c := g.edges[y].back;
      assert g.EdgeOk(c) && g.BackOk(c);
      assert Parallel(g, x, c);
    }
  }

  // ---------- What marking does ----------

  /** The weights absorbed by x from those among the duplicates `dups` that name x. */
  ghost function AbsorbedColumn(original: seq<Edge>, dups: set<nat>, edges: seq<Edge>, x: nat): seq<int>
    requires |edges| == |original|
  {
    seq(|edges|, y requires 0 <= y < |edges| => if y in dups && edges[y].source == x then original[y].weight else 0)
  }

  ghost predicate RepresentativeOk(g: Graph, x: nat, r: nat)
    requires g.Shape()
  {
    Duplicate(g, x) && Kept(g, r) && Parallel(g, r, x)
  }

  /** State of edge x when the duplicates `dups` have been dealt with: such a duplicate names its
      representative in the source field, a kept edge has absorbed the weights of those that name it. */
  ghost predicate MarkedAt(original: seq<Edge>, dups: set<nat>, edges: seq<Edge>, x: nat)
    requires x < |edges| == |original|
  {
    var e0, e := original[x], edges[x];
    && e.target == e0.target
    && e.weight == e0.weight + Sum(AbsorbedColumn(original, dups, edges, x))
    && (x !in dups ==> e.source == e0.source)
  }

  ghost predicate Marked(g: Graph, dups: set<nat>, edges: seq<Edge>) {
    && g.Valid() && |edges| == |g.edges|
    && (forall x: nat :: x in dups ==> x < |edges| && RepresentativeOk(g, x, edges[x].source))
    && forall x: nat {:trigger MarkedAt(g.edges, dups, edges, x)} :: x < |edges| ==> MarkedAt(g.edges, dups, edges, x)
  }

  /** Only kept edges absorb weight. */
  lemma OthersKeepWeight(g: Graph, dups: set<nat>, edges: seq<Edge>, x: nat)
    requires Marked(g, dups, edges) && x < |edges| && !Kept(g, x)
    ensures edges[x].weight == g.edges[x].weight
  {
    assert MarkedAt(g.edges, dups, edges, x);
    SumZero(AbsorbedColumn(g.edges, dups, edges, x));
  }

  lemma NothingMarked(g: Graph, edges: seq<Edge>)
    requires g.Valid() && |edges| == |g.edges|
    requires forall x: nat :: x < |edges| ==> edges[x].(back := 0) == g.edges[x].(back := 0)
    ensures Marked(g, {}, edges)
  {
    forall x: nat | x < |edges| ensures MarkedAt(g.edges, {}, edges, x) {
      assert edges[x].(back := 0) == g.edges[x].(back := 0);
      SumZero(AbsorbedColumn(g.edges, {}, edges, x));
    }
  }

  lemma NoneLeftMarked(g: Graph, edges: seq<Edge>, x: nat)
    requires Marked(g, {}, edges) && x < |edges|
    ensures edges[x].(back := 0) == g.edges[x].(back := 0)
  {
    assert MarkedAt(g.edges, {}, edges, x);
    SumZero(AbsorbedColumn(g.edges, {}, edges, x));
  }

  /** The edges after duplicate x named its representative r and gave its weight to r. */
  function MarkDuplicate(edges: seq<Edge>, x: nat, r: nat): (s: seq<Edge>)
    requires x < |edges| && r < |edges|
    ensures |s| == |edges|
  {
    var named := edges[x := edges[x].(source := r)];
    named[r := named[r].(weight := named[r].weight + named[x].weight)]
  }

  /** ... and the way back: the weight is taken from the representative, the source is the head again. */
  function UnmarkDuplicate(edges: seq<Edge>, x: nat, h: nat): (s: seq<Edge>)
    requires x < |edges| && edges[x].source < |edges|
    ensures |s| == |edges|
  {
    var r := edges[x].source;
    var taken := edges[r := edges[r].(weight := edges[r].weight - edges[x].weight)];
    taken[x := taken[x].(source := h)]
  }

  lemma MarkAt(original: seq<Edge>, dups: set<nat>, edges: seq<Edge>, x: nat, r: nat, z: nat)
    requires |edges| == |original| && x < |edges| && r < |edges| && r != x && x !in dups && r !in dups
    requires edges[x].weight == original[x].weight && z < |edges| && MarkedAt(original, dups, edges, z)
    ensures MarkedAt(original, dups + {x}, MarkDuplicate(edges, x, r), z)
  {
    var edges' := MarkDuplicate(edges, x, r);
    var col, col' := AbsorbedColumn(original, dups, edges, z), AbsorbedColumn(original, dups + {x}, edges', z);
    if z == r {
      SumUpdate(col, x, original[x].weight);
      assert col' == col[x := original[x].weight];
    } else {
      assert col' == col;
    }
  }

  /** Marking one more duplicate. */
  lemma MarkKeepsTheRest(g: Graph, dups: set<nat>, edges: seq<Edge>, x: nat, r: nat)
    requires Marked(g, dups, edges) && x !in dups && RepresentativeOk(g, x, r)
    ensures Marked(g, dups + {x}, MarkDuplicate(edges, x, r))
  {
    OthersKeepWeight(g, dups, edges, x);
    assert r !in dups;
    forall z: nat | z < |edges| ensures MarkedAt(g.edges, dups + {x}, MarkDuplicate(edges, x, r), z) {
      assert MarkedAt(g.edges, dups, edges, z);
      MarkAt(g.edges, dups, edges, x, r, z);
    }
  }

  lemma UnmarkAt(original: seq<Edge>, dups: set<nat>, edges: seq<Edge>, x: nat, z: nat)
    requires |edges| == |original| && x in dups && x < |edges| && edges[x].source < |edges| && edges[x].source != x
    requires edges[x].weight == original[x].weight && z < |edges| && MarkedAt(original, dups, edges, z)
    ensures MarkedAt(original, dups - {x}, UnmarkDuplicate(edges, x, original[x].source), z)
  {
    var edges' := UnmarkDuplicate(edges, x, original[x].source);
    var col, col' := AbsorbedColumn(original, dups, edges, z), AbsorbedColumn(original, dups - {x}, edges', z);
    if z == edges[x].source {
      SumUpdate(col, x, 0);
      assert col' == col[x := 0];
    } else {
      assert col' == col;
    }
  }

  /** Unmarking a duplicate takes back exactly what marking it did. */
  lemma UnmarkKeepsTheRest(g: Graph, dups: set<nat>, edges: seq<Edge>, x: nat)
    requires Marked(g, dups, edges) && x in dups
    ensures Kept(g, edges[x].source) && g.edges[x].source == g.Head(x)
    ensures Marked(g, dups - {x}, UnmarkDuplicate(edges, x, g.Head(x)))
  {
    OthersKeepWeight(g, dups, edges, x);
    assert g.EdgeOk(x) && RepresentativeOk(g, x, edges[x].source);
    forall z: nat | z < |edges| ensures MarkedAt(g.edges, dups - {x}, UnmarkDuplicate(edges, x, g.Head(x)), z) {
      assert MarkedAt(g.edges, dups, edges, z);
      UnmarkAt(g.edges, dups, edges, x, z);
    }
  }

  // ---------- Weights per pair of heads ----------

  ghost function ParallelShare(g: Graph, r: nat, x: nat): int
    requires g.Shape() && x < |g.edges|
  {
    if Parallel(g, r, x) then g.edges[x].weight else 0
  }

  /** Weights of the edges parallel to r. */
  ghost function ParallelColumn(g: Graph, r: nat): seq<int>
    requires g.Shape()
  {
    seq(|g.edges|, x requires 0 <= x < |g.edges| => ParallelShare(g, r, x))
  }

  ghost function PairShare(g: Graph, h: nat, t: nat, x: nat): int
    requires g.Shape() && x < |g.edges|
  {
    if Crossing(g, x) && g.Head(x) == h && g.edges[x].target == t then g.edges[x].weight else 0
  }

  /** Weights of the edges between different heads that lead from head h to head t. */
  ghost function PairColumn(g: Graph, h: nat, t: nat): seq<int>
    requires g.Shape()
  {
    seq(|g.edges|, x requires 0 <= x < |g.edges| => PairShare(g, h, t, x))
  }

  lemma PairAt(g: Graph, dups: set<nat>, edges: seq<Edge>, r: nat, x: nat)
    requires Marked(g, dups, edges) && (Duplicate(g, x) ==> x in dups) && Kept(g, r) && x < |edges|
    ensures (if Parallel(g, r, x) then g.edges[x].weight else 0) ==
            if x == r then g.edges[r].weight else AbsorbedColumn(g.edges, dups, edges, r)[x]
    ensures Parallel(g, r, x) && Kept(g, x) ==> x == r
  {
    assert MarkedAt(g.edges, dups, edges, x);
    if Parallel(g, r, x) && Kept(g, x) {
      KeptUnique(g, r, x);
    } else if Parallel(g, r, x) {
      assert Parallel(g, r, edges[x].source);
      KeptUnique(g, r, edges[x].source);
    }
  }

  /** Only one edge of the parallel edges of r is left, and it carries the weight of all of them. */
  lemma WeightAtRepresentative(g: Graph, dups: set<nat>, edges: seq<Edge>, r: nat)
    requires Marked(g, dups, edges) && (forall x: nat :: Duplicate(g, x) ==> x in dups) && Kept(g, r)
    ensures Sum(ParallelColumn(g, r)) == edges[r].weight
  {
    assert MarkedAt(g.edges, dups, edges, r);
    var all := ParallelColumn(g, r);
    var col := AbsorbedColumn(g.edges, dups, edges, r);
    forall x: nat | x < |edges| ensures all[x] == (if x == r then g.edges[r].weight else col[x]) {
      assert all[x] == ParallelShare(g, r, x);
      PairAt(g, dups, edges, r, x);
    }
    SumUpdate(col, r, g.edges[r].weight);
    assert all == col[r := g.edges[r].weight];
  }

  lemma SingleTerm(s: seq<int>, r: nat)
    requires r < |s| && forall i :: 0 <= i < |s| && i != r ==> s[i] == 0
    ensures Sum(s) == s[r]
  {
    var zeros := s[r := 0];
    SumZero(zeros);
    SumUpdate(zeros, r, s[r]);
    assert zeros[r := s[r]] == s;
  }

  /** Before the removal, the weight from h to t is that of the edges parallel to any of them. */
  lemma PairWeight(g: Graph, r: nat)
    requires g.Shape() && Crossing(g, r)
    ensures Sum(PairColumn(g, g.Head(r), g.edges[r].target))
            == Sum(ParallelColumn(g, r))
  {
    var all := ParallelColumn(g, r);
    var column := PairColumn(g, g.Head(r), g.edges[r].target);
    forall x: nat | x < |g.edges| ensures column[x] == all[x] {
      assert column[x] == PairShare(g, g.Head(r), g.edges[r].target, x) && all[x] == ParallelShare(g, r, x);
    }
    assert column == all;
  }
}
