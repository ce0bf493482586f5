/** The graph that the dynamic adjacency array stores, contracted and uncontracted. */
module QuotientGraph {
  import opened Chains

  // Every node owns a slice of edge ids. The slices of contracted nodes stay where they are and are chained to
  // the circle of their representative.

  datatype Edge = Edge(source: nat, target: nat, weight: int, back: nat) {
    predicate IsSinglePin() { source == target }
    predicate IsValid() { target != INVALID }
  }

  ghost predicate InSlice(first: seq<nat>, last: seq<nat>, w: nat, x: nat) {
    w < |first| && w < |last| && first[w] <= x < last[w]
  }

  /** `owner[x]` is the node whose slice holds edge id x, `rep[w]` the head of the circle of w. For a
      head `circ` is its circle, for a contracted node the circle it had when it was contracted. */
  datatype Graph = Graph(first: seq<nat>, last: seq<nat>, owner: seq<nat>, active: seq<nat>, edges: seq<Edge>,
                         degree: seq<int>, isHead: seq<bool>, rep: seq<nat>, circ: seq<seq<nat>>) {
    ghost predicate Shape() {
      && |first| == |last| == |active| == |degree| == |isHead| == |rep| == |circ| <= INVALID
      && |owner| == |edges|
      && (forall w :: 0 <= w < |first| ==> first[w] <= active[w] <= last[w] <= |edges|)
      && (forall x :: 0 <= x < |owner| ==> owner[x] < |first|)
      && (forall w: nat, x: nat {:trigger InSlice(first, last, w, x)} :: w < |first| && x < |edges| ==> (InSlice(first, last, w, x) <==> owner[x] == w))
    }

    predicate Active(x: nat)
      requires x < |owner| && owner[x] < |active|
    {
      active[owner[x]] <= x
    }

    /** Active and not disabled. */
    ghost predicate Live(x: nat)
      requires Shape()
    {
      x < |edges| && Active(x) && edges[x].IsValid()
    }

    function Head(x: nat): nat
      requires x < |owner| && owner[x] < |rep|
    {
      rep[owner[x]]
    }

    function Chain(): Chains {
      Chains(isHead, rep, circ)
    }

    function With(c: Chains): Graph {
      this.(isHead := c.isHead, rep := c.rep, circ := c.circ)
    }

    ghost predicate CircleOk(h: nat)
      requires Shape() && h < |rep|
    {
      Chain().CircleOk(h)
    }

    ghost predicate Circles()
      requires Shape()
    {
      Chain().Valid()
    }

    ghost predicate BackOk(x: nat)
      requires x < |edges|
    {
      edges[x].back < |edges| && edges[x].back != x && edges[edges[x].back].back == x
    }

    /** Back edges are an involution, on removed edges too. */
    ghost predicate Involution() {
      forall x: nat {:trigger BackOk(x)} :: x < |edges| ==> BackOk(x)
    }

    /** A live edge starts at the head of its list and ends where its back edge starts. A disabled one
        keeps the contracted node at whose contraction it lost its second end. */
    ghost predicate EdgeOk(x: nat)
      requires Shape() && x < |edges|
    {
      && (Live(x) ==>
            && edges[x].source == Head(x) < |rep|
            && Live(edges[x].back) && edges[x].target == Head(edges[x].back))
      && (Active(x) && !Live(x) ==>
            edges[x].source < |rep| && !isHead[edges[x].source] && rep[edges[x].source] == Head(x))
    }

    ghost predicate Consistent()
      requires Shape()
    {
      && Circles() && Involution()
      && forall x: nat {:trigger EdgeOk(x)} :: x < |edges| ==> EdgeOk(x)
    }

    ghost predicate Valid() {
      Shape() && Consistent()
    }

    ghost function LiveOf(h: nat): set<nat>
      requires Shape()
    {
      set x: nat | x < |edges| && Live(x) && Head(x) == h
    }

    ghost function LoopsOf(h: nat): set<nat>
      requires Shape()
    {
      set x: nat | x < |edges| && Live(x) && edges[x].source == h && edges[x].target == h
    }

    /** The degree of a head is the number of its live edges. */
    ghost predicate DegreesOk()
      requires Shape()
    {
      forall h: nat :: h < |rep| && isHead[h] ==> degree[h] == |LiveOf(h)|
    }
  }

  // ---------- Contraction ----------

  function ContractedEdge(g: Graph, u: nat, v: nat, x: nat): Edge
    requires g.Shape() && x < |g.edges|
  {
    var e := g.edges[x];
    if !g.Active(x) || !e.IsValid() then e
    else if e.source == v && e.target == v then e.(target := INVALID)
    else e.(source := Renamed(e.source, v, u), target := Renamed(e.target, v, u))
  }

  ghost predicate CanContract(g: Graph, u: nat, v: nat) {
    g.Valid() && u < |g.rep| && v < |g.rep| && u != v && g.isHead[u] && g.isHead[v]
  }

  ghost function Contracted(g: Graph, u: nat, v: nat): Graph
    requires CanContract(g, u, v)
  {
    var dv := g.degree[v] - |g.LoopsOf(v)|;
    g.With(Appended(g.Chain(), u, v)).(
      edges := seq(|g.edges|, x requires 0 <= x < |g.edges| => ContractedEdge(g, u, v, x)),
      degree := g.degree[v := dv][u := g.degree[u] + dv])
  }

  lemma ContractedShape(g: Graph, u: nat, v: nat)
    requires CanContract(g, u, v)
    ensures Contracted(g, u, v).Shape()
  {
  }

  lemma ContractedEdgeOk(g: Graph, u: nat, v: nat, x: nat)
    requires CanContract(g, u, v) && Contracted(g, u, v).Shape() && x < |g.edges|
    ensures Contracted(g, u, v).EdgeOk(x) && Contracted(g, u, v).BackOk(x)
  {
    assert g.EdgeOk(x) && g.BackOk(x) && g.CircleOk(v);
    var y := g.edges[x].back;
    assert g.EdgeOk(y) && g.BackOk(y);
  }

  /** The invariant of the array survives every contraction. */
  lemma ContractedValid(g: Graph, u: nat, v: nat)
    requires CanContract(g, u, v)
    ensures Contracted(g, u, v).Valid()
  {
    var g' := Contracted(g, u, v);
    ContractedShape(g, u, v);
    AppendedValid(g.Chain(), u, v);
    assert g'.Chain() == Appended(g.Chain(), u, v);
    forall x: nat | x < |g.edges| ensures g'.EdgeOk(x) && g'.BackOk(x) {
      ContractedEdgeOk(g, u, v, x);
    }
  }

  lemma ContractedLive(g: Graph, u: nat, v: nat, x: nat)
    requires CanContract(g, u, v) && Contracted(g, u, v).Shape() && x < |g.edges|
    ensures Contracted(g, u, v).Live(x) <==> g.Live(x) && x !in g.LoopsOf(v)
    ensures Contracted(g, u, v).Head(x) == Renamed(g.Head(x), v, u)
  {
    assert g.EdgeOk(x);
  }

  lemma ContractedLiveOf(g: Graph, u: nat, v: nat)
    requires CanContract(g, u, v) && Contracted(g, u, v).Shape()
    ensures Contracted(g, u, v).LiveOf(u) == g.LiveOf(u) + (g.LiveOf(v) - g.LoopsOf(v))
    ensures g.LoopsOf(v) <= g.LiveOf(v) && g.LiveOf(u) !! g.LiveOf(v)
    ensures forall h: nat :: h != u && h != v ==> Contracted(g, u, v).LiveOf(h) == g.LiveOf(h)
  {
    var g' := Contracted(g, u, v);
    forall x: nat | x < |g.edges|
      ensures g'.Live(x) <==> g.Live(x) && x !in g.LoopsOf(v)
      ensures g'.Head(x) == Renamed(g.Head(x), v, u)
      ensures x in g.LoopsOf(v) ==> g.Live(x) && g.Head(x) == v
    {
      ContractedLive(g, u, v, x);
      assert g.EdgeOk(x);
    }
  }

  /** Degrees go on counting live edges. */
  lemma ContractedDegrees(g: Graph, u: nat, v: nat)
    requires CanContract(g, u, v) && g.DegreesOk() && Contracted(g, u, v).Shape()
    ensures Contracted(g, u, v).DegreesOk()
  {
    ContractedLiveOf(g, u, v);
    var g' := Contracted(g, u, v);
    assert |g'.LiveOf(u)| == |g.LiveOf(u)| + |g.LiveOf(v) - g.LoopsOf(v)|;
    assert |g.LiveOf(v) - g.LoopsOf(v)| == |g.LiveOf(v)| - |g.LoopsOf(v)|;
  }

  // ---------- Uncontraction ----------

  /** x is an active edge in a list that goes back to v. */
  ghost predicate Returning(g: Graph, v: nat, x: nat)
    requires g.Shape() && v < |g.circ|
  {
    x < |g.edges| && g.Active(x) && g.owner[x] in g.circ[v]
  }

  ghost function UncontractedEdge(g: Graph, u: nat, v: nat, x: nat): Edge
    requires g.Shape() && v < |g.circ| && x < |g.edges|
  {
    var e := g.edges[x];
    if Returning(g, v, x) then
      if e.source == u then e.(source := v)
      else if e.source == v then e.(target := v)
      else e
    else if Returning(g, v, e.back) && g.edges[e.back].source == u then e.(target := v)
    else e
  }

  /** Edges that the uncontraction of v enables again. */
  ghost function DisabledAt(g: Graph, v: nat): set<nat>
    requires g.Shape() && v < |g.circ|
  {
    set x: nat | x < |g.edges| && Returning(g, v, x) && g.edges[x].source == v
  }

  ghost predicate ReturnOk(g: Graph, u: nat, v: nat, x: nat)
    requires g.Shape() && v < |g.circ| && g.Involution()
  {
    Returning(g, v, x) && g.edges[x].source == u ==> g.BackOk(x) && !Returning(g, v, g.edges[x].back)
  }

  /** No edge returns together with its back edge unless it was disabled by an earlier contraction. */
  ghost predicate EdgesReturnable(g: Graph, u: nat, v: nat) {
    && g.Shape() && g.Involution() && u < |g.rep| && v < |g.rep| && u != v
    && forall x: nat {:trigger ReturnOk(g, u, v, x)} :: x < |g.edges| ==> ReturnOk(g, u, v, x)
  }

  /** v is a contracted node whose former circle is a stretch of the circle of u, starting at p. */
  ghost predicate CanUncontract(g: Graph, u: nat, v: nat, p: nat) {
    && EdgesReturnable(g, u, v) && g.Circles()
    && g.isHead[u] && g.rep[v] == u
    && g.circ[v] != [] && g.circ[v][0] == v
    && IsSegment(g.Chain(), u, v, p)
  }

  ghost function Uncontracted(g: Graph, u: nat, v: nat, p: nat): Graph
    requires CanUncontract(g, u, v, p)
  {
    g.With(Spliced(g.Chain(), u, v, p)).(
      edges := seq(|g.edges|, x requires 0 <= x < |g.edges| => UncontractedEdge(g, u, v, x)),
      degree := g.degree[u := g.degree[u] - g.degree[v]][v := g.degree[v] + |DisabledAt(g, v)|])
  }

  lemma ContractedReturning(g: Graph, u: nat, v: nat, x: nat)
    requires CanContract(g, u, v) && Contracted(g, u, v).Shape() && x < |g.edges|
    ensures Returning(Contracted(g, u, v), v, x) <==> g.Active(x) && g.Head(x) == v
  {
    assert g.CircleOk(v) && g.CircleOk(u);
  }

  lemma EdgeReturns(g: Graph, u: nat, v: nat, x: nat)
    requires CanContract(g, u, v) && Contracted(g, u, v).Valid() && x < |g.edges|
    ensures UncontractedEdge(Contracted(g, u, v), u, v, x) == g.edges[x]
    ensures ReturnOk(Contracted(g, u, v), u, v, x)
  {
    var y := g.edges[x].back;
    assert g.EdgeOk(x) && g.BackOk(x) && Contracted(g, u, v).BackOk(x);
    ContractedReturning(g, u, v, x);
    assert g.EdgeOk(y) && g.BackOk(y);
    ContractedReturning(g, u, v, y);
  }

  lemma EdgesReturn(g: Graph, u: nat, v: nat)
    requires CanContract(g, u, v) && Contracted(g, u, v).Valid()
    ensures forall x: nat {:trigger ReturnOk(Contracted(g, u, v), u, v, x)} :: x < |g.edges| ==> ReturnOk(Contracted(g, u, v), u, v, x)
    ensures forall x: nat :: x < |g.edges| ==> UncontractedEdge(Contracted(g, u, v), u, v, x) == g.edges[x]
  {
    forall x: nat | x < |g.edges|
      ensures UncontractedEdge(Contracted(g, u, v), u, v, x) == g.edges[x] && ReturnOk(Contracted(g, u, v), u, v, x)
    {
      EdgeReturns(g, u, v, x);
    }
  }

  lemma DisabledReturn(g: Graph, u: nat, v: nat)
    requires CanContract(g, u, v) && Contracted(g, u, v).Valid()
    ensures DisabledAt(Contracted(g, u, v), v) == g.LoopsOf(v)
  {
    forall x: nat | x < |g.edges|
      ensures x in DisabledAt(Contracted(g, u, v), v) <==> x in g.LoopsOf(v)
    {
      ContractedReturning(g, u, v, x);
      assert g.EdgeOk(x);
    }
  }

  /** A contraction can always be undone at the end of the circle of u, and undoing it gives back the
      graph as it was: edges, degrees, heads, representatives and circles. */
  lemma UncontractRestores(g: Graph, u: nat, v: nat)
    requires CanContract(g, u, v)
    ensures CanUncontract(Contracted(g, u, v), u, v, |g.circ[u]|)
    ensures Uncontracted(Contracted(g, u, v), u, v, |g.circ[u]|) == g
  {
    UndoPossible(g, u, v);
    EdgesAreBack(g, u, v);
    DegreesAreBack(g, u, v);
    ChainIsBack(g, u, v);
  }

  lemma UndoPossible(g: Graph, u: nat, v: nat)
    requires CanContract(g, u, v)
    ensures CanUncontract(Contracted(g, u, v), u, v, |g.circ[u]|)
  {
    ContractedValid(g, u, v);
    assert g.CircleOk(u) && g.CircleOk(v);
    EdgesReturn(g, u, v);
    SplicedUndoesAppended(g.Chain(), u, v);
  }

  lemma EdgesAreBack(g: Graph, u: nat, v: nat)
    requires CanContract(g, u, v) && CanUncontract(Contracted(g, u, v), u, v, |g.circ[u]|)
    ensures Uncontracted(Contracted(g, u, v), u, v, |g.circ[u]|).edges == g.edges
  {
    ContractedValid(g, u, v);
    EdgesReturn(g, u, v);
  }

  lemma DegreesAreBack(g: Graph, u: nat, v: nat)
    requires CanContract(g, u, v) && CanUncontract(Contracted(g, u, v), u, v, |g.circ[u]|)
    ensures Uncontracted(Contracted(g, u, v), u, v, |g.circ[u]|).degree == g.degree
  {
    ContractedValid(g, u, v);
    DisabledReturn(g, u, v);
  }

  lemma ChainIsBack(g: Graph, u: nat, v: nat)
    requires CanContract(g, u, v) && CanUncontract(Contracted(g, u, v), u, v, |g.circ[u]|)
    ensures Uncontracted(Contracted(g, u, v), u, v, |g.circ[u]|).Chain() == g.Chain()
  {
    SplicedUndoesAppended(g.Chain(), u, v);
  }

  /** The edges that an uncontraction reports: those that start at u and go back to v. Loops of u are the edges
      that join u and v from now on. */
  ghost function ReportSet(g: Graph, u: nat, v: nat, loops: bool): set<nat>
    requires g.Shape() && v < |g.circ|
  {
    set x: nat | x < |g.edges| && Returning(g, v, x) && g.edges[x].source == u && (g.edges[x].target == u) == loops
  }

  /** Right after a contraction these are the edges from v to u, and the edges from v to other heads. */
  lemma UncontractReports(g: Graph, u: nat, v: nat)
    requires CanContract(g, u, v) && Contracted(g, u, v).Shape()
    ensures ReportSet(Contracted(g, u, v), u, v, true) == set x: nat | x < |g.edges| && g.Live(x) && g.Head(x) == v && g.edges[x].target == u
    ensures ReportSet(Contracted(g, u, v), u, v, false) == set x: nat | x < |g.edges| && g.Live(x) && g.Head(x) == v && g.edges[x].target != u && g.edges[x].target != v
  {
    forall x: nat | x < |g.edges|
      ensures x in ReportSet(Contracted(g, u, v), u, v, true) <==> g.Live(x) && g.Head(x) == v && g.edges[x].target == u
      ensures x in ReportSet(Contracted(g, u, v), u, v, false) <==> g.Live(x) && g.Head(x) == v && g.edges[x].target != u && g.edges[x].target != v
    {
      ContractedReturning(g, u, v, x);
      assert g.EdgeOk(x);
    }
  }

  // ---------- The quotient of the original graph ----------

  /** Every node is alone, and edge x joins the owners of x and of its back edge. */
  ghost predicate Fresh(g: Graph) {
    && g.Valid() && g.DegreesOk() && g.active == g.first
    && (forall w: nat :: w < |g.rep| ==> g.rep[w] == w)
    && (forall x: nat :: x < |g.edges| ==> g.edges[x].IsValid() && !g.edges[x].IsSinglePin())
  }

  /** Edge x of g is edge x of the original graph with both ends replaced by their representatives.
      Edges inside a cluster are single-pin edges of its head, or disabled. */
  ghost predicate IsQuotientEdge(e0: Edge, g: Graph, x: nat)
    requires x < |g.edges|
  {
    var e := g.edges[x];
    && e.weight == e0.weight && e.back == e0.back && e0.source < |g.rep| && e0.target < |g.rep|
    && var s, t := g.rep[e0.source], g.rep[e0.target];
    && (s != t ==> e.source == s && e.target == t)
    && (s == t ==> (e.source == s && e.target == s) || (e.target == INVALID && e.source < |g.rep| && g.rep[e.source] == s))
  }

  ghost predicate IsQuotient(g0: Graph, g: Graph) {
    && Fresh(g0) && g.Valid() && g.DegreesOk() && |g.edges| == |g0.edges| && |g.rep| == |g0.rep|
    && g.active == g0.active && g.first == g0.first && g.last == g0.last && g.owner == g0.owner
    && forall x: nat {:trigger IsQuotientEdge(g0.edges[x], g, x)} :: x < |g.edges| ==> IsQuotientEdge(g0.edges[x], g, x)
  }

  lemma QuotientEdgeKept(e0: Edge, g: Graph, u: nat, v: nat, x: nat)
    requires CanContract(g, u, v) && x < |g.edges| && g.Active(x) && IsQuotientEdge(e0, g, x)
    ensures IsQuotientEdge(e0, Contracted(g, u, v), x)
  {
    assert g.EdgeOk(x) && g.CircleOk(v) && g.CircleOk(e0.source) && g.CircleOk(e0.target);
  }

  ghost predicate RunOk(g: Graph, pairs: seq<(nat, nat)>)
    decreases |pairs|
  {
    pairs == [] || (CanContract(g, pairs[0].0, pairs[0].1) && RunOk(Contracted(g, pairs[0].0, pairs[0].1), pairs[1..]))
  }

  /** The graph after the pairs are contracted one after the other. */
  ghost function After(g: Graph, pairs: seq<(nat, nat)>): Graph
    requires RunOk(g, pairs)
    decreases |pairs|
  {
    if pairs == [] then g else After(Contracted(g, pairs[0].0, pairs[0].1), pairs[1..])
  }

  lemma FreshIsQuotient(g0: Graph)
    requires Fresh(g0)
    ensures IsQuotient(g0, g0)
  {
    forall x: nat | x < |g0.edges| ensures IsQuotientEdge(g0.edges[x], g0, x) {
      assert InSlice(g0.first, g0.last, g0.owner[x], x);
      assert g0.EdgeOk(x) && g0.EdgeOk(g0.edges[x].back);
    }
  }

  lemma QuotientKept(g0: Graph, g: Graph, u: nat, v: nat)
    requires IsQuotient(g0, g) && CanContract(g, u, v)
    ensures IsQuotient(g0, Contracted(g, u, v))
  {
    ContractedValid(g, u, v);
    ContractedDegrees(g, u, v);
    forall x: nat | x < |g.edges| ensures IsQuotientEdge(g0.edges[x], Contracted(g, u, v), x) {
      assert InSlice(g0.first, g0.last, g0.owner[x], x);
      QuotientEdgeKept(g0.edges[x], g, u, v, x);
    }
  }

  lemma {:induction false} QuotientAfter(g0: Graph, g: Graph, pairs: seq<(nat, nat)>)
    requires IsQuotient(g0, g) && RunOk(g, pairs)
    ensures IsQuotient(g0, After(g, pairs))
    decreases |pairs|
  {
    if pairs != [] {
      QuotientKept(g0, g, pairs[0].0, pairs[0].1);
      QuotientAfter(g0, Contracted(g, pairs[0].0, pairs[0].1), pairs[1..]);
    }
  }

  /** After any sequence of contractions the array holds the quotient of the original graph. */
  lemma RunIsQuotient(g0: Graph, pairs: seq<(nat, nat)>)
    requires Fresh(g0) && RunOk(g0, pairs)
    ensures IsQuotient(g0, After(g0, pairs))
  {
    FreshIsQuotient(g0);
    QuotientAfter(g0, g0, pairs);
  }

  /** The circle of a head is its cluster, its degree the number of its live edges, and every edge that
      leaves the cluster is one of them. */
  lemma QuotientCircle(g0: Graph, g: Graph, h: nat, x: nat)
    requires IsQuotient(g0, g) && h < |g.rep| && g.isHead[h] && x < |g.edges|
    ensures forall w: nat :: w in g.circ[h] <==> w < |g.rep| && g.rep[w] == h
    ensures g.degree[h] == |g.LiveOf(h)|
    ensures g0.edges[x].source < |g.rep| && g0.edges[x].target < |g.rep|
    ensures g.rep[g0.edges[x].source] == h && g.rep[g0.edges[x].target] != h ==> x in g.LiveOf(h)
  {
    assert InSlice(g0.first, g0.last, g0.owner[x], x);
    assert g.CircleOk(h) && IsQuotientEdge(g0.edges[x], g, x) && g0.EdgeOk(x);
    assert g.CircleOk(g0.edges[x].target) && g.EdgeOk(x);
  }
}
