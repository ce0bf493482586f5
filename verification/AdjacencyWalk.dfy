/** Walking over the active edges of a circle of lists.

    The effect of the single steps that the loops of the adjacency array perform on the way. */
module AdjacencyWalk {
  import opened Rings
  import opened Chains
  import opened QuotientGraph

  /** `at` gives the position of every node in c, |c| for nodes that are not in c. */
  ghost predicate Positions(c: seq<nat>, at: seq<nat>) {
    forall w: nat {:trigger PositionOk(c, at, w)} :: w < |at| ==> PositionOk(c, at, w)
  }

  ghost predicate PositionOk(c: seq<nat>, at: seq<nat>, w: nat)
    requires w < |at|
  {
    at[w] <= |c| && (w in c <==> at[w] < |c|) && (w in c ==> c[at[w]] == w)
  }

  lemma {:induction false} MakePositions(c: seq<nat>, n: nat) returns (at: seq<nat>)
    ensures |at| == n && Positions(c, at)
  {
    if n == 0 {
      at := [];
    } else {
      var before := MakePositions(c, n - 1);
      var w := n - 1;
      var k := |c|;
      if w in c {
        k :| 0 <= k < |c| && c[k] == w;
      }
      at := before + [k];
      forall x: nat | x < n ensures PositionOk(c, at, x) {
        assert x < n - 1 ==> PositionOk(c, before, x);
      }
    }
  }

  /** Active edges of the first i lists of a circle, and those of the next list below pos. */
  ghost function Visited(g: Graph, at: seq<nat>, i: nat, pos: nat): set<nat>
    requires g.Shape() && |at| == |g.first|
  {
    set x: nat | x < |g.edges| && g.Active(x) && (at[g.owner[x]] < i || (at[g.owner[x]] == i && x < pos))
  }

  /** Where the i-th list starts. */
  ghost function Start(g: Graph, c: seq<nat>, i: nat): nat
    requires g.Shape()
  {
    if i < |c| && c[i] < |g.active| then g.active[c[i]] else 0
  }

  lemma VisitNothing(g: Graph, c: seq<nat>, at: seq<nat>)
    requires g.Shape() && |at| == |g.first| && Positions(c, at) && c != [] && c[0] < |g.first|
    ensures Visited(g, at, 0, Start(g, c, 0)) == {}
  {
    forall x: nat | x < |g.edges| && at[g.owner[x]] == 0 ensures g.owner[x] == c[0] {
      assert PositionOk(c, at, g.owner[x]);
    }
  }

  lemma VisitEdge(g: Graph, c: seq<nat>, at: seq<nat>, i: nat, pos: nat)
    requires g.Shape() && |at| == |g.first| && Positions(c, at)
    requires i < |c| && Distinct(c) && c[i] < |g.first| && g.active[c[i]] <= pos < g.last[c[i]]
    ensures pos !in Visited(g, at, i, pos) && pos < |g.edges| && g.owner[pos] == c[i] && g.Active(pos)
    ensures Visited(g, at, i, pos + 1) == Visited(g, at, i, pos) + {pos}
  {
    assert InSlice(g.first, g.last, c[i], pos);
    assert PositionOk(c, at, c[i]);
    forall x: nat | x < |g.edges| && at[g.owner[x]] == i ensures g.owner[x] == c[i] {
      assert PositionOk(c, at, g.owner[x]);
    }
  }

  lemma VisitList(g: Graph, c: seq<nat>, at: seq<nat>, i: nat)
    requires g.Shape() && |at| == |g.first| && Positions(c, at)
    requires i < |c| && Distinct(c) && (forall j :: 0 <= j < |c| ==> c[j] < |g.first|)
    ensures Visited(g, at, i, g.last[c[i]]) == Visited(g, at, i + 1, Start(g, c, i + 1))
  {
    forall x: nat | x < |g.edges|
      ensures x in Visited(g, at, i, g.last[c[i]]) <==> x in Visited(g, at, i + 1, Start(g, c, i + 1))
    {
      assert PositionOk(c, at, g.owner[x]) && InSlice(g.first, g.last, g.owner[x], x);
    }
  }

  lemma VisitedAll(g: Graph, c: seq<nat>, at: seq<nat>)
    requires g.Shape() && |at| == |g.first| && Positions(c, at)
    ensures Visited(g, at, |c|, Start(g, c, |c|)) == set x: nat | x < |g.edges| && g.Active(x) && g.owner[x] in c
  {
    forall x: nat | x < |g.edges|
      ensures x in Visited(g, at, |c|, Start(g, c, |c|)) <==> g.Active(x) && g.owner[x] in c
    {
      assert PositionOk(c, at, g.owner[x]);
    }
  }

  // ---------- Contraction, edge by edge ----------

  /** Edge x after the edges `done` of v were visited by the contraction of v into u. */
  ghost function PartlyContracted(g: Graph, u: nat, v: nat, done: set<nat>, x: nat): Edge
    requires g.Shape() && x < |g.edges|
  {
    var e := g.edges[x];
    if !g.Live(x) then e
    else if e.source == v && e.target == v then (if x in done then e.(target := INVALID) else e)
    else e.(source := if e.source == v && x in done then u else e.source,
            target := if e.target == v && e.back in done then u else e.target)
  }

  ghost predicate ContractedUpTo(g: Graph, u: nat, v: nat, done: set<nat>, edges: seq<Edge>)
    requires g.Shape()
  {
    |edges| == |g.edges| && forall x: nat {:trigger ContractedAt(g, u, v, done, edges, x)} :: x < |edges| ==> ContractedAt(g, u, v, done, edges, x)
  }

  ghost predicate ContractedAt(g: Graph, u: nat, v: nat, done: set<nat>, edges: seq<Edge>, x: nat)
    requires g.Shape() && x < |edges| == |g.edges|
  {
    edges[x] == PartlyContracted(g, u, v, done, x)
  }

  /** What the loop body of the contraction does to edge x. */
  function ContractStep(edges: seq<Edge>, u: nat, x: nat): (r: seq<Edge>)
    requires x < |edges|
    ensures |r| == |edges|
  {
    var e := edges[x];
    if e.IsValid() && e.IsSinglePin() then edges[x := e.(target := INVALID)]
    else if e.IsValid() && e.back < |edges| then
      var moved := edges[x := e.(source := u)];
      moved[e.back := moved[e.back].(target := u)]
    else edges
  }

  lemma ContractStepOk(g: Graph, u: nat, v: nat, done: set<nat>, edges: seq<Edge>, x: nat)
    requires CanContract(g, u, v) && ContractedUpTo(g, u, v, done, edges) && x !in done
    requires x < |edges| && g.Active(x) && g.Head(x) == v
    ensures ContractedUpTo(g, u, v, done + {x}, ContractStep(edges, u, x))
    ensures edges[x] == g.edges[x]
    ensures edges[x].IsValid() && edges[x].IsSinglePin() <==> x in g.LoopsOf(v)
  {
    assert g.EdgeOk(x) && g.BackOk(x) && ContractedAt(g, u, v, done, edges, x);
    var edges' := ContractStep(edges, u, x);
    assert ContractedAt(g, u, v, done, edges, g.edges[x].back);
    forall z: nat | z < |edges| ensures ContractedAt(g, u, v, done + {x}, edges', z) {
      assert ContractedAt(g, u, v, done, edges, z);
      assert g.EdgeOk(z) && g.BackOk(z);
    }
  }

  lemma ContractedAll(g: Graph, u: nat, v: nat, done: set<nat>, edges: seq<Edge>)
    requires CanContract(g, u, v) && ContractedUpTo(g, u, v, done, edges)
    requires forall x: nat :: x in done <==> x < |g.edges| && g.Active(x) && g.Head(x) == v
    ensures edges == Contracted(g, u, v).edges
  {
    forall x: nat | x < |edges| ensures edges[x] == Contracted(g, u, v).edges[x] {
      assert g.EdgeOk(x) && g.BackOk(x) && ContractedAt(g, u, v, done, edges, x);
    }
  }

  // ---------- Uncontraction, edge by edge ----------

  ghost function PartlyUncontracted(g: Graph, u: nat, v: nat, done: set<nat>, x: nat): Edge
    requires g.Shape() && x < |g.edges|
  {
    var e := g.edges[x];
    if x in done then
      if e.source == u then e.(source := v)
      else if e.source == v then e.(target := v)
      else e
    else if e.back in done && e.back < |g.edges| && g.edges[e.back].source == u then e.(target := v)
    else e
  }

  ghost predicate UncontractedUpTo(g: Graph, u: nat, v: nat, done: set<nat>, edges: seq<Edge>)
    requires g.Shape()
  {
    |edges| == |g.edges| && forall x: nat {:trigger UncontractedAt(g, u, v, done, edges, x)} :: x < |edges| ==> UncontractedAt(g, u, v, done, edges, x)
  }

  ghost predicate UncontractedAt(g: Graph, u: nat, v: nat, done: set<nat>, edges: seq<Edge>, x: nat)
    requires g.Shape() && x < |edges| == |g.edges|
  {
    edges[x] == PartlyUncontracted(g, u, v, done, x)
  }

  /** What the loop body of the uncontraction does to edge x. */
  function UncontractStep(edges: seq<Edge>, u: nat, v: nat, x: nat): (r: seq<Edge>)
    requires x < |edges|
    ensures |r| == |edges|
  {
    var e := edges[x];
    if e.source == u && e.back < |edges| then
      var moved := edges[x := e.(source := v)];
      moved[e.back := moved[e.back].(target := v)]
    else if e.source == v then edges[x := e.(target := e.source)]
    else edges
  }

  lemma UncontractStepOk(g: Graph, u: nat, v: nat, done: set<nat>, edges: seq<Edge>, x: nat)
    requires EdgesReturnable(g, u, v) && UncontractedUpTo(g, u, v, done, edges) && x !in done
    requires x < |edges| && Returning(g, v, x) && forall y: nat :: y in done ==> y < |g.edges| && Returning(g, v, y)
    ensures UncontractedUpTo(g, u, v, done + {x}, UncontractStep(edges, u, v, x))
    ensures edges[x].source == g.edges[x].source && edges[x].back == g.edges[x].back < |edges|
  {
    assert g.BackOk(x) && ReturnOk(g, u, v, x);
    var b := g.edges[x].back;
    assert ReturnOk(g, u, v, b);
    assert UncontractedAt(g, u, v, done, edges, x) && UncontractedAt(g, u, v, done, edges, b);
    var edges' := UncontractStep(edges, u, v, x);
    forall z: nat | z < |edges| ensures UncontractedAt(g, u, v, done + {x}, edges', z) {
      assert UncontractedAt(g, u, v, done, edges, z);
      assert g.BackOk(z) && ReturnOk(g, u, v, z);
    }
  }

  lemma UncontractedAll(g: Graph, u: nat, v: nat, p: nat, done: set<nat>, edges: seq<Edge>)
    requires CanUncontract(g, u, v, p) && UncontractedUpTo(g, u, v, done, edges)
    requires forall x: nat :: x in done <==> x < |g.edges| && Returning(g, v, x)
    ensures edges == Uncontracted(g, u, v, p).edges
  {
    forall x: nat | x < |edges| ensures edges[x] == Uncontracted(g, u, v, p).edges[x] {
      assert g.BackOk(x) && UncontractedAt(g, u, v, done, edges, x);
    }
  }
}
