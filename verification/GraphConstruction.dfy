/** Counting degrees and scattering the edges of a new adjacency array.

    Every edge takes the next free position in the slices of both of its ends. */
module GraphConstruction {
  import opened QuotientGraph

  datatype InputEdge = InputEdge(u: nat, v: nat, weight: int)

  /** An edge joins two different nodes below n. */
  predicate Acceptable(e: InputEdge, n: nat) {
    e.u < n && e.v < n && e.u != e.v
  }

  predicate AllAcceptable(input: seq<InputEdge>, n: nat) {
    forall j :: 0 <= j < |input| ==> Acceptable(input[j], n)
  }

  function PinsAt(e: InputEdge, w: nat): nat {
    (if e.u == w then 1 else 0) + (if e.v == w then 1 else 0)
  }

  /** How often w is an end of the first k edges. */
  function DegreeIn(input: seq<InputEdge>, w: nat, k: nat): nat
    requires k <= |input|
  {
    if k == 0 then 0 else DegreeIn(input, w, k - 1) + PinsAt(input[k - 1], w)
  }

  /** How many ends of the first k edges are nodes below w. */
  function EndsBelow(input: seq<InputEdge>, w: nat, k: nat): nat
    requires k <= |input|
  {
    if w == 0 then 0 else EndsBelow(input, w - 1, k) + DegreeIn(input, w - 1, k)
  }

  lemma {:induction false} DegreeGrows(input: seq<InputEdge>, w: nat, k: nat, m: nat)
    requires k <= m <= |input|
    ensures DegreeIn(input, w, k) <= DegreeIn(input, w, m)
    decreases m
  {
    if k < m { DegreeGrows(input, w, k, m - 1); }
  }

  lemma {:induction false} EndsGrow(input: seq<InputEdge>, w: nat, k: nat)
    requires k < |input|
    ensures EndsBelow(input, w, k + 1) == EndsBelow(input, w, k) + (if input[k].u < w then 1 else 0) + (if input[k].v < w then 1 else 0)
  {
    if w > 0 { EndsGrow(input, w - 1, k); }
  }

  lemma {:induction false} NoEnds(input: seq<InputEdge>, w: nat)
    ensures EndsBelow(input, w, 0) == 0
  {
    if w > 0 { NoEnds(input, w - 1); }
  }

  /** Every edge has two ends. */
  lemma {:induction false} TwoEndsEach(input: seq<InputEdge>, n: nat, k: nat)
    requires k <= |input| && AllAcceptable(input, n)
    ensures EndsBelow(input, n, k) == 2 * k
  {
    if k == 0 {
      NoEnds(input, n);
    } else {
      TwoEndsEach(input, n, k - 1);
      EndsGrow(input, n, k - 1);
      assert Acceptable(input[k - 1], n);
    }
  }

  lemma {:induction false} SlicesApart(input: seq<InputEdge>, w: nat, w': nat)
    requires w < w'
    ensures EndsBelow(input, w, |input|) + DegreeIn(input, w, |input|) <= EndsBelow(input, w', |input|)
    decreases w'
  {
    if w + 1 < w' { SlicesApart(input, w, w' - 1); }
  }

  // ---------- Slices ----------

  /** The node below n whose slice holds position x. */
  function OwnerOf(input: seq<InputEdge>, n: nat, x: nat): nat {
    if n == 0 then 0
    else if EndsBelow(input, n - 1, |input|) <= x then n - 1
    else OwnerOf(input, n - 1, x)
  }

  lemma {:induction false} OwnerIs(input: seq<InputEdge>, n: nat, x: nat)
    requires x < EndsBelow(input, n, |input|)
    ensures var w := OwnerOf(input, n, x); w < n && EndsBelow(input, w, |input|) <= x < EndsBelow(input, w, |input|) + DegreeIn(input, w, |input|)
  {
    if n > 0 && x < EndsBelow(input, n - 1, |input|) { OwnerIs(input, n - 1, x); }
  }

  lemma OwnerUnique(input: seq<InputEdge>, n: nat, w: nat, x: nat)
    requires w < n && EndsBelow(input, w, |input|) <= x < EndsBelow(input, w, |input|) + DegreeIn(input, w, |input|)
    ensures OwnerOf(input, n, x) == w && x < EndsBelow(input, n, |input|)
  {
    SlicesApart(input, w, n);
    OwnerIs(input, n, x);
    var o := OwnerOf(input, n, x);
    if o < w { SlicesApart(input, o, w); } else if w < o { SlicesApart(input, w, o); }
  }

  ghost function Owners(input: seq<InputEdge>, n: nat): (r: seq<nat>)
    ensures |r| == 2 * |input| && forall x: nat :: x < |r| ==> r[x] == OwnerOf(input, n, x)
  {
    seq(2 * |input|, x requires 0 <= x < 2 * |input| => OwnerOf(input, n, x))
  }

  // ---------- Scattering ----------

  /** Where the next end at node w goes after k edges. */
  function NextSlot(input: seq<InputEdge>, w: nat, k: nat): nat
    requires k <= |input|
  {
    EndsBelow(input, w, |input|) + DegreeIn(input, w, k)
  }

  ghost predicate Taken(input: seq<InputEdge>, n: nat, k: nat, x: nat)
    requires k <= |input|
  {
    x < 2 * |input| && x < NextSlot(input, OwnerOf(input, n, x), k)
  }

  /** The edge at x starts at the owner of x, and its back edge leads back from another slice. */
  ghost predicate EntryOk(input: seq<InputEdge>, n: nat, k: nat, edges: seq<Edge>, x: nat)
    requires k <= |input| && |edges| == 2 * |input|
  {
    Taken(input, n, k, x) ==>
      var e := edges[x];
      && e.source == OwnerOf(input, n, x) && e.source != e.target && e.target == OwnerOf(input, n, e.back)
      && Taken(input, n, k, e.back) && edges[e.back].back == x
  }

  /** Input edge j is stored at the two positions `at[j]`. */
  ghost predicate StoredAt(input: seq<InputEdge>, edges: seq<Edge>, at: seq<(nat, nat)>, j: nat)
    requires j < |input| && j < |at|
  {
    var (p, q), e := at[j], input[j];
    p < |edges| && q < |edges| && edges[p] == Edge(e.u, e.v, e.weight, q) && edges[q] == Edge(e.v, e.u, e.weight, p)
  }

  ghost predicate From(at: seq<(nat, nat)>, x: nat) {
    exists j :: 0 <= j < |at| && (at[j].0 == x || at[j].1 == x)
  }

  /** The first k edges are in their slices. */
  ghost predicate Scattered(input: seq<InputEdge>, n: nat, k: nat, edges: seq<Edge>, at: seq<(nat, nat)>) {
    && k == |at| <= |input| && |edges| == 2 * |input|
    && (forall x: nat {:trigger EntryOk(input, n, k, edges, x)} :: x < |edges| ==> EntryOk(input, n, k, edges, x))
    && (forall j: nat {:trigger StoredAt(input, edges, at, j)} :: j < k ==> StoredAt(input, edges, at, j))
    && (forall j: nat {:trigger at[j]} :: j < k ==> Taken(input, n, k, at[j].0) && Taken(input, n, k, at[j].1))
    && (forall x: nat {:trigger Taken(input, n, k, x)} :: Taken(input, n, k, x) ==> From(at, x))
  }

  lemma NothingScattered(input: seq<InputEdge>, n: nat, edges: seq<Edge>)
    requires |edges| == 2 * |input| && AllAcceptable(input, n)
    ensures Scattered(input, n, 0, edges, [])
  {
    TwoEndsEach(input, n, |input|);
    forall x: nat | x < |edges| ensures !Taken(input, n, 0, x) {
      OwnerIs(input, n, x);
    }
  }

  /** The places of the next edge are free and belong to its ends. */
  lemma NextPlaces(input: seq<InputEdge>, n: nat, k: nat, w: nat)
    requires k < |input| && AllAcceptable(input, n) && (w == input[k].u || w == input[k].v)
    ensures var x := NextSlot(input, w, k); x < 2 * |input| && OwnerOf(input, n, x) == w && !Taken(input, n, k, x)
  {
    assert Acceptable(input[k], n);
    DegreeGrows(input, w, k + 1, |input|);
    OwnerUnique(input, n, w, NextSlot(input, w, k));
    TwoEndsEach(input, n, |input|);
  }

  lemma TakenAfter(input: seq<InputEdge>, n: nat, k: nat, x: nat)
    requires k < |input| && AllAcceptable(input, n)
    ensures Taken(input, n, k + 1, x) <==> Taken(input, n, k, x) || x == NextSlot(input, input[k].u, k) || x == NextSlot(input, input[k].v, k)
  {
    assert Acceptable(input[k], n);
    NextPlaces(input, n, k, input[k].u);
    NextPlaces(input, n, k, input[k].v);
  }

  lemma ScatterOne(input: seq<InputEdge>, n: nat, k: nat, edges: seq<Edge>, at: seq<(nat, nat)>, p: nat, q: nat)
    requires Scattered(input, n, k, edges, at) && k < |input| && AllAcceptable(input, n)
    requires p == NextSlot(input, input[k].u, k) && q == NextSlot(input, input[k].v, k)
    ensures p < |edges| && q < |edges| && p != q
    ensures var e := input[k];
            Scattered(input, n, k + 1, edges[p := Edge(e.u, e.v, e.weight, q)][q := Edge(e.v, e.u, e.weight, p)], at + [(p, q)])
  {
    var e, k', at' := input[k], k + 1, at + [(p, q)];
    assert Acceptable(e, n);
    NextPlaces(input, n, k, e.u);
    NextPlaces(input, n, k, e.v);
    var edges' := edges[p := Edge(e.u, e.v, e.weight, q)][q := Edge(e.v, e.u, e.weight, p)];
    hide NextSlot, OwnerOf, Taken, From;
    forall x: nat ensures Taken(input, n, k', x) <==> Taken(input, n, k, x) || x == p || x == q {
      TakenAfter(input, n, k, x);
    }
    forall x: nat | x < |edges'| ensures EntryOk(input, n, k', edges', x) {
      assert EntryOk(input, n, k, edges, x);
      TakenInRange(input, n, k, edges[x].back);
    }
    forall j: nat | j < k' ensures StoredAt(input, edges', at', j) && Taken(input, n, k', at'[j].0) && Taken(input, n, k', at'[j].1) {
      if j < k {
        assert StoredAt(input, edges, at, j) && at'[j] == at[j];
      }
    }
    forall x: nat | Taken(input, n, k', x) ensures From(at', x) {
      StillFrom(at, p, q, x);
    }
  }

  lemma TakenInRange(input: seq<InputEdge>, n: nat, k: nat, x: nat)
    requires k <= |input|
    ensures Taken(input, n, k, x) ==> x < 2 * |input|
  {
  }

  lemma StillFrom(at: seq<(nat, nat)>, p: nat, q: nat, x: nat)
    requires From(at, x) || x == p || x == q
    ensures From(at + [(p, q)], x)
  {
    var at' := at + [(p, q)];
    if From(at, x) {
      var j :| 0 <= j < |at| && (at[j].0 == x || at[j].1 == x);
      assert at'[j] == at[j];
    } else {
      assert at'[|at|] == (p, q);
    }
  }

  /** Every input edge is stored in both directions, and nothing else is. */
  ghost predicate Represents(edges: seq<Edge>, input: seq<InputEdge>, at: seq<(nat, nat)>) {
    && |at| == |input| && |edges| == 2 * |input|
    && (forall j: nat {:trigger StoredAt(input, edges, at, j)} :: j < |input| ==> StoredAt(input, edges, at, j))
    && forall x: nat :: x < |edges| ==> From(at, x)
  }

  lemma AllScattered(input: seq<InputEdge>, n: nat, edges: seq<Edge>, at: seq<(nat, nat)>)
    requires Scattered(input, n, |input|, edges, at) && AllAcceptable(input, n)
    ensures Represents(edges, input, at)
    ensures forall x: nat {:trigger EntryOk(input, n, |input|, edges, x)} :: x < |edges| ==> Taken(input, n, |input|, x) && OwnerOf(input, n, x) < n
  {
    TwoEndsEach(input, n, |input|);
    forall x: nat | x < |edges| ensures Taken(input, n, |input|, x) && OwnerOf(input, n, x) < n && From(at, x) {
      OwnerIs(input, n, x);
      assert Taken(input, n, |input|, x);
    }
  }

  // ---------- The loops ----------

  /** Tests the input; edges with equal ends or ends that are no nodes are rejected. */
  method CheckInput(input: seq<InputEdge>, n: nat) returns (ok: bool)
    ensures ok <==> AllAcceptable(input, n)
  {
    ok := true;
    for j := 0 to |input|
      invariant ok <==> forall i :: 0 <= i < j ==> Acceptable(input[i], n)
    {
      if input[j].u == input[j].v || input[j].u >= n || input[j].v >= n {
        ok := false;
      }
    }
  }

  method CountDegrees(input: seq<InputEdge>, n: nat) returns (degrees: seq<nat>)
    requires AllAcceptable(input, n)
    ensures |degrees| == n && forall w: nat :: w < n ==> degrees[w] == DegreeIn(input, w, |input|)
  {
    degrees := seq(n, w => 0);
    for j := 0 to |input|
      invariant |degrees| == n && forall w: nat :: w < n ==> degrees[w] == DegreeIn(input, w, j)
    {
      assert Acceptable(input[j], n);
      degrees := degrees[input[j].u := degrees[input[j].u] + 1];
      degrees := degrees[input[j].v := degrees[input[j].v] + 1];
    }
  }

  method PrefixSums(input: seq<InputEdge>, degrees: seq<nat>) returns (first: seq<nat>)
    requires forall w: nat :: w < |degrees| ==> degrees[w] == DegreeIn(input, w, |input|)
    ensures |first| == |degrees| && forall w: nat :: w < |first| ==> first[w] == EndsBelow(input, w, |input|)
  {
    first := [];
    var sum := 0;
    for u := 0 to |degrees|
      invariant |first| == u && sum == EndsBelow(input, u, |input|)
      invariant forall w: nat :: w < u ==> first[w] == EndsBelow(input, w, |input|)
    {
      first := first + [sum];
      sum := sum + degrees[u];
    }
  }

  /** Takes the next free position in the slices of both ends for every edge. */
  method Scatter(input: seq<InputEdge>, first: seq<nat>) returns (edges: seq<Edge>, ghost at: seq<(nat, nat)>)
    requires AllAcceptable(input, |first|) && forall w: nat :: w < |first| ==> first[w] == EndsBelow(input, w, |input|)
    ensures Scattered(input, |first|, |input|, edges, at)
  {
    edges := seq(2 * |input|, x => Edge(0, 0, 0, 0));
    at := [];
    var taken := seq(|first|, w => 0);
    NothingScattered(input, |first|, edges);
    for k := 0 to |input|
      invariant Scattered(input, |first|, k, edges, at)
      invariant |taken| == |first| && forall w: nat :: w < |taken| ==> taken[w] == DegreeIn(input, w, k)
    {
      var e := input[k];
      assert Acceptable(e, |first|);
      var p := first[e.u] + taken[e.u];
      var q := first[e.v] + taken[e.v];
      ScatterOne(input, |first|, k, edges, at, p, q);
      taken := taken[e.u := taken[e.u] + 1];
      taken := taken[e.v := taken[e.v] + 1];
      edges := edges[p := Edge(e.u, e.v, e.weight, q)];
      edges := edges[q := Edge(e.v, e.u, e.weight, p)];
      at := at + [(p, q)];
    }
  }
}
