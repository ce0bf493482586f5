/** The marking loops of the removal of parallel edges.

    What one step does, and how a sorted list of the edges of one head tells kept edges and duplicates
    apart. */
module MarkingSteps {
  import opened QuotientGraph
  import opened ParallelEdges
  import opened EdgePermutation
  import opened Sorting

  ghost function LiveIn(g: Graph, ids: set<nat>, h: nat): set<nat>
    requires g.Shape()
  {
    set x | x in ids && g.Live(x) && g.Head(x) == h
  }

  ghost function DegreesWithout(g: Graph, removable: set<nat>): (r: seq<int>)
    requires g.Shape()
    ensures |r| == |g.degree|
  {
    seq(|g.degree|, h requires 0 <= h < |g.degree| => g.degree[h] - |LiveIn(g, removable, h)|)
  }

  ghost predicate BacksKept(g: Graph, edges: seq<Edge>) {
    |edges| == |g.edges| && forall x: nat :: x < |edges| ==> edges[x].back == g.edges[x].back
  }

  /** Edge x was dealt with. */
  ghost predicate SeenOk(g: Graph, dups: set<nat>, removable: set<nat>, x: nat)
    requires g.Shape()
  {
    x < |g.edges| && g.Active(x) && (x in dups <==> Duplicate(g, x)) && (x in removable <==> !Kept(g, x))
  }

  /** The state after the edges `seen` were dealt with. */
  ghost predicate MarkState(g: Graph, seen: set<nat>, dups: set<nat>, edges: seq<Edge>, removable: set<nat>, degree: seq<int>) {
    Marked(g, dups, edges) && BacksKept(g, edges) && Ledger(g, seen, dups, removable, degree)
  }

  /** Which edges are marked, and the degrees without them. */
  ghost predicate Ledger(g: Graph, seen: set<nat>, dups: set<nat>, removable: set<nat>, degree: seq<int>)
    requires g.Shape()
  {
    && dups <= removable <= seen && degree == DegreesWithout(g, removable)
    && forall x: nat {:trigger SeenOk(g, dups, removable, x)} :: x in seen ==> SeenOk(g, dups, removable, x)
  }

  lemma MarkStart(g: Graph)
    requires g.Valid()
    ensures MarkState(g, {}, {}, g.edges, {}, g.degree)
  {
    NothingMarked(g, g.edges);
    forall h: nat | h < |g.degree| ensures LiveIn(g, {}, h) == {} {}
  }

  lemma LiveInStep(g: Graph, removable: set<nat>, x: nat, h: nat)
    requires g.Shape() && x !in removable && x < |g.edges|
    ensures |LiveIn(g, removable + {x}, h)| == |LiveIn(g, removable, h)| + if g.Live(x) && g.Head(x) == h then 1 else 0
  {
    if g.Live(x) && g.Head(x) == h {
      assert LiveIn(g, removable + {x}, h) == LiveIn(g, removable, h) + {x};
    } else {
      assert LiveIn(g, removable + {x}, h) == LiveIn(g, removable, h);
    }
  }

  lemma DegreeStep(g: Graph, removable: set<nat>, x: nat)
    requires g.Shape() && x !in removable && x < |g.edges| && g.Head(x) < |g.degree|
    ensures DegreesWithout(g, removable + {x}) == if g.Live(x)
                                           then DegreesWithout(g, removable)[g.Head(x) := DegreesWithout(g, removable)[g.Head(x)] - 1]
                                           else DegreesWithout(g, removable)
  {
    var after, before := DegreesWithout(g, removable + {x}), DegreesWithout(g, removable);
    forall h: nat | h < |g.degree| ensures after[h] == before[h] - if g.Live(x) && g.Head(x) == h then 1 else 0 {
      LiveInStep(g, removable, x, h);
    }
  }

  lemma HeadInRange(g: Graph, x: nat)
    requires g.Valid() && x < |g.edges|
    ensures g.Head(x) < |g.degree|
  {
    assert g.CircleOk(g.owner[x]);
  }

  lemma LedgerStep(g: Graph, seen: set<nat>, dups: set<nat>, removable: set<nat>, degree: seq<int>, x: nat, dups': set<nat>, removable': set<nat>)
    requires g.Shape() && Ledger(g, seen, dups, removable, degree) && x !in seen && SeenOk(g, dups', removable', x)
    requires g.Head(x) < |degree| && dups' <= removable' && (dups' == dups || dups' == dups + {x})
    requires removable' == removable || removable' == removable + {x}
    ensures Ledger(g, seen + {x}, dups', removable', if removable' != removable && g.Live(x) then degree[g.Head(x) := degree[g.Head(x)] - 1] else degree)
  {
    hide DegreesWithout, SeenOk;
    assert removable' != removable ==> x !in removable;
    assert x < |g.edges| by { SeenInRange(g, dups', removable', x); }
    if removable' != removable {
      DegreeStep(g, removable, x);
    }
    SeenStays(g, seen, dups, removable, x, dups', removable');
  }

  lemma SeenInRange(g: Graph, dups: set<nat>, removable: set<nat>, x: nat)
    requires g.Shape() && SeenOk(g, dups, removable, x)
    ensures x < |g.edges|
  {
  }

  lemma SeenStays(g: Graph, seen: set<nat>, dups: set<nat>, removable: set<nat>, x: nat, dups': set<nat>, removable': set<nat>)
    requires g.Shape() && x !in seen && SeenOk(g, dups', removable', x)
    requires forall z: nat {:trigger SeenOk(g, dups, removable, z)} :: z in seen ==> SeenOk(g, dups, removable, z)
    requires (dups' == dups || dups' == dups + {x}) && (removable' == removable || removable' == removable + {x})
    ensures forall z: nat {:trigger SeenOk(g, dups', removable', z)} :: z in seen + {x} ==> SeenOk(g, dups', removable', z)
  {
    forall z: nat | z in seen + {x} ensures SeenOk(g, dups', removable', z) {
      if z != x {
        StaysSeen(g, dups, removable, x, dups', removable', z);
      }
    }
  }

  lemma StaysSeen(g: Graph, dups: set<nat>, removable: set<nat>, x: nat, dups': set<nat>, removable': set<nat>, z: nat)
    requires g.Shape() && z != x && SeenOk(g, dups, removable, z)
    requires (dups' == dups || dups' == dups + {x}) && (removable' == removable || removable' == removable + {x})
    ensures SeenOk(g, dups', removable', z)
  {
  }

  /** A kept edge stays as it is. */
  lemma SeeKept(g: Graph, seen: set<nat>, dups: set<nat>, edges: seq<Edge>, removable: set<nat>, degree: seq<int>, x: nat)
    requires MarkState(g, seen, dups, edges, removable, degree) && Kept(g, x) && x !in seen
    ensures MarkState(g, seen + {x}, dups, edges, removable, degree)
  {
    HeadInRange(g, x);
    LedgerStep(g, seen, dups, removable, degree, x, dups, removable);
  }

  /** A single-pin or disabled edge is marked for removal. */
  lemma SeeLoose(g: Graph, seen: set<nat>, dups: set<nat>, edges: seq<Edge>, removable: set<nat>, degree: seq<int>, x: nat)
    requires MarkState(g, seen, dups, edges, removable, degree) && x < |g.edges| && g.Active(x) && !Crossing(g, x) && x !in seen
    ensures g.Head(x) < |degree|
    ensures MarkState(g, seen + {x}, dups, edges, removable + {x}, if g.Live(x) then degree[g.Head(x) := degree[g.Head(x)] - 1] else degree)
  {
    HeadInRange(g, x);
    LedgerStep(g, seen, dups, removable, degree, x, dups, removable + {x});
  }

  lemma NotYetSeen(g: Graph, dups: set<nat>, edges: seq<Edge>, x: nat, r: nat)
    requires Marked(g, dups, edges) && BacksKept(g, edges) && RepresentativeOk(g, x, r) && x !in dups
    ensures Marked(g, dups + {x}, MarkDuplicate(edges, x, r)) && BacksKept(g, MarkDuplicate(edges, x, r)) && r != x
  {
    MarkKeepsTheRest(g, dups, edges, x, r);
  }

  lemma DuplicateSeen(g: Graph, dups: set<nat>, removable: set<nat>, x: nat, r: nat)
    requires g.Shape() && RepresentativeOk(g, x, r) && x in dups && x in removable
    ensures SeenOk(g, dups, removable, x) && g.Live(x)
  {
  }

  /** A duplicate names the kept edge and gives its weight to it. */
  lemma SeeDuplicate(g: Graph, seen: set<nat>, dups: set<nat>, edges: seq<Edge>, removable: set<nat>, degree: seq<int>, x: nat, r: nat)
    requires MarkState(g, seen, dups, edges, removable, degree) && RepresentativeOk(g, x, r) && x !in seen
    ensures g.Head(x) < |degree| && r != x
    ensures MarkState(g, seen + {x}, dups + {x}, MarkDuplicate(edges, x, r), removable + {x}, degree[g.Head(x) := degree[g.Head(x)] - 1])
  {
    HeadInRange(g, x);
    DuplicateSeen(g, dups + {x}, removable + {x}, x, r);
    LedgerStep(g, seen, dups, removable, degree, x, dups + {x}, removable + {x});
    NotYetSeen(g, dups, edges, x, r);
  }

  /** Nothing but the edges in `seen` is left when every active edge was seen. */
  lemma AllSeen(g: Graph, seen: set<nat>, dups: set<nat>, edges: seq<Edge>, removable: set<nat>, degree: seq<int>)
    requires MarkState(g, seen, dups, edges, removable, degree)
    requires forall x: nat :: x < |g.edges| && g.Active(x) ==> x in seen
    ensures forall x: nat :: x in dups <==> Duplicate(g, x)
    ensures forall x: nat :: x in removable <==> x < |g.edges| && g.Active(x) && !Kept(g, x)
    ensures forall h: nat :: h < |g.degree| ==> degree[h] == g.degree[h] - |RemovedLive(g, h)|
  {
    forall x: nat ensures x in dups <==> Duplicate(g, x) {
      assert x in seen ==> SeenOk(g, dups, removable, x);
    }
    forall x: nat ensures x in removable <==> x < |g.edges| && g.Active(x) && !Kept(g, x) {
      assert x in seen ==> SeenOk(g, dups, removable, x);
    }
    forall h: nat | h < |g.degree| ensures LiveIn(g, removable, h) == RemovedLive(g, h) {}
  }


  // ---------- The sorted edges of one head ----------

  datatype ParallelEdgeInformation = ParallelEdgeInformation(target: nat, edgeId: nat, uniqueId: nat)

  predicate Before(a: ParallelEdgeInformation, b: ParallelEdgeInformation) {
    a.target < b.target || (a.target == b.target && a.uniqueId < b.uniqueId)
  }

  function InformationOf(g: Graph, x: nat): ParallelEdgeInformation
    requires x < |g.edges|
  {
    ParallelEdgeInformation(g.edges[x].target, x, UniqueId(g, x))
  }

  ghost function InformationOn(g: Graph, ids: set<nat>): set<ParallelEdgeInformation>
    requires g.Shape()
  {
    set x | x in ids && Crossing(g, x) :: InformationOf(g, x)
  }

  /** `infos` describes exactly the crossing edges of head h, sorted by target and unique id. */
  ghost predicate SortedEdges(g: Graph, h: nat, infos: seq<ParallelEdgeInformation>)
    requires g.Shape()
  {
    && (forall i: nat {:trigger Describes(g, h, infos, i)} :: i < |infos| ==> Describes(g, h, infos, i))
    && (forall x: nat {:trigger InformationOf(g, x)} :: x < |g.edges| && Crossing(g, x) && g.Head(x) == h ==> InformationOf(g, x) in infos)
    && (forall i: nat, j: nat {:trigger InOrder(infos, i, j)} :: i < j < |infos| ==> InOrder(infos, i, j))
  }

  ghost predicate Describes(g: Graph, h: nat, infos: seq<ParallelEdgeInformation>, i: nat)
    requires g.Shape() && i < |infos|
  {
    var x := infos[i].edgeId;
    Crossing(g, x) && g.Head(x) == h && infos[i] == InformationOf(g, x)
  }

  predicate InOrder(infos: seq<ParallelEdgeInformation>, i: nat, j: nat)
    requires i < j < |infos|
  {
    infos[i] != infos[j] && !Before(infos[j], infos[i])
  }

  lemma SortedDescribes(g: Graph, h: nat, ids: set<nat>, infos: seq<ParallelEdgeInformation>)
    requires g.Shape() && multiset(infos) == multiset(InformationOn(g, ids)) && Sorted(infos, Before)
    requires forall x: nat :: x < |g.edges| && Crossing(g, x) ==> (x in ids <==> g.Head(x) == h)
    ensures SortedEdges(g, h, infos)
  {
    Rearranged(infos, InformationOn(g, ids));
    forall i: nat | i < |infos| ensures Describes(g, h, infos, i) {
      assert infos[i] in infos;
      assert infos[i] in InformationOn(g, ids);
    }
    forall x: nat | x < |g.edges| && Crossing(g, x) && g.Head(x) == h ensures InformationOf(g, x) in infos {
      assert InformationOf(g, x) in InformationOn(g, ids);
    }
    forall i: nat, j: nat | i < j < |infos| ensures InOrder(infos, i, j) {}
  }

  /** The first edge of every target is the kept one. */
  lemma FirstIsKept(g: Graph, h: nat, infos: seq<ParallelEdgeInformation>, i: nat)
    requires g.Valid() && SortedEdges(g, h, infos) && i < |infos|
    requires i == 0 || infos[i - 1].target != infos[i].target
    ensures Kept(g, infos[i].edgeId)
  {
    var x := infos[i].edgeId;
    assert Describes(g, h, infos, i);
    assert i > 0 ==> InOrder(infos, i - 1, i) && infos[i - 1].target < infos[i].target;
    forall y: nat | Parallel(g, x, y) ensures UniqueId(g, x) <= UniqueId(g, y) {
      var j :| 0 <= j < |infos| && infos[j] == InformationOf(g, y);
      assert j < i - 1 ==> InOrder(infos, j, i - 1);
      assert i < j ==> InOrder(infos, i, j);
    }
  }

  /** All others are duplicates of it. */
  lemma LaterIsDuplicate(g: Graph, h: nat, infos: seq<ParallelEdgeInformation>, i: nat, r: nat)
    requires g.Valid() && SortedEdges(g, h, infos) && r < i < |infos| && infos[i].target == infos[r].target
    requires Kept(g, infos[r].edgeId)
    ensures RepresentativeOk(g, infos[i].edgeId, infos[r].edgeId)
  {
    var x, k := infos[i].edgeId, infos[r].edgeId;
    assert InOrder(infos, r, i) && Describes(g, h, infos, r) && Describes(g, h, infos, i);
    assert Parallel(g, k, x) && Parallel(g, x, k);
    if Kept(g, x) {
      KeptUnique(g, k, x);
      assert false;
    }
  }

  // ---------- The two passes over the edges of one head ----------

  ghost function LooseIn(g: Graph, ids: set<nat>): set<nat>
    requires g.Shape()
  {
    set x | x in ids && !Crossing(g, x)
  }

  /** The first pass over the edges of a head has visited `visited`: loose edges are marked, the others
      are listed in `infos`. The edges `seen` belong to other heads. */
  ghost predicate CollectAt(g: Graph, seen: set<nat>, visited: set<nat>, infos: seq<ParallelEdgeInformation>,
                            dups: set<nat>, edges: seq<Edge>, removable: set<nat>, degree: seq<int>) {
    && g.Valid() && MarkState(g, seen + LooseIn(g, visited), dups, edges, removable, degree)
    && dups <= seen && multiset(infos) == multiset(InformationOn(g, visited))
  }

  lemma CollectStart(g: Graph, seen: set<nat>, dups: set<nat>, edges: seq<Edge>, removable: set<nat>, degree: seq<int>)
    requires MarkState(g, seen, dups, edges, removable, degree)
    ensures CollectAt(g, seen, {}, [], dups, edges, removable, degree)
  {
    assert dups <= seen;
    assert seen + LooseIn(g, {}) == seen;
    assert InformationOn(g, {}) == {};
  }

  /** What the first pass does with edge x of head u. */
  function Collected(edges: seq<Edge>, infos: seq<ParallelEdgeInformation>, x: nat): seq<ParallelEdgeInformation>
    requires x < |edges|
  {
    var e := edges[x];
    if e.IsValid() && !e.IsSinglePin()
    then infos + [ParallelEdgeInformation(e.target, x, if x < e.back then x else e.back)] else infos
  }

  function Loosened(edges: seq<Edge>, removable: set<nat>, x: nat): set<nat>
    requires x < |edges|
  {
    if edges[x].IsValid() && !edges[x].IsSinglePin() then removable else removable + {x}
  }

  function LoosenedDegree(edges: seq<Edge>, degree: seq<int>, u: nat, x: nat): seq<int>
    requires x < |edges| && u < |degree|
  {
    if edges[x].IsValid() && edges[x].IsSinglePin() then degree[u := degree[u] - 1] else degree
  }

  /** An edge that was not dealt with yet looks as it did before the marking. */
  lemma NotMarkedYet(g: Graph, dups: set<nat>, edges: seq<Edge>, x: nat)
    requires Marked(g, dups, edges) && BacksKept(g, edges) && x !in dups && x < |edges| && g.Active(x)
    ensures edges[x].source == g.edges[x].source && edges[x].target == g.edges[x].target && edges[x].back == g.edges[x].back
    ensures edges[x].IsValid() <==> g.Live(x)
    ensures edges[x].IsValid() && !edges[x].IsSinglePin() <==> Crossing(g, x)
  {
    assert MarkedAt(g.edges, dups, edges, x);
  }

  lemma CollectCrossing(g: Graph, seen: set<nat>, visited: set<nat>, infos: seq<ParallelEdgeInformation>, x: nat)
    requires g.Shape() && Crossing(g, x) && x !in visited && multiset(infos) == multiset(InformationOn(g, visited))
    ensures multiset(infos + [InformationOf(g, x)]) == multiset(InformationOn(g, visited + {x}))
    ensures seen + LooseIn(g, visited + {x}) == seen + LooseIn(g, visited)
  {
    InformationStep(g, visited, x);
    InformationApart(g, visited, x);
    OneMoreInformation(InformationOn(g, visited), infos, InformationOf(g, x));
  }

  lemma InformationApart(g: Graph, visited: set<nat>, x: nat)
    requires g.Shape() && Crossing(g, x) && x !in visited
    ensures InformationOf(g, x) !in InformationOn(g, visited)
  {
  }

  lemma InformationStep(g: Graph, visited: set<nat>, x: nat)
    requires g.Shape() && Crossing(g, x)
    ensures InformationOn(g, visited + {x}) == InformationOn(g, visited) + {InformationOf(g, x)}
  {
    var i := InformationOf(g, x);
    forall j ensures j in InformationOn(g, visited + {x}) <==> j in InformationOn(g, visited) + {i} {
      if j in InformationOn(g, visited) {
        var y :| y in visited && Crossing(g, y) && j == InformationOf(g, y);
        assert y in visited + {x};
      }
      assert x in visited + {x};
    }
  }

  lemma OneMoreInformation(known: set<ParallelEdgeInformation>, infos: seq<ParallelEdgeInformation>, i: ParallelEdgeInformation)
    requires multiset(infos) == multiset(known) && i !in known
    ensures multiset(infos + [i]) == multiset(known + {i})
  {
  }

  lemma CollectStep(g: Graph, seen: set<nat>, visited: set<nat>, infos: seq<ParallelEdgeInformation>,
                    dups: set<nat>, edges: seq<Edge>, removable: set<nat>, degree: seq<int>, u: nat, x: nat)
    requires CollectAt(g, seen, visited, infos, dups, edges, removable, degree)
    requires x !in visited && x !in seen && x < |g.edges| && g.Active(x) && g.Head(x) == u
    ensures x < |edges| && u < |degree|
    ensures CollectAt(g, seen, visited + {x}, Collected(edges, infos, x), dups, edges, Loosened(edges, removable, x), LoosenedDegree(edges, degree, u, x))
  {
    HeadInRange(g, x);
    NotMarkedYet(g, dups, edges, x);
    if Crossing(g, x) {
      CollectCrossing(g, seen, visited, infos, x);
    } else {
      CollectLoose(g, seen, visited, x);
      LooseIsSeen(g, seen + LooseIn(g, visited), dups, edges, removable, degree, u, x);
    }
  }

  lemma LooseIsSeen(g: Graph, seen: set<nat>, dups: set<nat>, edges: seq<Edge>, removable: set<nat>, degree: seq<int>, u: nat, x: nat)
    requires MarkState(g, seen, dups, edges, removable, degree) && x !in seen
    requires x < |g.edges| && x < |edges| && g.Active(x) && g.Head(x) == u && !Crossing(g, x) && u < |degree|
    requires edges[x].IsValid() <==> g.Live(x)
    requires !(edges[x].IsValid() && !edges[x].IsSinglePin())
    ensures MarkState(g, seen + {x}, dups, edges, Loosened(edges, removable, x), LoosenedDegree(edges, degree, u, x))
  {
    var degree' := if g.Live(x) then degree[g.Head(x) := degree[g.Head(x)] - 1] else degree;
    assert Loosened(edges, removable, x) == removable + {x};
    assert LoosenedDegree(edges, degree, u, x) == degree';
    SeeLoose(g, seen, dups, edges, removable, degree, x);
    assert MarkState(g, seen + {x}, dups, edges, removable + {x}, degree');
  }

  lemma CollectLoose(g: Graph, seen: set<nat>, visited: set<nat>, x: nat)
    requires g.Shape() && !Crossing(g, x)
    ensures seen + LooseIn(g, visited + {x}) == seen + LooseIn(g, visited) + {x}
    ensures InformationOn(g, visited + {x}) == InformationOn(g, visited)
    ensures x !in visited && x !in seen ==> x !in seen + LooseIn(g, visited)
  {
    forall j | j in InformationOn(g, visited) ensures j in InformationOn(g, visited + {x}) {
      var y :| y in visited && Crossing(g, y) && j == InformationOf(g, y);
      assert y in visited + {x};
    }
  }

  ghost function IdsOf(infos: seq<ParallelEdgeInformation>): set<nat> {
    set i | 0 <= i < |infos| :: infos[i].edgeId
  }

  /** The second pass has dealt with the first i edges of the sorted list; `r` is the index of the last
      edge that was kept. */
  ghost predicate SecondPassAt(g: Graph, h: nat, infos: seq<ParallelEdgeInformation>, seen: set<nat>, i: nat, r: nat,
                               dups: set<nat>, edges: seq<Edge>, removable: set<nat>, degree: seq<int>) {
    && g.Valid() && SortedEdges(g, h, infos) && r < i <= |infos|
    && infos[r].target == infos[i - 1].target && Kept(g, infos[r].edgeId)
    && MarkState(g, seen + IdsOf(infos[..i]), dups, edges, removable, degree)
  }

  lemma OneMoreId(infos: seq<ParallelEdgeInformation>, i: nat)
    requires i < |infos|
    ensures IdsOf(infos[..i + 1]) == IdsOf(infos[..i]) + {infos[i].edgeId}
  {
    var a, b := infos[..i], infos[..i + 1];
    forall x ensures x in IdsOf(b) <==> x in IdsOf(a) + {infos[i].edgeId} {
      if x in IdsOf(a) {
        var k :| 0 <= k < |a| && a[k].edgeId == x;
        assert b[k].edgeId == x;
      }
      if x in IdsOf(b) {
        var k :| 0 <= k < |b| && b[k].edgeId == x;
        assert k < i ==> a[k].edgeId == x;
      }
      assert b[i].edgeId == infos[i].edgeId;
    }
  }

  lemma IdIsNew(g: Graph, h: nat, infos: seq<ParallelEdgeInformation>, i: nat)
    requires g.Shape() && SortedEdges(g, h, infos) && i < |infos|
    ensures infos[i].edgeId !in IdsOf(infos[..i])
  {
    forall k | 0 <= k < i ensures infos[..i][k].edgeId != infos[i].edgeId {
      assert InOrder(infos, k, i) && Describes(g, h, infos, k) && Describes(g, h, infos, i);
    }
  }

  lemma SecondPassStart(g: Graph, h: nat, infos: seq<ParallelEdgeInformation>, seen: set<nat>,
                        dups: set<nat>, edges: seq<Edge>, removable: set<nat>, degree: seq<int>)
    requires g.Valid() && SortedEdges(g, h, infos) && infos != [] && MarkState(g, seen, dups, edges, removable, degree)
    requires infos[0].edgeId !in seen
    ensures SecondPassAt(g, h, infos, seen, 1, 0, dups, edges, removable, degree)
  {
    FirstIsKept(g, h, infos, 0);
    OneMoreId(infos, 0);
    SeeKept(g, seen, dups, edges, removable, degree, infos[0].edgeId);
    assert infos[..0] == [];
    assert seen + IdsOf(infos[..1]) == seen + {infos[0].edgeId};
  }

  lemma NextIsKept(g: Graph, h: nat, infos: seq<ParallelEdgeInformation>, seen: set<nat>, i: nat, r: nat,
                   dups: set<nat>, edges: seq<Edge>, removable: set<nat>, degree: seq<int>)
    requires SecondPassAt(g, h, infos, seen, i, r, dups, edges, removable, degree) && i < |infos|
    requires infos[i].edgeId !in seen && infos[i - 1].target != infos[i].target
    ensures SecondPassAt(g, h, infos, seen, i + 1, i, dups, edges, removable, degree)
  {
    FirstIsKept(g, h, infos, i);
    OneMoreId(infos, i);
    IdIsNew(g, h, infos, i);
    SeeKept(g, seen + IdsOf(infos[..i]), dups, edges, removable, degree, infos[i].edgeId);
    assert seen + IdsOf(infos[..i + 1]) == seen + IdsOf(infos[..i]) + {infos[i].edgeId};
  }

  lemma NextIsDuplicate(g: Graph, h: nat, infos: seq<ParallelEdgeInformation>, seen: set<nat>, i: nat, r: nat,
                        dups: set<nat>, edges: seq<Edge>, removable: set<nat>, degree: seq<int>)
    requires SecondPassAt(g, h, infos, seen, i, r, dups, edges, removable, degree) && i < |infos|
    requires infos[i].edgeId !in seen && infos[i - 1].target == infos[i].target
    ensures infos[i].edgeId < |edges| && infos[r].edgeId < |edges| && h < |degree|
    ensures SecondPassAt(g, h, infos, seen, i + 1, r, dups + {infos[i].edgeId}, MarkDuplicate(edges, infos[i].edgeId, infos[r].edgeId),
                         removable + {infos[i].edgeId}, degree[h := degree[h] - 1])
  {
    LaterIsDuplicate(g, h, infos, i, r);
    assert Describes(g, h, infos, i) && Describes(g, h, infos, r);
    OneMoreId(infos, i);
    IdIsNew(g, h, infos, i);
    SeeDuplicate(g, seen + IdsOf(infos[..i]), dups, edges, removable, degree, infos[i].edgeId, infos[r].edgeId);
    assert seen + IdsOf(infos[..i + 1]) == seen + IdsOf(infos[..i]) + {infos[i].edgeId};
  }

  // ---------- Restoring, edge by edge ----------

  ghost predicate RemovedAt(g: Graph, dups: set<nat>, removable: set<nat>, x: nat)
    requires g.Shape()
  {
    && (x in dups <==> Duplicate(g, x))
    && (x in removable <==> x < |g.edges| && g.Active(x) && !Kept(g, x))
  }

  /** The restored edges `done` look as before their removal, the others are still marked. */
  ghost predicate RestoredUpTo(g: Graph, dups: set<nat>, removable: set<nat>, done: set<nat>, edges: seq<Edge>, degree: seq<int>) {
    && Marked(g, dups - done, edges) && BacksKept(g, edges) && degree == DegreesWithout(g, removable - done)
    && forall x: nat {:trigger RemovedAt(g, dups, removable, x)} :: RemovedAt(g, dups, removable, x)
  }

  /** What the last loop of the restoration does with edge x of head u. */
  function RestoredEdges(edges: seq<Edge>, removable: set<nat>, u: nat, x: nat): seq<Edge>
    requires x < |edges|
  {
    if x in removable && edges[x].IsValid() && edges[x].target != u && edges[x].source < |edges| then UnmarkDuplicate(edges, x, u) else edges
  }

  function RestoredDegree(edges: seq<Edge>, removable: set<nat>, degree: seq<int>, u: nat, x: nat): seq<int>
    requires x < |edges| && u < |degree|
  {
    if x in removable && edges[x].IsValid() then degree[u := degree[u] + 1] else degree
  }

  lemma RestoreStart(g: Graph, dups: set<nat>, removable: set<nat>, edges: seq<Edge>, degree: seq<int>)
    requires Marked(g, dups, edges) && BacksKept(g, edges) && (forall x: nat :: x in dups <==> Duplicate(g, x))
    requires forall x: nat :: x in removable <==> x < |g.edges| && g.Active(x) && !Kept(g, x)
    requires |degree| == |g.degree| && forall h: nat :: h < |g.degree| ==> degree[h] == g.degree[h] - |RemovedLive(g, h)|
    ensures RestoredUpTo(g, dups, removable, {}, edges, degree)
  {
    forall x: nat ensures RemovedAt(g, dups, removable, x) {}
    assert dups - {} == dups && removable - {} == removable;
    forall h: nat | h < |g.degree| ensures LiveIn(g, removable, h) == RemovedLive(g, h) {}
  }

  /** An edge that was marked looks like its original, except for its source and weight. */
  lemma StillMarked(g: Graph, dups: set<nat>, removable: set<nat>, done: set<nat>, edges: seq<Edge>, degree: seq<int>, u: nat, x: nat)
    requires RestoredUpTo(g, dups, removable, done, edges, degree) && x !in done
    requires x < |g.edges| && g.Active(x) && g.Head(x) == u
    ensures x < |edges| && (edges[x].IsValid() <==> g.Live(x))
    ensures x in removable && edges[x].IsValid() && edges[x].target != u <==> x in dups
    ensures x in dups ==> x in removable && edges[x].source < |edges|
  {
    assert RemovedAt(g, dups, removable, x) && MarkedAt(g.edges, dups - done, edges, x) && g.EdgeOk(x);
    assert x in dups ==> RepresentativeOk(g, x, edges[x].source);
  }

  lemma RestoreEdgeStep(g: Graph, dups: set<nat>, removable: set<nat>, done: set<nat>, edges: seq<Edge>, degree: seq<int>, u: nat, x: nat)
    requires RestoredUpTo(g, dups, removable, done, edges, degree) && x !in done
    requires x < |g.edges| && g.Active(x) && g.Head(x) == u
    ensures x < |edges| && u < |degree|
    ensures x in removable && edges[x].IsValid() && edges[x].target != u ==> edges[x].source < |edges|
    ensures RestoredUpTo(g, dups, removable, done + {x}, RestoredEdges(edges, removable, u, x), RestoredDegree(edges, removable, degree, u, x))
  {
    StillMarked(g, dups, removable, done, edges, degree, u, x);
    HeadInRange(g, x);
    var edges', degree' := RestoredEdges(edges, removable, u, x), RestoredDegree(edges, removable, degree, u, x);
    assert edges' == if x in dups then UnmarkDuplicate(edges, x, u) else edges;
    assert degree' == if x in removable && g.Live(x) then degree[u := degree[u] + 1] else degree;
    RestoredEdgesOk(g, dups, done, edges, u, x, edges');
    RestoredDegreeOk(g, removable, done, degree, u, x);
    assert RestoredUpTo(g, dups, removable, done + {x}, edges', degree');
  }

  lemma RestoredEdgesOk(g: Graph, dups: set<nat>, done: set<nat>, edges: seq<Edge>, u: nat, x: nat, edges': seq<Edge>)
    requires Marked(g, dups - done, edges) && BacksKept(g, edges) && x !in done && x < |edges| && g.Head(x) == u
    requires x in dups ==> edges[x].source < |edges|
    requires edges' == if x in dups then UnmarkDuplicate(edges, x, u) else edges
    ensures Marked(g, dups - (done + {x}), edges') && BacksKept(g, edges')
  {
    if x in dups {
      UnmarkKeepsTheRest(g, dups - done, edges, x);
      assert dups - (done + {x}) == dups - done - {x};
    } else {
      assert dups - (done + {x}) == dups - done;
    }
  }

  lemma RestoredDegreeOk(g: Graph, removable: set<nat>, done: set<nat>, degree: seq<int>, u: nat, x: nat)
    requires g.Shape() && x !in done && x < |g.edges| && g.Head(x) == u && u < |g.degree| && degree == DegreesWithout(g, removable - done)
    ensures DegreesWithout(g, removable - (done + {x})) == if x in removable && g.Live(x) then degree[u := degree[u] + 1] else degree
  {
    hide DegreesWithout;
    var rest := removable - (done + {x});
    if x in removable {
      assert removable - done == rest + {x};
      DegreeStep(g, rest, x);
      var before, after := DegreesWithout(g, rest), DegreesWithout(g, rest + {x});
      assert after == if g.Live(x) then before[u := before[u] - 1] else before;
      assert after == degree;
    } else {
      assert rest == removable - done;
    }
  }

  lemma RestoreDone(g: Graph, dups: set<nat>, removable: set<nat>, done: set<nat>, edges: seq<Edge>, degree: seq<int>)
    requires RestoredUpTo(g, dups, removable, done, edges, degree)
    requires forall x: nat :: x < |g.edges| && g.Active(x) ==> x in done
    ensures edges == g.edges && degree == g.degree
  {
    forall x: nat ensures (x in dups ==> x in done) && (x in removable ==> x in done) {
      assert RemovedAt(g, dups, removable, x);
    }
    assert dups - done == {} && removable - done == {};
    forall x: nat | x < |edges| ensures edges[x] == g.edges[x] {
      NoneLeftMarked(g, edges, x);
      assert edges[x].(back := 0).source == g.edges[x].(back := 0).source;
    }
    forall h: nat | h < |g.degree| ensures LiveIn(g, {}, h) == {} {}
  }
}
