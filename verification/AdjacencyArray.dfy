/** The dynamic adjacency array itself.

    Edges and list pointers are changed in place, and every method is tied to a function on the graph that the
    array stores. */
module AdjacencyArray {
  import opened Rings
  import opened Chains
  import opened LiveLists
  import opened IteratorLists
  import opened QuotientGraph
  import opened AdjacencyWalk
  import opened FiniteSets
  import opened Sorting
  import opened ParallelEdges
  import opened EdgePermutation
  import opened MarkingSteps
  import opened PermutationSteps
  import opened EdgeIterators
  import opened GraphConstruction

  class DynamicAdjacencyArray {
    var first: seq<nat>
    var firstActive: seq<nat>
    var firstInactive: seq<nat>
    var edges: seq<Edge>
    var degree: seq<int>
    var isHead: seq<bool>
    var next: seq<nat>
    var prev: seq<nat>
    var tail: seq<nat>
    var itNext: seq<nat>
    var itPrev: seq<nat>
    var removable: set<nat>
    var edgeMapping: seq<nat>
    ghost var owner: seq<nat>
    ghost var rep: seq<nat>
    ghost var circ: seq<seq<nat>>

    /** Sets up the headers of a graph whose edges are already in place: every node heads its own list, and
        every edge of its slice is active. */
    constructor (first: seq<nat>, last: seq<nat>, edges: seq<Edge>, ghost owner: seq<nat>)
      requires |first| == |last| <= INVALID && Placed(first, last, edges, owner)
      ensures Valid() && Fresh(G()) && Iterable() && this.edges == edges && this.owner == owner
      ensures G() == Graph(first, last, owner, first, edges, seq(|first|, w requires 0 <= w < |first| => last[w] - first[w]),
                           Singles(|first|).isHead, Singles(|first|).rep, Singles(|first|).circ)
    {
      var n := |first|;
      this.first, this.firstActive, this.firstInactive := first, first, last;
      this.edges := edges;
      this.degree := seq(n, w requires 0 <= w < n => last[w] - first[w]);
      this.isHead, this.next, this.prev, this.tail := seq(n, w => true), Identity(n), Identity(n), Identity(n);
      this.itNext, this.itPrev := Identity(n), Identity(n);
      this.removable, this.edgeMapping := {}, seq(|edges|, x => 0);
      this.owner, this.rep, this.circ := owner, Singles(n).rep, Singles(n).circ;
      new;
      SinglesLinked(n);
      assert G().Chain() == Singles(n);
      PlacedIsFresh(first, last, edges, owner, G());
      SinglesIterable(n, Sizes());
    }

    ghost function G(): Graph
      reads this
    {
      Graph(first, firstInactive, owner, firstActive, edges, degree, isHead, rep, circ)
    }

    ghost predicate Linked()
      reads this
    {
      G().Chain().Valid() && ListsOk(G().Chain(), next, prev, tail)
    }

    ghost predicate Wired()
      reads this
    {
      G().Shape() && G().Circles() && ListsOk(G().Chain(), next, prev, tail) && InRange(itNext, itPrev, |first|)
    }

    ghost function Sizes(): seq<nat>
      reads this
    {
      SliceSizes(firstActive, firstInactive)
    }

    /** The iterator lists are right. */
    ghost predicate Iterable()
      reads this
    {
      AllLinked(G(), itNext, itPrev)
    }

    ghost predicate Valid()
      reads this
    {
      Wired() && G().Valid()
    }

    /** Lets the end of each of the two circles lead to the start of the other one. */
    method Join(u: nat, v: nat)
      requires u < |next| == |prev| == |tail| && v < |next| && u != v && prev[u] < |next| && prev[v] < |next| && prev[u] != v
      modifies `next, `prev, `tail
      ensures next == old(NextAppended(next, prev, u, v)) && prev == old(PrevAppended(prev, u, v))
      ensures tail == old(tail[v := prev[v]])
    {
      var tailU, tailV := prev[u], prev[v];
      next := next[tailU := v];
      prev := prev[v := tailU];
      next := next[tailV := u];
      prev := prev[u := tailV];
      tail := tail[v := tailV];
    }

    /** Concatenates the circles of u and v. */
    method AppendCircle(u: nat, v: nat)
      requires Linked() && u < |isHead| && v < |isHead| && u != v && isHead[u] && isHead[v]
      modifies `next, `prev, `tail, `isHead, `rep, `circ
      ensures Linked() && G() == old(G().With(Appended(G().Chain(), u, v)))
    {
      hide ListsOk, Chains.Valid, AllRenamed, NextAppended, PrevAppended;
      ghost var g, n, p, t := G().Chain(), next, prev, tail;
      TailsInRange(g, n, p, t, u, v);
      Join(u, v);
      isHead := isHead[v := false];
      circ := circ[u := circ[u] + circ[v]];
      rep := AllRenamed(rep, v, u);
      AppendedWired(g, n, p, t, u, v);
    }

    /** Concatenates the iterator lists of u and v. */
    method JoinIterators(u: nat, v: nat)
      requires u < |itPrev| == |itNext| && v < |itPrev| && u != v && itPrev[u] < |itNext| && itPrev[v] < |itNext|
      modifies `itNext, `itPrev
      ensures itNext == NextAppended(old(itNext), old(itPrev), u, v) && itPrev == PrevAppended(old(itPrev), u, v)
    {
      var itTailU, itTailV := itPrev[u], itPrev[v];
      itNext := itNext[itTailU := v];
      itPrev := itPrev[v := itTailU];
      itNext := itNext[itTailV := u];
      itPrev := itPrev[u := itTailV];
    }

    /** Takes the empty list w out of the iterator list. */
    method RemoveEmptyIncidentEdgeList(w: nat)
      requires w < |itNext| == |itPrev| && itPrev[w] < |itNext| && itNext[w] < |itPrev|
      modifies `itNext, `itPrev
      ensures itNext == UnlinkedNext(old(itNext), old(itPrev), w) && itPrev == UnlinkedPrev(old(itNext), old(itPrev), w)
    {
      itNext := itNext[itPrev[w] := itNext[w]];
      itPrev := itPrev[itNext[w] := itPrev[w]];
      itNext := itNext[w := w];
      itPrev := itPrev[w := w];
    }

    /** Concatenates circle and iterator list of v to those of u. */
    method Append(u: nat, v: nat)
      requires Wired() && u < |isHead| && v < |isHead| && u != v && isHead[u] && isHead[v]
      modifies `next, `prev, `tail, `isHead, `rep, `circ, `itNext, `itPrev
      ensures Linked() && G() == old(G().With(Appended(G().Chain(), u, v)))
      ensures InRange(itNext, itPrev, |first|) && (old(Iterable()) ==> Iterable())
    {
      ghost var g := G();
      IteratorsAppended(g, itNext, itPrev, u, v);
      AppendCircle(u, v);
      JoinIterators(u, v);
      if firstInactive[v] - firstActive[v] == 0 {
        RemoveEmptyIncidentEdgeList(v);
      }
    }

    /** The last non-empty list before v, or u. */
    method NonEmptyBefore(u: nat, v: nat, ghost k: nat) returns (x: nat)
      requires Linked() && |firstActive| == |firstInactive| == |first| == |rep| && u < |isHead| && v < |isHead| && u != v && isHead[u]
      requires (forall w :: 0 <= w < |first| ==> firstActive[w] <= firstInactive[w]) && 0 < k < |circ[u]| && circ[u][k] == v
      ensures x == Predecessor(circ[u][..k], Sizes()) && x < |first|
    {
      ghost var c, j := circ[u], k;
      CircleFacts(G().Chain(), next, prev, tail, u);
      x := v;
      while (x == v || firstInactive[x] - firstActive[x] == 0) && x != u
        invariant 0 <= j <= k && x == c[j]
        invariant forall i :: j < i < k ==> SizeAt(firstActive, firstInactive, c[i]) == 0
        decreases j
      {
        assert prev[c[j]] == c[j - 1];
        x := prev[x];
        j := j - 1;
      }
      PredecessorFound(c[..k], Sizes(), j);
    }

    /** The first non-empty list after t, or u. */
    method NonEmptyAfter(u: nat, t: nat, ghost k: nat) returns (x: nat)
      requires Linked() && |firstActive| == |firstInactive| == |first| == |rep| && u < |isHead| && isHead[u]
      requires (forall w :: 0 <= w < |first| ==> firstActive[w] <= firstInactive[w]) && 0 < k < |circ[u]| && circ[u][k] == t
      ensures x == Successor([u], circ[u][k + 1..], Sizes()) && x < |first|
    {
      ghost var c, j := circ[u], k;
      CircleFacts(G().Chain(), next, prev, tail, u);
      x := t;
      while (x == t || firstInactive[x] - firstActive[x] == 0) && x != u
        invariant k <= j <= |c| && x == (if j == |c| then u else c[j])
        invariant forall i :: k < i < j ==> SizeAt(firstActive, firstInactive, c[i]) == 0
        decreases |c| - j
      {
        assert j + 1 < |c| ==> next[c[j]] == c[j + 1];
        x := next[x];
        j := j + 1;
      }
      SuccessorFound([u], c[k + 1..], Sizes(), j - (k + 1));
    }

    /** Takes the former circle of v, which starts at position k, out of the iterator list of u. */
    method SpliceIterators(u: nat, v: nat, ghost k: nat)
      requires Wired() && CanSplice(G(), u, v, k)
      modifies `itNext, `itPrev
      ensures InRange(itNext, itPrev, |first|)
      ensures old(Iterable()) ==> SplicedOk(G(), u, v, k, itNext, itPrev)
    {
      hide ItersOk, OthersOk, SelfLinked, SelfLinkedAt, ListsOk, IsSegment, Predecessor, Successor;
      ArrayBounds(G());
      TailOfSegment(G(), next, prev, tail, u, v, k);
      var before := NonEmptyBefore(u, v, k);
      var after := NonEmptyAfter(u, tail[v], k + |circ[v]| - 1);
      IteratorsSpliced(G(), itNext, itPrev, u, v, k, before, after);
      itNext := itNext[before := after];
      itPrev := itPrev[after := before];
    }

    /** Cuts the former circle of v out of the circle of u, where it starts at position k. */
    method SpliceCircle(u: nat, v: nat, ghost k: nat)
      requires Linked() && u < |isHead| && v < |isHead| && u != v && isHead[u] && rep[v] == u
      requires IsSegment(G().Chain(), u, v, k)
      modifies `next, `prev, `isHead, `rep, `circ
      ensures Linked() && G() == old(G().With(Spliced(G().Chain(), u, v, k)))
    {
      ghost var g, n, p, t := G().Chain(), next, prev, tail;
      SegmentInRange(g, n, p, t, u, v, k);
      var tailV := tail[v];
      var prevV, nextTail := prev[v], next[tailV];
      prev := prev[v := tailV];
      next := next[tailV := v];
      prev := prev[nextTail := prevV];
      next := next[prevV := nextTail];
      isHead := isHead[v := true];
      circ := circ[u := Without(circ[u], k, k + |circ[v]|)];
      rep := AllReturned(rep, circ[v], v);
      assert next == NextCut(n, p, v, tailV) && prev == PrevCut(n, p, v, tailV);
      SplicedWired(g, n, p, t, u, v, k);
    }

    method Splice(u: nat, v: nat, ghost k: nat)
      requires Wired() && CanSplice(G(), u, v, k)
      modifies `next, `prev, `isHead, `rep, `circ, `itNext, `itPrev
      ensures Linked() && G() == old(G().With(Spliced(G().Chain(), u, v, k)))
      ensures InRange(itNext, itPrev, |first|)
      ensures old(Iterable()) ==> SplicedOk(old(G()), u, v, k, itNext, itPrev)
    {
      SpliceIterators(u, v, k);
      SpliceCircle(u, v, k);
    }

    /** Links list w behind `last`, as the end of the iterator list of u. */
    method RestoreItLink(u: nat, last: nat, w: nat)
      requires u < |itNext| == |itPrev| && last < |itNext| && w < |itNext|
      modifies `itNext, `itPrev
      ensures itNext == NextLinked(old(itNext), u, last, w) && itPrev == PrevLinked(old(itPrev), u, last, w)
    {
      itNext := itNext[last := w];
      itPrev := itPrev[w := last];
      itNext := itNext[w := u];
      itPrev := itPrev[u := w];
    }

    /** Links list i of the circle c of u, if it is not empty. */
    method LinkIfFilled(u: nat, last: nat, w: nat, ghost c: seq<nat>, ghost i: nat, ghost itNext0: seq<nat>, ghost itPrev0: seq<nat>)
      returns (last': nat)
      requires InRange(itNext, itPrev, |first|) && |firstActive| == |firstInactive| == |first| && last < |first| && u < |first|
      requires w < |first| && i < |c| && c[i] == w && c[0] == u && Distinct(c) && firstActive[w] <= firstInactive[w]
      requires SelfLinkedAt(itNext0, itPrev0, c, Sizes(), 0) ==> RingUpTo(itNext0, itPrev0, itNext, itPrev, c, Sizes(), i, last)
      modifies `itNext, `itPrev
      ensures InRange(itNext, itPrev, |first|) && last' < |first|
      ensures SelfLinkedAt(itNext0, itPrev0, c, Sizes(), 0) ==> RingUpTo(itNext0, itPrev0, itNext, itPrev, c, Sizes(), i + 1, last')
    {
      hide RingUpTo, NextLinked, PrevLinked, InRange, SelfLinkedAt;
      last' := last;
      LinkedInRange(itNext, itPrev, |first|, u, last, w);
      PointersInRange(itNext, itPrev, |first|);
      if SelfLinkedAt(itNext0, itPrev0, c, Sizes(), 0) {
        RingStep(itNext0, itPrev0, itNext, itPrev, c, Sizes(), i, last, w);
      }
      if firstInactive[w] - firstActive[w] > 0 {
        RestoreItLink(u, last, w);
        last' := w;
      }
    }

    method ContractIncidentEdge(u: nat, v: nat, x: nat)
      requires x < |edges| && v < |degree| && edges[x].back < |edges|
      modifies `edges, `degree
      ensures edges == ContractStep(old(edges), u, x)
      ensures degree == LoopStep(old(edges), old(degree), v, x)
    {
      var e := edges[x];
      if e.IsValid() && e.IsSinglePin() {
        edges := edges[x := e.(target := INVALID)];
        degree := degree[v := degree[v] - 1];
      } else if e.IsValid() {
        edges := edges[x := e.(source := u)];
        edges := edges[e.back := edges[e.back].(target := u)];
      }
    }

    /** Visits list w of v: single-pin edges are disabled, all others now start at u. */
    method ContractList(u: nat, v: nat, w: nat, ghost g: Graph, ghost at: seq<nat>, ghost i: nat)
      requires ListInRange(g, v, w, at, i) && firstActive == g.active && firstInactive == g.last
      requires ContractionAt(g, u, v, Visited(g, at, i, g.active[w]), edges, degree)
      modifies `edges, `degree
      ensures ContractionAt(g, u, v, Visited(g, at, i, g.last[w]), edges, degree)
    {
      hide ContractionAt, Visited;
      var last := firstInactive[w];
      var x := firstActive[w];
      while x < last
        invariant g.active[w] <= x <= last
        invariant ContractionAt(g, u, v, Visited(g, at, i, x), edges, degree)
      {
        ContractNextEdge(u, v, w, x, g, at, i);
        x := x + 1;
      }
    }

    method ContractNextEdge(u: nat, v: nat, w: nat, x: nat, ghost g: Graph, ghost at: seq<nat>, ghost i: nat)
      requires ListInRange(g, v, w, at, i) && g.active[w] <= x < g.last[w]
      requires ContractionAt(g, u, v, Visited(g, at, i, x), edges, degree)
      modifies `edges, `degree
      ensures ContractionAt(g, u, v, Visited(g, at, i, x + 1), edges, degree)
    {
      ContractionStep(g, u, v, w, at, i, x, edges, degree);
      ContractIncidentEdge(u, v, x);
    }

    /** Visits all lists of v. */
    method ContractLists(u: nat, v: nat, ghost g: Graph)
      requires g == G() && Wired() && CanContract(g, u, v)
      modifies `edges, `degree
      ensures edges == Contracted(g, u, v).edges && degree == g.degree[v := g.degree[v] - |g.LoopsOf(v)|]
    {
      ghost var c := g.circ[v];
      ghost var at := MakePositions(c, |g.first|);
      ContractionStart(g, u, v, at);
      var current, finished := v, false;
      ghost var i := 0;
      while !finished
        invariant i <= |c| && (finished <==> i == |c|) && (!finished ==> current == c[i])
        invariant ContractionAt(g, u, v, Visited(g, at, i, Start(g, c, i)), edges, degree)
        decreases |c| - i
      {
        ListNext(g, next, prev, tail, v, at, i);
        ContractList(u, v, current, g, at, i);
        current := next[current];
        finished := current == v;
        i := i + 1;
      }
      ContractionEnd(g, u, v, at, edges, degree);
    }

    /** Contracts v into u: afterwards the array holds the graph with v merged into u. */
    method Contract(u: nat, v: nat)
      requires Valid() && CanContract(G(), u, v)
      modifies this
      ensures Valid() && G() == old(Contracted(G(), u, v))
      ensures old(Iterable()) ==> Iterable()
    {
      hide ItersOk, InRange, ListsOk, Graph.Consistent, Graph.LoopsOf, AllRenamed, ContractedEdge;
      ghost var g := G();
      ContractLists(u, v, g);
      Append(u, v);
      degree := degree[u := degree[u] + degree[v]];
      ContractedValid(g, u, v);
    }
  
    method UncontractIncidentEdge(u: nat, v: nat, x: nat, rejoined: seq<nat>, moved: seq<nat>) returns (rejoined': seq<nat>, moved': seq<nat>)
      requires x < |edges| && v < |degree| && edges[x].back < |edges|
      modifies `edges, `degree
      ensures edges == UncontractStep(old(edges), u, v, x)
      ensures degree == EnableStep(old(edges), old(degree), u, v, x)
      ensures (rejoined', moved') == Reported(old(edges)[x], u, x, rejoined, moved)
    {
      rejoined', moved' := rejoined, moved;
      var e := edges[x];
      if e.source == u {
        if e.target == u {
          rejoined' := rejoined + [x];
        } else {
          moved' := moved + [x];
        }
        edges := edges[x := e.(source := v)];
        edges := edges[e.back := edges[e.back].(target := v)];
      } else if e.source == v {
        edges := edges[x := e.(target := e.source)];
        degree := degree[v := degree[v] + 1];
      }
    }

    /** Visits list w of v: edges that start at u start at v again, and those that the contraction of v
        disabled are enabled. */
    method UncontractList(u: nat, v: nat, w: nat, rejoined: seq<nat>, moved: seq<nat>, ghost g: Graph, ghost at: seq<nat>, ghost i: nat)
      returns (rejoined': seq<nat>, moved': seq<nat>)
      requires ListInRange(g, v, w, at, i) && firstActive == g.active && firstInactive == g.last
      requires UncontractionAt(g, u, v, Visited(g, at, i, g.active[w]), edges, degree) && Distinct(g.circ[v])
      requires ReportsAt(g, u, v, Visited(g, at, i, g.active[w]), rejoined, moved)
      modifies `edges, `degree
      ensures UncontractionAt(g, u, v, Visited(g, at, i, g.last[w]), edges, degree)
      ensures ReportsAt(g, u, v, Visited(g, at, i, g.last[w]), rejoined', moved')
    {
      hide UncontractionAt, Visited, ReportsAt;
      rejoined', moved' := rejoined, moved;
      var last := firstInactive[w];
      var x := firstActive[w];
      while x < last
        invariant g.active[w] <= x <= last
        invariant UncontractionAt(g, u, v, Visited(g, at, i, x), edges, degree)
        invariant ReportsAt(g, u, v, Visited(g, at, i, x), rejoined', moved')
      {
        rejoined', moved' := UncontractNextEdge(u, v, w, x, rejoined', moved', g, at, i);
        x := x + 1;
      }
    }

    method UncontractNextEdge(u: nat, v: nat, w: nat, x: nat, rejoined: seq<nat>, moved: seq<nat>, ghost g: Graph, ghost at: seq<nat>, ghost i: nat)
      returns (rejoined': seq<nat>, moved': seq<nat>)
      requires ListInRange(g, v, w, at, i) && Distinct(g.circ[v]) && g.active[w] <= x < g.last[w]
      requires UncontractionAt(g, u, v, Visited(g, at, i, x), edges, degree) && ReportsAt(g, u, v, Visited(g, at, i, x), rejoined, moved)
      modifies `edges, `degree
      ensures UncontractionAt(g, u, v, Visited(g, at, i, x + 1), edges, degree) && ReportsAt(g, u, v, Visited(g, at, i, x + 1), rejoined', moved')
    {
      hide UncontractionAt, ReportsAt, Visited;
      UncontractionStep(g, u, v, w, at, i, x, edges, degree);
      ReportStep(g, u, v, w, at, i, x, edges, degree, rejoined, moved);
      rejoined', moved' := UncontractIncidentEdge(u, v, x, rejoined, moved);
    }

    /** Visits all lists of v, which is a head again. */
    method UncontractLists(u: nat, v: nat, ghost k: nat, ghost g: Graph, ghost g': Graph) returns (last: nat, rejoined: seq<nat>, moved: seq<nat>)
      requires CanUncontract(g, u, v, k) && g' == G() && Wired()
      requires g' == g.With(Spliced(g.Chain(), u, v, k)).(degree := g.degree[u := g.degree[u] - g.degree[v]])
      modifies `edges, `degree, `itNext, `itPrev
      ensures edges == Uncontracted(g, u, v, k).edges && degree == Uncontracted(g, u, v, k).degree
      ensures InRange(itNext, itPrev, |first|)
      ensures SelfLinkedAt(old(itNext), old(itPrev), circ[v], Sizes(), 0) ==>
                RingUpTo(old(itNext), old(itPrev), itNext, itPrev, circ[v], Sizes(), |circ[v]|, last)
      ensures Lists(rejoined, ReportSet(g, u, v, true)) && Lists(moved, ReportSet(g, u, v, false))
    {
      hide RingUpTo, InRange, SelfLinkedAt, UncontractionAt, UncontractedEdge, ListsOk, Visited, ReportsAt, ReportSet, Lists;
      ghost var itNext0, itPrev0 := itNext, itPrev;
      ghost var c := g.circ[v];
      ghost var at := MakePositions(c, |g.first|);
      UncontractionStart(g, u, v, k, at);
      SegmentDistinct(g, u, v, k);
      NothingLinked(itNext, itPrev, c, Sizes());
      NothingReported(g, u, v, at);
      rejoined, moved := [], [];
      var current, finished := v, false;
      last := v;
      ghost var i := 0;
      while !finished
        invariant i <= |c| && (finished <==> i == |c|) && (!finished ==> current == c[i])
        invariant UncontractionAt(g, u, v, Visited(g, at, i, Start(g, c, i)), edges, degree)
        invariant InRange(itNext, itPrev, |first|) && last < |first|
        invariant SelfLinkedAt(itNext0, itPrev0, c, Sizes(), 0) ==> RingUpTo(itNext0, itPrev0, itNext, itPrev, c, Sizes(), i, last)
        invariant ReportsAt(g, u, v, Visited(g, at, i, Start(g, c, i)), rejoined, moved)
        decreases |c| - i
      {
        ReturningListNext(g, g', next, prev, tail, u, v, k, at, i);
        rejoined, moved := UncontractList(u, v, current, rejoined, moved, g, at, i);
        last := LinkIfFilled(v, last, current, c, i, itNext0, itPrev0);
        current := next[current];
        finished := current == v;
        i := i + 1;
      }
      UncontractionEnd(g, u, v, k, at, edges, degree);
      AllEdgesReported(g, u, v, at, rejoined, moved);
    }

    /** Undoes the contraction of v into u. Reports the edges that join u and v again, and the edges of v to other
        nodes. */
    method Uncontract(u: nat, v: nat, ghost k: nat) returns (rejoined: seq<nat>, moved: seq<nat>)
      requires Wired() && CanUncontract(G(), u, v, k)
      modifies this
      ensures Wired() && G() == old(Uncontracted(G(), u, v, k))
      ensures old(Iterable()) ==> Iterable()
      ensures Lists(rejoined, old(ReportSet(G(), u, v, true))) && Lists(moved, old(ReportSet(G(), u, v, false)))
    {
      hide ItersOk, OthersOk, SelfLinked, InRange, ListsOk, RingUpTo, SelfLinkedAt, CanUncontract, CanSplice, UncontractedEdge, DisabledAt, AllReturned, ReportSet, Lists, Graph.Shape, Graph.Circles;
      ghost var g := G();
      Splicable(g, u, v, k);
      UncontractedShape(g, u, v, k);
      Splice(u, v, k);
      degree := degree[u := degree[u] - degree[v]];
      ghost var g', itNext0, itPrev0 := G(), itNext, itPrev;
      var last;
      last, rejoined, moved := UncontractLists(u, v, k, g, g');
      if old(Iterable()) { IteratorsRestored(g, u, v, k, itNext0, itPrev0, itNext, itPrev, last); }
    }
  
    // ---------- Removing single-pin and parallel edges ----------

    method CollectIncidentEdge(u: nat, x: nat, infos: seq<ParallelEdgeInformation>) returns (infos': seq<ParallelEdgeInformation>)
      requires x < |edges| && u < |degree|
      modifies `removable, `degree
      ensures infos' == Collected(edges, infos, x) && removable == Loosened(edges, old(removable), x)
      ensures degree == LoosenedDegree(edges, old(degree), u, x)
    {
      infos' := infos;
      var e := edges[x];
      if e.IsValid() && !e.IsSinglePin() {
        var uniqueId := if x < e.back then x else e.back;
        infos' := infos + [ParallelEdgeInformation(e.target, x, uniqueId)];
      } else {
        removable := removable + {x};
        if e.IsValid() {
          degree := degree[u := degree[u] - 1];
        }
      }
    }

    method CollectList(u: nat, w: nat, infos: seq<ParallelEdgeInformation>, ghost g: Graph, ghost seen: set<nat>, ghost dups: set<nat>,
                       ghost at: seq<nat>, ghost i: nat)
      returns (infos': seq<ParallelEdgeInformation>)
      requires ListOfHead(g, u, w, at, i, seen) && firstActive == g.active && firstInactive == g.last
      requires CollectAt(g, seen, Visited(g, at, i, g.active[w]), infos, dups, edges, removable, degree)
      modifies `removable, `degree
      ensures CollectAt(g, seen, Visited(g, at, i, g.last[w]), infos', dups, edges, removable, degree)
    {
      infos' := infos;
      var x := firstActive[w];
      while x < firstInactive[w]
        invariant g.active[w] <= x <= g.last[w]
        invariant CollectAt(g, seen, Visited(g, at, i, x), infos', dups, edges, removable, degree)
      {
        CollectionStep(g, u, w, at, i, x, seen, infos', dups, edges, removable, degree);
        infos' := CollectIncidentEdge(u, x, infos');
        x := x + 1;
      }
    }

    /** Marks the loose edges of head u and lists all others. */
    method CollectHead(u: nat, ghost g: Graph, ghost dups: set<nat>) returns (infos: seq<ParallelEdgeInformation>)
      requires g.Valid() && ListsOk(g.Chain(), next, prev, tail) && u < |g.isHead| && g.isHead[u]
      requires firstActive == g.active && firstInactive == g.last
      requires MarkState(g, HeadsSeen(g, u), dups, edges, removable, degree)
      modifies `removable, `degree
      ensures CollectAt(g, HeadsSeen(g, u), EdgesOfHead(g, u), infos, dups, edges, removable, degree)
    {
      ghost var c, seen := g.circ[u], HeadsSeen(g, u);
      ghost var at := MakePositions(c, |g.first|);
      infos := [];
      CollectionStart(g, u, at, dups, edges, removable, degree);
      var current, finished := u, false;
      ghost var i := 0;
      while !finished
        invariant i <= |c| && (finished <==> i == |c|) && (!finished ==> current == c[i])
        invariant CollectAt(g, seen, Visited(g, at, i, Start(g, c, i)), infos, dups, edges, removable, degree)
        decreases |c| - i
      {
        ListNext(g, next, prev, tail, u, at, i);
        HeadListSeen(g, u, current, at, i);
        infos := CollectList(u, current, infos, g, seen, dups, at, i);
        current := next[current];
        finished := current == u;
        i := i + 1;
      }
      VisitedHead(g, u, at);
    }

    method MarkEdge(u: nat, x: nat, representative: nat)
      requires x < |edges| && representative < |edges| && u < |degree|
      modifies `edges, `removable, `degree
      ensures edges == MarkDuplicate(old(edges), x, representative) && removable == old(removable) + {x}
      ensures degree == old(degree)[u := old(degree)[u] - 1]
    {
      edges := edges[x := edges[x].(source := representative)];
      edges := edges[representative := edges[representative].(weight := edges[representative].weight + edges[x].weight)];
      removable := removable + {x};
      degree := degree[u := degree[u] - 1];
    }

    /** Marks all but the first of the edges with the same target. */
    method MarkDuplicates(u: nat, infos: seq<ParallelEdgeInformation>, ghost g: Graph, ghost seen: set<nat>, ghost dups: set<nat>)
      returns (ghost dups': set<nat>)
      requires g.Valid() && SortedEdges(g, u, infos) && MarkState(g, seen, dups, edges, removable, degree)
      requires forall i :: 0 <= i < |infos| ==> infos[i].edgeId !in seen
      modifies `edges, `removable, `degree
      ensures MarkState(g, seen + IdsOf(infos), dups', edges, removable, degree)
    {
      dups' := dups;
      if infos == [] {
        assert seen + IdsOf(infos) == seen;
      } else {
        SecondPassStart(g, u, infos, seen, dups', edges, removable, degree);
        var representative := infos[0].edgeId;
        ghost var r: nat := 0;
        var i := 0;
        while i + 1 < |infos|
          invariant i < |infos| && r <= i && representative == infos[r].edgeId
          invariant SecondPassAt(g, u, infos, seen, i + 1, r, dups', edges, removable, degree)
        {
          representative, r, dups' := CompareWithNext(u, infos, i, representative, g, seen, dups', r);
          i := i + 1;
        }
        assert infos[..i + 1] == infos;
      }
    }

    /** Compares edge i with the next one, which is a duplicate or the next to be kept. */
    method CompareWithNext(u: nat, infos: seq<ParallelEdgeInformation>, i: nat, representative: nat,
                           ghost g: Graph, ghost seen: set<nat>, ghost dups: set<nat>, ghost r: nat)
      returns (representative': nat, ghost r': nat, ghost dups': set<nat>)
      requires i + 1 < |infos| && r <= i && representative == infos[r].edgeId && infos[i + 1].edgeId !in seen
      requires SecondPassAt(g, u, infos, seen, i + 1, r, dups, edges, removable, degree)
      modifies `edges, `removable, `degree
      ensures r' <= i + 1 && representative' == infos[r'].edgeId
      ensures SecondPassAt(g, u, infos, seen, i + 2, r', dups', edges, removable, degree)
    {
      representative', r', dups' := representative, r, dups;
      if infos[i].target == infos[i + 1].target {
        NextIsDuplicate(g, u, infos, seen, i + 1, r, dups, edges, removable, degree);
        MarkEdge(u, infos[i + 1].edgeId, representative);
        dups' := dups + {infos[i + 1].edgeId};
      } else {
        NextIsKept(g, u, infos, seen, i + 1, r, dups, edges, removable, degree);
        representative' := infos[i + 1].edgeId;
        r' := i + 1;
      }
    }

    /** Step one of the removal: marks the edges that go, and updates the weights of the others. */
    method MarkEdges(ghost g: Graph) returns (ghost dups: set<nat>)
      requires Valid() && g == G()
      modifies `edges, `removable, `degree
      ensures MarkState(g, HeadsSeen(g, |g.first|), dups, edges, removable, degree)
    {
      removable := {};
      dups := {};
      MarkStart(g);
      assert HeadsSeen(g, 0) == {};
      var u := 0;
      while u < |first|
        invariant u <= |first|
        invariant MarkState(g, HeadsSeen(g, u), dups, edges, removable, degree)
      {
        if isHead[u] {
          var infos := CollectHead(u, g, dups);
          var sorted := Sort(infos, Before);
          SortedHead(g, u, infos, sorted, dups, edges, removable, degree);
          dups := MarkDuplicates(u, sorted, g, HeadsSeen(g, u) + LooseIn(g, EdgesOfHead(g, u)), dups);
          HeadDone(g, u, sorted);
        } else {
          NoHead(g, u);
        }
        u := u + 1;
      }
    }
  
    /** Follows the cycle of newId in the permutation up to its predecessor. Entries in `stale` do not
        hold the permutation, but the cycle avoids them. */
    method PermutationSource(newId: nat, ghost sigma: seq<nat>, ghost inv: seq<nat>, ghost stale: set<nat>) returns (source: nat)
      requires Inverse(inv, sigma) && |sigma| == |edgeMapping| && newId < |sigma| && newId !in stale
      requires Agrees(edgeMapping, sigma, stale)
      ensures source < |edgeMapping| && source == inv[newId]
    {
      source := newId;
      ghost var visited := {newId};
      assert AgreesAt(edgeMapping, sigma, stale, newId);
      while edgeMapping[source] != newId
        invariant source < |sigma| && source in visited && newId in visited && visited <= UpTo(|sigma|) && visited !! stale
        invariant AgreesAt(edgeMapping, sigma, stale, source)
        invariant forall y :: y in visited && y != source ==> sigma[y] != newId
        invariant forall y :: y in visited && y != newId ==> inv[y] in visited && inv[y] != source
        decreases |sigma| - |visited|
      {
        ghost var before := visited;
        assert inv[sigma[source]] == source;
        source := edgeMapping[source];
        assert AgreesAt(edgeMapping, sigma, stale, source);
        visited := visited + {source};
        SubsetSize(visited, UpTo(|sigma|));
      }
      assert inv[sigma[source]] == source;
    }

    method SwapAndUpdateMapping(e: nat, newId: nat, ghost sigma: seq<nat>, ghost inv: seq<nat>, ghost stale: set<nat>)
      requires Inverse(inv, sigma) && |sigma| == |edgeMapping| == |edges| && newId < |sigma| && newId !in stale && e < |edges|
      requires Agrees(edgeMapping, sigma, stale)
      modifies `edges, `edgeMapping
      ensures edges == SwapAt(old(edges), e, newId) && inv[newId] < |edgeMapping|
      ensures edgeMapping == Turned(old(edgeMapping), inv, e, newId)
    {
      var source := PermutationSource(newId, sigma, inv, stale);
      edges := edges[e := edges[newId]][newId := edges[e]];
      edgeMapping := edgeMapping[e := newId];
      edgeMapping := edgeMapping[source := e];
    }
  
    /** Swaps the marked edges of slice w to its front. */
    method MoveSlice(w: nat, removed: seq<RemovedEdge>, ghost g: Graph, ghost marked: seq<Edge>, ghost slots: seq<seq<nat>>)
      returns (removed': seq<RemovedEdge>, ghost slots': seq<seq<nat>>)
      requires PermutedBy(g, marked, slots, edges, edgeMapping, firstActive) && Recorded(g, slots, removed)
      requires w < |slots| && slots[w] == [] && firstInactive == g.last
      modifies `edges, `edgeMapping, `firstActive
      ensures PermutedBy(g, marked, slots', edges, edgeMapping, firstActive) && Recorded(g, slots', removed')
      ensures slots' == slots[w := slots'[w]] && ListsMarked(g.active[w], removable, slots'[w], g.last[w])
      ensures w < |firstActive| && firstActive == old(firstActive)[w := firstActive[w]]
    {
      removed' := removed;
      slots' := slots;
      forall x: nat ensures ListsMarkedAt(g.active[w], removable, [], g.active[w], x) {}
      var e := firstActive[w];
      while e < firstInactive[w]
        invariant g.active[w] <= e <= g.last[w]
        invariant PermutedBy(g, marked, slots', edges, edgeMapping, firstActive) && Recorded(g, slots', removed')
        invariant slots' == slots[w := slots'[w]] && ListsMarked(g.active[w], removable, slots'[w], e)
        invariant w < |firstActive| && firstActive == old(firstActive)[w := firstActive[w]]
      {
        if e in removable {
          RemovalStep(g, marked, removable, slots', removed', edges, edgeMapping, firstActive, w, e);
          var newId := firstActive[w];
          MappingAgrees(edgeMapping);
          SwapAndUpdateMapping(e, newId, edgeMapping, Contents(g, slots'), {});
          firstActive := firstActive[w := firstActive[w] + 1];
          removed' := removed' + [RemovedEdge(newId, e)];
          slots' := slots'[w := slots'[w] + [e]];
        } else {
          SlotSkips(g.active[w], removable, slots'[w], e, e + 1);
        }
        e := e + 1;
      }
    }

    /** An empty list that does not head its circle is linked to itself. */
    method UnlinkIfEmpty(w: nat, ghost size: seq<nat>)
      requires w < |firstActive| == |firstInactive| == |isHead| == |size| && firstActive[w] <= firstInactive[w]
      requires InRange(itNext, itPrev, |isHead|) && EmptiesLinked(G().Chain(), itNext, itPrev, size, w) && Sizes() == size[w := Sizes()[w]]
      modifies `itNext, `itPrev
      ensures InRange(itNext, itPrev, |isHead|) && EmptiesLinked(G().Chain(), itNext, itPrev, Sizes(), w + 1)
    {
      hide EmptiesLinked;
      ghost var itNext0, itPrev0 := itNext, itPrev;
      if firstInactive[w] - firstActive[w] == 0 && !isHead[w] {
        itNext := itNext[w := w];
        itPrev := itPrev[w := w];
      }
      OneMoreEmpty(G().Chain(), itNext0, itPrev0, itNext, itPrev, size, Sizes(), w);
    }

    /** Step two of the removal. */
    method MoveEdges(ghost g: Graph, ghost marked: seq<Edge>) returns (removed: seq<RemovedEdge>, ghost slots: seq<seq<nat>>)
      requires g.Shape() && marked == edges && |edges| == |g.edges| && firstActive == g.active && firstInactive == g.last
      requires edgeMapping == Identity(|edges|) && InRange(itNext, itPrev, |g.first|) && isHead == g.isHead
      modifies `edges, `edgeMapping, `firstActive, `itNext, `itPrev
      ensures PermutedBy(g, marked, slots, edges, edgeMapping, firstActive) && Recorded(g, slots, removed)
      ensures forall w: nat :: w < |slots| ==> ListsMarked(g.active[w], removable, slots[w], g.last[w])
      ensures InRange(itNext, itPrev, |g.first|) && EmptiesLinked(G().Chain(), itNext, itPrev, Sizes(), |g.first|)
    {
      hide ListsMarked, EmptyLinked, Permuted, Inverse, SlotsOk, InRange;
      slots := NoSlotsYet(|g.first|);
      removed := [];
      NothingPermuted(g, marked, slots, edgeMapping);
      var w := 0;
      while w < |firstInactive|
        invariant w <= |slots| == |g.first|
        invariant PermutedBy(g, marked, slots, edges, edgeMapping, firstActive) && Recorded(g, slots, removed)
        invariant forall x :: w <= x < |slots| ==> slots[x] == []
        invariant forall x: nat :: x < w ==> ListsMarked(g.active[x], removable, slots[x], g.last[x])
        invariant InRange(itNext, itPrev, |g.first|) && EmptiesLinked(G().Chain(), itNext, itPrev, Sizes(), w)
      {
        ghost var size, active := Sizes(), firstActive;
        removed, slots := MoveSlice(w, removed, g, marked, slots);
        ActiveInSlice(g, marked, slots, edges, edgeMapping, firstActive, w);
        OneSizeChanged(active, firstActive, firstInactive, w);
        UnlinkIfEmpty(w, size);
        w := w + 1;
      }
    }

    /** Replaces every back edge by where it is now. */
    method ApplyEdgeMapping()
      requires forall x :: 0 <= x < |edges| ==> edges[x].back < |edgeMapping|
      modifies `edges
      ensures edges == AllMoved(old(edges), edgeMapping)
    {
      var x := 0;
      while x < |edges|
        invariant x <= |edges| == |old(edges)|
        invariant forall y :: 0 <= y < |edges| ==> edges[y] == if y < x then MovedBack(old(edges)[y], edgeMapping) else old(edges)[y]
      {
        edges := edges[x := edges[x].(back := edgeMapping[edges[x].back])];
        x := x + 1;
      }
    }

    /** Links the head u and its non-empty lists to a ring. */
    method RestoreIteratorPointers(u: nat)
      requires Linked() && InRange(itNext, itPrev, |first|) && |firstActive| == |firstInactive| == |first| == |isHead| && u < |isHead| && isHead[u]
      requires forall w :: 0 <= w < |first| ==> firstActive[w] <= firstInactive[w]
      modifies `itNext, `itPrev
      ensures InRange(itNext, itPrev, |first|) && |old(itNext)| == |old(itPrev)| == |first|
      ensures forall w: nat {:trigger SameAt(old(itNext), old(itPrev), itNext, itPrev, w)} ::
                w !in circ[u] || (w != u && w < |first| && Sizes()[w] == 0) ==> SameAt(old(itNext), old(itPrev), itNext, itPrev, w)
      ensures SelfLinked(old(itNext), old(itPrev), circ[u], Sizes()) ==> IterOk(itNext, itPrev, circ[u], Sizes())
    {
      hide RingUpTo, InRange, SelfLinked, ListsOk, IterOk, NextLinked, PrevLinked;
      PointersInRange(itNext, itPrev, |first|);
      ghost var itNext0, itPrev0, c := itNext, itPrev, circ[u];
      CircleFacts(G().Chain(), next, prev, tail, u);
      NothingLinked(itNext, itPrev, c, Sizes());
      var current, last, finished := u, u, false;
      ghost var i := 0;
      while !finished
        invariant i <= |c| && (finished <==> i == |c|) && (!finished ==> current == c[i])
        invariant InRange(itNext, itPrev, |first|) && RingUpTo(itNext0, itPrev0, itNext, itPrev, c, Sizes(), i, last)
        decreases |c| - i
      {
        NextInRing(next, prev, c, i);
        PointersInRange(itNext, itPrev, |first|);
        RingStep(itNext0, itPrev0, itNext, itPrev, c, Sizes(), i, last, current);
        if firstInactive[current] - firstActive[current] > 0 || current == u {
          LinkedInRange(itNext, itPrev, |first|, u, last, current);
          RestoreItLink(u, last, current);
          last := current;
        }
        current := next[current];
        finished := current == u;
        i := i + 1;
      }
      RingEnds(itNext0, itPrev0, itNext, itPrev, c, Sizes(), last);
    }

    /** Step three of the removal: the iterator lists of all heads. */
    method RestoreAllIterators()
      requires Linked() && InRange(itNext, itPrev, |first|) && |firstActive| == |firstInactive| == |first| == |isHead|
      requires forall w :: 0 <= w < |first| ==> firstActive[w] <= firstInactive[w]
      requires EmptiesLinked(G().Chain(), itNext, itPrev, Sizes(), |first|)
      modifies `itNext, `itPrev
      ensures InRange(itNext, itPrev, |first|) && ItersOk(G().Chain(), itNext, itPrev, Sizes())
    {
      var u := 0;
      while u < |first|
        invariant u <= |first| && InRange(itNext, itPrev, |first|)
        invariant EmptiesLinked(G().Chain(), itNext, itPrev, Sizes(), |first|) && HeadsLinked(G().Chain(), itNext, itPrev, Sizes(), u)
      {
        if isHead[u] {
          ghost var itNext0, itPrev0 := itNext, itPrev;
          CircleSelfLinked(G().Chain(), itNext, itPrev, Sizes(), u);
          RestoreIteratorPointers(u);
          OneMoreHead(G().Chain(), itNext0, itPrev0, itNext, itPrev, Sizes(), u);
        } else {
          HeadSkipped(G().Chain(), itNext, itPrev, Sizes(), u);
        }
        u := u + 1;
      }
    }

    /** Marks the edges that go, moves them to the front of their slices, and links the iterator lists. */
    method MoveMarked(ghost g: Graph) returns (removed: seq<RemovedEdge>, ghost r: Removal)
      requires Valid() && g == G()
      modifies `edges, `removable, `degree, `edgeMapping, `firstActive, `itNext, `itPrev
      ensures MarkState(g, HeadsSeen(g, |g.first|), r.dups, r.marked, removable, degree)
      ensures PermutedBy(g, r.marked, r.slots, edges, r.mapping, firstActive) && Recorded(g, r.slots, removed) && r.mapping == edgeMapping
      ensures forall w: nat :: w < |r.slots| ==> ListsMarked(g.active[w], removable, r.slots[w], g.last[w])
      ensures InRange(itNext, itPrev, |first|) && Iterable()
    {
      hide ItersOk, InRange, ListsOk, EmptiesLinked, Recorded, MarkState, PermutedBy, ListsMarked, Graph.Consistent, Chains.Valid;
      ArrayShape(g);
      ghost var dups := MarkEdges(g);
      ghost var marked := edges;
      MarkedLength(g, HeadsSeen(g, |g.first|), dups, edges, removable, degree);
      edgeMapping := Identity(|edges|);
      ghost var slots;
      removed, slots := MoveEdges(g, marked);
      ActiveInSlices(g, marked, slots, edges, edgeMapping, firstActive);
      RestoreAllIterators();
      r := Removal(dups, marked, slots, edgeMapping);
    }

    /** Removes all single-pin edges and all but one of every set of parallel edges. */
    method RemoveSinglePinAndParallelEdges() returns (removed: seq<RemovedEdge>, ghost r: Removal)
      requires Valid()
      modifies this
      ensures RemovalOk(old(G()), r) && Recorded(old(G()), r.slots, removed)
      ensures G() == Removed(old(G()), r) && Valid() && Iterable()
      ensures next == old(next) && prev == old(prev) && tail == old(tail)
    {
      hide ItersOk, InRange, ListsOk, Recorded, MarkState, PermutedBy, ListsMarked, Graph.Consistent, Chains.Valid, RemovalOk, Removed, AllMoved;
      ghost var g := G();
      removed, r := MoveMarked(g);
      RemovalDone(g, r, edges, firstActive, removable, degree);
      ApplyEdgeMapping();
    }

    // ---------- Restoring them ----------

    /** Step one: marks the positions of the removed edges and saves their swap targets in the mapping. */
    method RecordTargets(removed: seq<RemovedEdge>, ghost g: Graph, ghost slots: seq<seq<nat>>)
      requires SlotsOk(g, slots) && Recorded(g, slots, removed) && |edges| == |g.edges|
      modifies `removable, `edgeMapping
      ensures removable == Pending(g, slots) && |edgeMapping| == |edges|
      ensures forall y: nat :: y < |edgeMapping| ==> edgeMapping[y] == TargetOf(g, slots, removable, y)
    {
      removable := {};
      edgeMapping := Identity(|edges|);
      for i := 0 to |removed|
        invariant |edgeMapping| == |edges| && removable == PositionsOf(removed[..i])
        invariant removable <= Pending(g, slots)
        invariant forall y: nat :: y < |edgeMapping| ==> edgeMapping[y] == TargetOf(g, slots, removable, y)
      {
        var re := removed[i];
        assert RecordOk(g, slots, re);
        OneMorePosition(removed, i);
        removable := removable + {re.edgeId};
        edgeMapping := edgeMapping[re.edgeId := re.oldId];
      }
      assert removed[..|removed|] == removed;
      AllRecorded(g, slots, removed);
    }

    /** Swaps the edge at position e back to where it was. */
    method RestoreEdge(w: nat, e: nat, ghost sigma: seq<nat>, ghost inv: seq<nat>, ghost stale: set<nat>)
      requires Inverse(inv, sigma) && |sigma| == |edgeMapping| == |edges| && e < |edges| && edgeMapping[e] < |edges| && edgeMapping[e] !in stale
      requires Agrees(edgeMapping, sigma, stale)
      requires w < |firstActive| && firstActive[w] == e + 1
      modifies `edges, `edgeMapping, `firstActive, `removable
      ensures edges == SwapAt(old(edges), e, old(edgeMapping)[e]) && inv[old(edgeMapping)[e]] < |edgeMapping|
      ensures edgeMapping == Turned(old(edgeMapping), inv, e, old(edgeMapping)[e])
      ensures firstActive == old(firstActive)[w := e] && removable == old(removable) - {e} + {old(edgeMapping)[e]}
    {
      removable := removable - {e};
      removable := removable + {edgeMapping[e]};
      SwapAndUpdateMapping(e, edgeMapping[e], sigma, inv, stale);
      firstActive := firstActive[w := firstActive[w] - 1];
    }

    /** Swaps the removed edges of slice w back, in reverse order. */
    method RestoreSlice(w: nat, ghost g: Graph, ghost moved: seq<Edge>, ghost all: seq<seq<nat>>, ghost slots: seq<seq<nat>>,
                        ghost sigma: seq<nat>, ghost inv: seq<nat>)
      returns (ghost slots': seq<seq<nat>>, ghost sigma': seq<nat>, ghost inv': seq<nat>)
      requires RestoringAt(g, moved, all, slots, sigma, inv, edges, edgeMapping, firstActive, removable)
      requires w < |slots| == |first| && first == g.first
      modifies `edges, `edgeMapping, `firstActive, `removable
      ensures RestoringAt(g, moved, all, slots', sigma', inv', edges, edgeMapping, firstActive, removable)
      ensures slots' == slots[w := []]
    {
      hide RestoringAt;
      slots', sigma', inv' := slots, sigma, inv;
      FirstPending(g, moved, all, slots', sigma', inv', edges, edgeMapping, firstActive, removable, w);
      var curr := firstActive[w];
      while curr > first[w] && curr - 1 in removable
        invariant RestoringAt(g, moved, all, slots', sigma', inv', edges, edgeMapping, firstActive, removable)
        invariant |slots'| == |slots| && slots' == slots[w := slots'[w]] && w < |firstActive| && firstActive[w] == curr
        invariant curr > first[w] && curr - 1 in removable <==> slots'[w] != []
        decreases |slots'[w]|
      {
        slots', sigma', inv' := RestoreLastEdge(w, g, moved, all, slots', sigma', inv');
        curr := curr - 1;
        FirstPending(g, moved, all, slots', sigma', inv', edges, edgeMapping, firstActive, removable, w);
      }
    }

    /** Swaps the last removed edge of slice w back. */
    method RestoreLastEdge(w: nat, ghost g: Graph, ghost moved: seq<Edge>, ghost all: seq<seq<nat>>, ghost slots: seq<seq<nat>>,
                           ghost sigma: seq<nat>, ghost inv: seq<nat>)
      returns (ghost slots': seq<seq<nat>>, ghost sigma': seq<nat>, ghost inv': seq<nat>)
      requires RestoringAt(g, moved, all, slots, sigma, inv, edges, edgeMapping, firstActive, removable)
      requires w < |slots| && slots[w] != []
      modifies `edges, `edgeMapping, `firstActive, `removable
      ensures RestoringAt(g, moved, all, slots', sigma', inv', edges, edgeMapping, firstActive, removable)
      ensures |slots'| == |slots| && slots' == slots[w := slots[w][..|slots[w]| - 1]] && w < |old(firstActive)| == |firstActive| && firstActive[w] == old(firstActive)[w] - 1
    {
      FirstPending(g, moved, all, slots, sigma, inv, edges, edgeMapping, firstActive, removable, w);
      var e := firstActive[w] - 1;
      ghost var oldId, stale := edgeMapping[e], Stale(g, slots, w);
      SwapBack(g, moved, all, slots, sigma, inv, edges, edgeMapping, firstActive, removable, w, e, oldId);
      SearchIsSafe(g, moved, all, slots, sigma, inv, edges, edgeMapping, firstActive, removable, w);
      RestoreEdge(w, e, sigma, inv, stale);
      slots', sigma', inv' := Shortened(slots, w), Turned(sigma, inv, e, oldId), SwapAt(inv, oldId, e);
    }
  
    /** Step two: all slices. */
    method MoveBack(ghost g: Graph, ghost moved: seq<Edge>, ghost all: seq<seq<nat>>, ghost ident: seq<nat>)
      requires RestoringAt(g, moved, all, all, ident, ident, edges, edgeMapping, firstActive, removable) && first == g.first
      modifies `edges, `edgeMapping, `firstActive, `removable
      ensures edges == moved && edgeMapping == Contents(g, all) && firstActive == g.active
      ensures forall x: nat :: x in removable <==> x < |g.edges| && x in all[g.owner[x]]
    {
      ghost var slots, sigma, inv := all, ident, ident;
      var w := 0;
      while w < |first|
        invariant w <= |first| == |slots|
        invariant RestoringAt(g, moved, all, slots, sigma, inv, edges, edgeMapping, firstActive, removable)
        invariant forall x :: 0 <= x < w ==> slots[x] == []
      {
        slots, sigma, inv := RestoreSlice(w, g, moved, all, slots, sigma, inv);
        w := w + 1;
      }
      RestoreEnd(g, moved, all, slots, sigma, inv, edges, edgeMapping, firstActive, removable);
    }

    /** Restores source and weights for the edge x of head u. */
    method RestoreMarkedEdge(u: nat, x: nat, numRestored: nat) returns (n: nat)
      requires x < |edges|
      requires x in removable && edges[x].IsValid() && edges[x].target != u ==> edges[x].source < |edges|
      modifies `edges
      ensures edges == RestoredEdges(old(edges), removable, u, x)
      ensures n == numRestored + if x in removable && old(edges)[x].IsValid() then 1 else 0
    {
      n := numRestored;
      var e := edges[x];
      if x in removable && e.IsValid() && e.target != u {
        edges := edges[e.source := edges[e.source].(weight := edges[e.source].weight - e.weight)];
        edges := edges[x := edges[x].(source := u)];
      }
      if x in removable && e.IsValid() {
        n := n + 1;
      }
    }

    method RestoreList(u: nat, w: nat, ghost g: Graph, ghost dups: set<nat>, ghost at: seq<nat>, ghost i: nat) returns (numRestored: nat)
      requires g.Valid() && ListOfHead(g, u, w, at, i, HeadsSeen(g, u)) && firstActive == g.active && firstInactive == g.last
      requires RestoredUpTo(g, dups, removable, HeadsSeen(g, u) + Visited(g, at, i, g.active[w]), edges, degree)
      modifies `edges, `degree
      ensures RestoredUpTo(g, dups, removable, HeadsSeen(g, u) + Visited(g, at, i, g.last[w]), edges, degree)
      ensures u < |old(degree)| == |degree| && degree[u] == old(degree)[u] + numRestored
    {
      hide RestoredUpTo, Visited, HeadsSeen, Graph.Valid;
      RestorationInRange(g, u, w, at, i, dups, removable, edges, degree);
      numRestored := 0;
      var x := firstActive[w];
      while x < firstInactive[w]
        invariant g.active[w] <= x <= g.last[w] && u < |degree| && degree == old(degree)
        invariant RestoredUpTo(g, dups, removable, HeadsSeen(g, u) + Visited(g, at, i, x), edges, degree[u := degree[u] + numRestored])
      {
        RestorationStep(g, u, w, at, i, x, dups, removable, edges, degree, numRestored);
        numRestored := RestoreMarkedEdge(u, x, numRestored);
        x := x + 1;
      }
      degree := degree[u := degree[u] + numRestored];
    }

    /** Restores the lists of head u, and returns whether there was an edge to restore that was not disabled. */
    method RestoreLists(u: nat, ghost g: Graph, ghost dups: set<nat>) returns (restoreIt: bool)
      requires g.Valid() && ListsOk(g.Chain(), next, prev, tail) && u < |g.isHead| && g.isHead[u]
      requires firstActive == g.active && firstInactive == g.last
      requires RestoredUpTo(g, dups, removable, HeadsSeen(g, u), edges, degree)
      modifies `edges, `degree
      ensures RestoredUpTo(g, dups, removable, HeadsSeen(g, u + 1), edges, degree)
      ensures u < |old(degree)| == |degree| && (restoreIt <==> degree[u] > old(degree)[u])
    {
      ghost var c := g.circ[u];
      ghost var at := MakePositions(c, |g.first|);
      HeadStart(g, u, at);
      restoreIt := false;
      var current, finished := u, false;
      ghost var i := 0;
      while !finished
        invariant i <= |c| && (finished <==> i == |c|) && (!finished ==> current == c[i])
        invariant RestoredUpTo(g, dups, removable, HeadsSeen(g, u) + Visited(g, at, i, Start(g, c, i)), edges, degree)
        invariant u < |old(degree)| == |degree| && degree[u] >= old(degree)[u] && (restoreIt <==> degree[u] > old(degree)[u])
        decreases |c| - i
      {
        ListNext(g, next, prev, tail, u, at, i);
        HeadListSeen(g, u, current, at, i);
        var numRestored := RestoreList(u, current, g, dups, at, i);
        restoreIt := restoreIt || numRestored > 0;
        current := next[current];
        finished := current == u;
        i := i + 1;
      }
      VisitedHead(g, u, at);
      assert HeadsSeen(g, u) + EdgesOfHead(g, u) == HeadsSeen(g, u + 1);
    }

    /** Restores head u; its iterator list is built anew only if an edge came back that is not disabled. */
    method RestoreHead(u: nat, ghost g: Graph, ghost dups: set<nat>, ghost itNext0: seq<nat>, ghost itPrev0: seq<nat>)
      requires g.Valid() && G().Chain() == g.Chain() && ListsOk(g.Chain(), next, prev, tail) && u < |g.isHead| && g.isHead[u]
      requires first == g.first && firstActive == g.active && firstInactive == g.last && InRange(itNext, itPrev, |first|)
      requires RestoredUpTo(g, dups, removable, HeadsSeen(g, u), edges, degree)
      requires HeadsRestored(g, itNext0, itPrev0, itNext, itPrev, u)
      modifies `edges, `degree, `itNext, `itPrev
      ensures RestoredUpTo(g, dups, removable, HeadsSeen(g, u + 1), edges, degree)
      ensures InRange(itNext, itPrev, |first|) && HeadsRestored(g, itNext0, itPrev0, itNext, itPrev, u + 1)
    {
      hide RestoredUpTo, HeadsRestored, InRange, HeadsSeen, Graph.Valid, Chains.Valid, ListsOk;
      ArrayShape(g);
      PointersInRange(itNext, itPrev, |first|);
      ghost var itNext1, itPrev1, edges1, degree1 := itNext, itPrev, edges, degree;
      var restoreIt := RestoreLists(u, g, dups);
      LiveRestored(g, dups, removable, u, edges1, degree1, edges, degree);
      if restoreIt {
        RestoreIteratorPointers(u);
      }
      PointersInRange(itNext, itPrev, |first|);
      HeadDoneRestoring(g, itNext0, itPrev0, itNext1, itPrev1, itNext, itPrev, u, restoreIt);
    }

    /** Step three: sources, weights, degrees and iterator lists. */
    method RestoreMarked(ghost g: Graph, ghost dups: set<nat>)
      requires g.Valid() && G().Chain() == g.Chain() && ListsOk(g.Chain(), next, prev, tail) && first == g.first
      requires firstActive == g.active && firstInactive == g.last && InRange(itNext, itPrev, |first|)
      requires RestoredUpTo(g, dups, removable, {}, edges, degree)
      modifies `edges, `degree, `itNext, `itPrev
      ensures edges == g.edges && degree == g.degree
      ensures InRange(itNext, itPrev, |first|) && HeadsRestored(g, old(itNext), old(itPrev), itNext, itPrev, |first|)
    {
      assert HeadsSeen(g, 0) == {};
      NoneRestored(g, itNext, itPrev);
      ghost var itNext0, itPrev0 := itNext, itPrev;
      var u := 0;
      while u < |first|
        invariant u <= |first|
        invariant RestoredUpTo(g, dups, removable, HeadsSeen(g, u), edges, degree)
        invariant InRange(itNext, itPrev, |first|) && HeadsRestored(g, itNext0, itPrev0, itNext, itPrev, u)
      {
        if isHead[u] {
          RestoreHead(u, g, dups, itNext0, itPrev0);
        } else {
          NoHead(g, u);
          NextRestored(g, itNext0, itPrev0, itNext, itPrev, itNext, itPrev, u);
        }
        u := u + 1;
      }
      AllHeadsSeen(g);
      RestoreDone(g, dups, removable, HeadsSeen(g, |g.first|), edges, degree);
    }

    /** Steps one and two, and the back edges after them: every edge is where it was before the removal. */
    method RestorePlaces(removed: seq<RemovedEdge>, ghost g: Graph, ghost r: Removal)
      requires g.Valid() && RemovalOk(g, r) && Recorded(g, r.slots, removed) && first == g.first
      requires edges == Removed(g, r).edges && firstActive == Removed(g, r).active
      modifies `edges, `edgeMapping, `firstActive, `removable
      ensures edges == r.marked && firstActive == g.active
      ensures forall x: nat :: x in removable <==> x < |g.edges| && x in r.slots[g.owner[x]]
    {
      hide Recorded, Inverse, Graph.Consistent;
      ghost var ident := Identity(|g.edges|);
      RecordTargets(removed, g, r.slots);
      ghost var moved := AllMoved(r.marked, r.mapping);
      RestorationStart(g, r, moved, edges, edgeMapping, removable, ident);
      MoveBack(g, moved, r.slots, ident);
      BacksReturn(g, r, moved, edgeMapping);
      ApplyEdgeMapping();
    }

    /** Restores the edges that were removed from g: the array is exactly g again. The iterator lists are right
        exactly if every head keeps its own: it got an edge back that is not disabled, or it lost no list. */
    method RestoreSinglePinAndParallelEdges(removed: seq<RemovedEdge>, ghost g: Graph, ghost r: Removal)
      requires g.Valid() && RemovalOk(g, r) && Recorded(g, r.slots, removed)
      requires Wired() && G() == Removed(g, r)
      modifies this
      ensures Valid() && G() == g
      ensures old(Iterable()) ==> (Iterable() <==> AllKeep(g))
      ensures next == old(next) && prev == old(prev) && tail == old(tail)
    {
      hide RemovalOk, Recorded, RestoredUpTo, HeadsRestored, ItersOk, AllKeep, InRange, ListsOk, Removed, Graph.Consistent;
      ArrayShape(g);
      ghost var itNext0, itPrev0 := itNext, itPrev;
      RemovedKeepsChain(g, r);
      RestorePlaces(removed, g, r);
      MarkedAgain(g, r, removable, degree);
      RestoreMarked(g, r.dups);
      if old(Iterable()) { LinkedExactlyIfKept(g, r, itNext0, itPrev0, itNext, itPrev); }
    }
  
    /** Walks along the iterator list of u until it meets a head again, and lists the edges that are not disabled:
        exactly the edges of u, each once. */
    method IncidentEdges(u: nat) returns (ids: seq<nat>)
      requires Valid() && Iterable() && u < |isHead| && isHead[u]
      ensures Lists(ids, G().LiveOf(u))
    {
      ghost var l := Live(circ[u], Sizes());
      LiveRing(G().Chain(), itNext, itPrev, Sizes(), u);
      LiveDistinct(G(), u);
      NothingIn(G(), l);
      ids := [];
      var current, end := u, false;
      ghost var i := 0;
      while !end
        invariant i <= |l| && (end <==> i == |l|) && (!end ==> current == l[i])
        invariant Lists(ids, LiveEdgesIn(G(), l[..i]))
        decreases |l| - i
      {
        NextLiveList(G().Chain(), itNext, itPrev, Sizes(), u, i);
        ids := ListValid(current, ids, l, i);
        var lastU := current;
        current := itNext[current];
        end := isHead[current] || lastU == current;
        i := i + 1;
      }
      assert l[..i] == l;
      LiveIsWhole(G(), u);
    }

    /** Lists the edges of slice w that are not disabled. */
    method ListValid(w: nat, ids: seq<nat>, ghost l: seq<nat>, ghost i: nat) returns (ids': seq<nat>)
      requires G().Shape() && i < |l| && l[i] == w && w < |first| && Distinct(l)
      requires Lists(ids, LiveEdgesIn(G(), l[..i]))
      ensures Lists(ids', LiveEdgesIn(G(), l[..i + 1]))
    {
      ids' := ids;
      var x := firstActive[w];
      SliceStarts(G(), l, i, w);
      while x < firstInactive[w]
        invariant firstActive[w] <= x <= firstInactive[w]
        invariant Lists(ids', LiveEdgesIn(G(), l[..i]) + LiveBelow(G(), w, x))
      {
        SliceStep(G(), l, i, w, x, ids');
        if edges[x].IsValid() {
          ids' := ids' + [x];
        }
        x := x + 1;
      }
      SliceEnds(G(), l, i, w);
    }

    /** Undoes a whole history of contractions and removals, the last one first. Whatever they were, the
        array is exactly what it was before the first one; the iterator lists are right if every removal kept
        them. */
    method Uncoarsen(history: seq<Coarsening>, ghost trail: seq<Graph>, ghost removals: seq<Removal>)
      requires |trail| == |history| + 1 && |removals| == |history|
      requires forall i: nat {:trigger CoarseningOk(trail, history, removals, i)} :: i < |history| ==> CoarseningOk(trail, history, removals, i)
      requires Wired() && G() == trail[|history|]
      modifies this
      ensures Wired() && G() == trail[0]
      ensures old(Iterable()) && RemovalsKeep(trail, history) ==> Iterable()
    {
      hide ItersOk, InRange, ListsOk, Graph.Circles, Graph.Consistent, Contracted, Removed, RemovalOk, Recorded, AllKeep;
      var i := |history|;
      while i > 0
        invariant 0 <= i <= |history| && Wired() && G() == trail[i]
        invariant old(Iterable()) && RemovalsKeep(trail, history) ==> Iterable()
      {
        i := i - 1;
        assert CoarseningOk(trail, history, removals, i);
        match history[i] {
          case Contraction(u, v) =>
            UncontractRestores(trail[i], u, v);
            var rejoined, moved := Uncontract(u, v, |trail[i].circ[u]|);
          case ParallelEdgeRemoval(removed) =>
            RestoreSinglePinAndParallelEdges(removed, trail[i], removals[i]);
        }
      }
    }
  }

  /** Builds the array of a list of edges: every edge is stored at both of its ends, and nothing else. Edges with
      equal ends or ends that are no nodes are rejected. */
  method Construct(input: seq<InputEdge>, numNodes: nat) returns (a: DynamicAdjacencyArray?, ghost at: seq<(nat, nat)>)
    requires numNodes <= INVALID
    ensures a == null <==> !AllAcceptable(input, numNodes)
    ensures a != null ==> fresh(a) && a.Valid() && Fresh(a.G()) && a.Iterable() && |a.first| == numNodes && Represents(a.edges, input, at)
  {
    a, at := null, [];
    var ok := CheckInput(input, numNodes);
    if ok {
      var degrees := CountDegrees(input, numNodes);
      var first := PrefixSums(input, degrees);
      var edges;
      edges, at := Scatter(input, first);
      var last := seq(numNodes, w requires 0 <= w < numNodes => first[w] + degrees[w]);
      ScatteredIsPlaced(input, first, last, edges, at);
      AllScattered(input, numNodes, edges, at);
      a := new DynamicAdjacencyArray(first, last, edges, Owners(input, numNodes));
    }
  }

  /** A run after which the iterator lists are not right: two contractions, a removal, and its restoration. */
  method LoseIteratorList() returns (a: DynamicAdjacencyArray)
    ensures fresh(a) && a.Valid() && !a.Iterable()
  {
    hide *;
    var first, last, edges := [0, 1, 2], [1, 2, 2], [Edge(0, 1, 1, 1), Edge(1, 0, 1, 0)];
    OneEdgePlaced(first, last, edges, [0, 1]);
    a := new DynamicAdjacencyArray(first, last, edges, [0, 1]);
    OneEdgeIs(a.G());
    ListsOfOneEdgeLost();
    a.Contract(0, 1);
    a.Contract(2, 0);
    ValidIsWired(a);
    ghost var g := a.G();
    ghost var r;
    var removed;
    removed, r := a.RemoveSinglePinAndParallelEdges();
    ValidIsWired(a);
    a.RestoreSinglePinAndParallelEdges(removed, g, r);
  }

  lemma ValidIsWired(a: DynamicAdjacencyArray)
    requires a.Valid()
    ensures a.Wired() && a.G().Valid()
  {
  }

  lemma OneEdgePlaced(first: seq<nat>, last: seq<nat>, edges: seq<Edge>, owner: seq<nat>)
    requires first == [0, 1, 2] && last == [1, 2, 2] && edges == [Edge(0, 1, 1, 1), Edge(1, 0, 1, 0)] && owner == [0, 1]
    ensures |first| == |last| <= INVALID && Placed(first, last, edges, owner)
  {
    forall w: nat, x: nat | w < 3 && x < 2 ensures InSlice(first, last, w, x) <==> owner[x] == w {
      OneEdgeSlice(w, x);
    }
    hide InSlice;
    forall x: nat | x < 2 ensures PlacedAt(3, edges, owner, x) {
      assert x == 0 || x == 1;
    }
  }

  lemma OneEdgeIs(g: Graph)
    requires var first, last := [0, 1, 2], [1, 2, 2];
             g == Graph(first, last, [0, 1], first, [Edge(0, 1, 1, 1), Edge(1, 0, 1, 0)], seq(|first|, w requires 0 <= w < |first| => last[w] - first[w]),
                        Singles(|first|).isHead, Singles(|first|).rep, Singles(|first|).circ)
    ensures g == OneEdge()
  {
  }

  /** One step of the coarsening, with what the array returned for undoing it. */
  datatype Coarsening = Contraction(u: nat, v: nat) | ParallelEdgeRemoval(removed: seq<RemovedEdge>)

  ghost predicate CoarseningOk(trail: seq<Graph>, history: seq<Coarsening>, removals: seq<Removal>, i: nat)
    requires |trail| == |history| + 1 && |removals| == |history| && i < |history|
  {
    var g, g' := trail[i], trail[i + 1];
    match history[i]
    case Contraction(u, v) => CanContract(g, u, v) && g' == Contracted(g, u, v)
    case ParallelEdgeRemoval(removed) => g.Valid() && RemovalOk(g, removals[i]) && Recorded(g, removals[i].slots, removed) && g' == Removed(g, removals[i])
  }

  ghost predicate RemovalsKeep(trail: seq<Graph>, history: seq<Coarsening>)
    requires |trail| == |history| + 1
  {
    forall i :: 0 <= i < |history| && history[i].ParallelEdgeRemoval? ==> AllKeep(trail[i])
  }

  // ---------- The steps of a contraction ----------

  ghost predicate ListInRange(g: Graph, v: nat, w: nat, at: seq<nat>, i: nat) {
    g.Shape() && |at| == |g.first| && v < |g.circ| && Positions(g.circ[v], at) && i < |g.circ[v]| && g.circ[v][i] == w && w < |g.first|
  }

  /** The state of the contraction of v into u when the edges `done` of v were visited. */
  ghost predicate ContractionAt(g: Graph, u: nat, v: nat, done: set<nat>, edges: seq<Edge>, degree: seq<int>) {
    && CanContract(g, u, v) && ContractedUpTo(g, u, v, done, edges)
    && degree == g.degree[v := g.degree[v] - |g.LoopsOf(v) * done|]
  }

  function LoopStep(edges: seq<Edge>, degree: seq<int>, v: nat, x: nat): seq<int>
    requires x < |edges| && v < |degree|
  {
    if edges[x].IsValid() && edges[x].IsSinglePin() then degree[v := degree[v] - 1] else degree
  }

  lemma OneMore(loops: set<nat>, done: set<nat>, x: nat)
    requires x !in done
    ensures |loops * (done + {x})| == |loops * done| + if x in loops then 1 else 0
  {
    if x in loops {
      assert loops * (done + {x}) == loops * done + {x};
    } else {
      assert loops * (done + {x}) == loops * done;
    }
  }

  lemma ContractEdge(g: Graph, u: nat, v: nat, done: set<nat>, x: nat, edges: seq<Edge>, degree: seq<int>)
    requires ContractionAt(g, u, v, done, edges, degree) && x !in done
    requires x < |edges| && g.Active(x) && g.Head(x) == v
    ensures v < |degree| && edges[x].back < |edges|
    ensures ContractionAt(g, u, v, done + {x}, ContractStep(edges, u, x),
                          LoopStep(edges, degree, v, x))
  {
    ContractStepOk(g, u, v, done, edges, x);
    assert g.BackOk(x);
    OneMore(g.LoopsOf(v), done, x);
  }

  lemma ContractionStep(g: Graph, u: nat, v: nat, w: nat, at: seq<nat>, i: nat, x: nat, edges: seq<Edge>, degree: seq<int>)
    requires ListInRange(g, v, w, at, i) && ContractionAt(g, u, v, Visited(g, at, i, x), edges, degree) && g.active[w] <= x < g.last[w]
    ensures x < |edges| && v < |degree| && edges[x].back < |edges|
    ensures ContractionAt(g, u, v, Visited(g, at, i, x + 1), ContractStep(edges, u, x),
                          LoopStep(edges, degree, v, x))
  {
    assert g.CircleOk(v) && w in g.circ[v];
    VisitEdge(g, g.circ[v], at, i, x);
    ContractEdge(g, u, v, Visited(g, at, i, x), x, edges, degree);
  }

  lemma ContractionStart(g: Graph, u: nat, v: nat, at: seq<nat>)
    requires CanContract(g, u, v) && |at| == |g.first| && Positions(g.circ[v], at)
    ensures g.circ[v] != [] && g.circ[v][0] == v
    ensures ContractionAt(g, u, v, Visited(g, at, 0, Start(g, g.circ[v], 0)), g.edges, g.degree)
  {
    assert g.CircleOk(v);
    VisitNothing(g, g.circ[v], at);
    assert g.LoopsOf(v) * {} == {};
    forall x: nat | x < |g.edges| ensures ContractedAt(g, u, v, {}, g.edges, x) {}
  }

  /** Going from list i of v to the next one. */
  lemma ListNext(g: Graph, next: seq<nat>, prev: seq<nat>, tail: seq<nat>, v: nat, at: seq<nat>, i: nat)
    requires g.Shape() && g.Circles() && ListsOk(g.Chain(), next, prev, tail) && v < |g.isHead| && g.isHead[v] && i < |g.circ[v]|
    requires |at| == |g.first| && Positions(g.circ[v], at)
    ensures ListInRange(g, v, g.circ[v][i], at, i) && Start(g, g.circ[v], i) == g.active[g.circ[v][i]]
    ensures Visited(g, at, i, g.last[g.circ[v][i]]) == Visited(g, at, i + 1, Start(g, g.circ[v], i + 1))
    ensures var n := next[g.circ[v][i]]; if i + 1 < |g.circ[v]| then n == g.circ[v][i + 1] && n != v else n == v
  {
    assert g.CircleOk(v) && ListOk(next, prev, tail, g.circ, g.isHead, v);
    VisitList(g, g.circ[v], at, i);
    NextInRing(next, prev, g.circ[v], i);
  }

  lemma ContractionEnd(g: Graph, u: nat, v: nat, at: seq<nat>, edges: seq<Edge>, degree: seq<int>)
    requires |at| == |g.first| && CanContract(g, u, v) && Positions(g.circ[v], at)
    requires ContractionAt(g, u, v, Visited(g, at, |g.circ[v]|, Start(g, g.circ[v], |g.circ[v]|)), edges, degree)
    ensures edges == Contracted(g, u, v).edges && degree == g.degree[v := g.degree[v] - |g.LoopsOf(v)|]
  {
    assert g.CircleOk(v);
    VisitedAll(g, g.circ[v], at);
    var done := Visited(g, at, |g.circ[v]|, Start(g, g.circ[v], |g.circ[v]|));
    ContractedAll(g, u, v, done, edges);
    forall x: nat | x in g.LoopsOf(v) ensures x in done {
      assert g.EdgeOk(x);
    }
    assert g.LoopsOf(v) * done == g.LoopsOf(v);
  }

  // ---------- A new graph ----------

  /** The slices partition the edges, sources are owners, and back edges lead back. */
  ghost predicate Placed(first: seq<nat>, last: seq<nat>, edges: seq<Edge>, owner: seq<nat>) {
    && |first| == |last| && |owner| == |edges|
    && (forall w :: 0 <= w < |first| ==> first[w] <= last[w] <= |edges|)
    && (forall w: nat, x: nat {:trigger InSlice(first, last, w, x)} :: w < |first| && x < |edges| ==> (InSlice(first, last, w, x) <==> owner[x] == w))
    && (forall x: nat {:trigger PlacedAt(|first|, edges, owner, x)} :: x < |edges| ==> PlacedAt(|first|, edges, owner, x))
  }

  ghost predicate PlacedAt(n: nat, edges: seq<Edge>, owner: seq<nat>, x: nat)
    requires x < |edges| == |owner|
  {
    var e := edges[x];
    && e.source == owner[x] < n && e.source != e.target
    && e.back < |edges| && e.back != x && edges[e.back].back == x && e.target == owner[e.back]
  }

  lemma ScatteredIsPlaced(input: seq<InputEdge>, first: seq<nat>, last: seq<nat>, edges: seq<Edge>, at: seq<(nat, nat)>)
    requires AllAcceptable(input, |first|) && |first| == |last| && Scattered(input, |first|, |input|, edges, at)
    requires forall w: nat :: w < |first| ==> first[w] == EndsBelow(input, w, |input|) && last[w] == first[w] + DegreeIn(input, w, |input|)
    ensures Placed(first, last, edges, Owners(input, |first|))
  {
    var n, owner := |first|, Owners(input, |first|);
    TwoEndsEach(input, n, |input|);
    forall w: nat | w < n ensures last[w] <= |edges| {
      SlicesApart(input, w, n);
    }
    forall w: nat, x: nat | w < n && x < |edges| ensures InSlice(first, last, w, x) <==> owner[x] == w {
      OwnerIs(input, n, x);
      if InSlice(first, last, w, x) { OwnerUnique(input, n, w, x); }
    }
    AllScattered(input, n, edges, at);
    forall x: nat | x < |edges| ensures PlacedAt(n, edges, owner, x) {
      assert EntryOk(input, n, |input|, edges, x);
      TakenInRange(input, n, |input|, edges[x].back);
    }
  }

  lemma PlacedIsFresh(first: seq<nat>, last: seq<nat>, edges: seq<Edge>, owner: seq<nat>, g: Graph)
    requires |first| == |last| <= INVALID && Placed(first, last, edges, owner)
    requires g.first == g.active == first && g.last == last && g.edges == edges && g.owner == owner
    requires g.Chain() == Singles(|first|) && g.Chain().Valid()
    requires |g.degree| == |first| && forall w :: 0 <= w < |first| ==> g.degree[w] == last[w] - first[w]
    ensures g.Valid() && Fresh(g)
  {
    forall x: nat | x < |edges| ensures g.owner[x] < |first| && edges[x].target < |first| {
      assert PlacedAt(|first|, edges, owner, x) && PlacedAt(|first|, edges, owner, edges[x].back);
    }
    assert g.Shape();
    forall x: nat | x < |edges| ensures g.Active(x) && g.EdgeOk(x) && g.BackOk(x) && edges[x].IsValid() && !edges[x].IsSinglePin() {
      PlacedEdge(first, last, edges, owner, g, x);
    }
    forall h: nat | h < |first| ensures g.degree[h] == |g.LiveOf(h)| {
      forall x: nat ensures x in g.LiveOf(h) <==> first[h] <= x < last[h] {
        assert x < |edges| ==> (InSlice(first, last, h, x) <==> owner[x] == h);
      }
      RangeSize(g.LiveOf(h), first[h], last[h]);
    }
  }

  lemma PlacedEdge(first: seq<nat>, last: seq<nat>, edges: seq<Edge>, owner: seq<nat>, g: Graph, x: nat)
    requires |first| == |last| <= INVALID && Placed(first, last, edges, owner) && x < |edges|
    requires g.first == g.active == first && g.last == last && g.edges == edges && g.owner == owner
    requires g.Chain() == Singles(|first|) && g.Shape()
    ensures g.Active(x) && g.EdgeOk(x) && g.BackOk(x) && edges[x].IsValid() && !edges[x].IsSinglePin()
  {
    var b := edges[x].back;
    assert PlacedAt(|first|, edges, owner, x) && PlacedAt(|first|, edges, owner, b);
    assert InSlice(first, last, owner[x], x) && InSlice(first, last, owner[b], b);
  }

  // ---------- The steps of an uncontraction ----------

  /** The state of the uncontraction of v from u when the edges `done` were visited. */
  ghost predicate UncontractionAt(g: Graph, u: nat, v: nat, done: set<nat>, edges: seq<Edge>, degree: seq<int>) {
    && EdgesReturnable(g, u, v) && UncontractedUpTo(g, u, v, done, edges)
    && degree == DegreeAt(g, u, v, done)
  }

  ghost function DegreeAt(g: Graph, u: nat, v: nat, done: set<nat>): seq<int>
    requires g.Shape() && u < |g.rep| && v < |g.rep|
  {
    g.degree[u := g.degree[u] - g.degree[v]][v := g.degree[v] + |DisabledAt(g, v) * done|]
  }

  function EnableStep(edges: seq<Edge>, degree: seq<int>, u: nat, v: nat, x: nat): seq<int>
    requires x < |edges| && v < |degree|
  {
    if edges[x].source != u && edges[x].source == v then degree[v := degree[v] + 1] else degree
  }

  function Reported(e: Edge, u: nat, x: nat, rejoined: seq<nat>, moved: seq<nat>): (seq<nat>, seq<nat>) {
    if e.source != u then (rejoined, moved)
    else if e.target == u then (rejoined + [x], moved)
    else (rejoined, moved + [x])
  }

  /** The edges among `done` that are reported. */
  ghost predicate ReportsAt(g: Graph, u: nat, v: nat, done: set<nat>, rejoined: seq<nat>, moved: seq<nat>)
    requires g.Shape() && v < |g.circ|
  {
    Lists(rejoined, ReportSet(g, u, v, true) * done) && Lists(moved, ReportSet(g, u, v, false) * done)
  }

  lemma NothingReported(g: Graph, u: nat, v: nat, at: seq<nat>)
    requires g.Shape() && v < |g.circ| && |at| == |g.first| && Positions(g.circ[v], at) && g.circ[v] != [] && g.circ[v][0] < |g.first|
    ensures ReportsAt(g, u, v, Visited(g, at, 0, Start(g, g.circ[v], 0)), [], [])
  {
    VisitNothing(g, g.circ[v], at);
  }

  lemma ReportStep(g: Graph, u: nat, v: nat, w: nat, at: seq<nat>, i: nat, x: nat, edges: seq<Edge>, degree: seq<int>,
                   rejoined: seq<nat>, moved: seq<nat>)
    requires ListInRange(g, v, w, at, i) && Distinct(g.circ[v]) && g.active[w] <= x < g.last[w] && x < |edges|
    requires UncontractionAt(g, u, v, Visited(g, at, i, x), edges, degree) && ReportsAt(g, u, v, Visited(g, at, i, x), rejoined, moved)
    ensures ReportsAt(g, u, v, Visited(g, at, i, x + 1), Reported(edges[x], u, x, rejoined, moved).0, Reported(edges[x], u, x, rejoined, moved).1)
  {
    var done := Visited(g, at, i, x);
    assert w in g.circ[v];
    VisitEdge(g, g.circ[v], at, i, x);
    VisitedReturn(g, v, at, i, x);
    EndsUntouched(g, u, v, done, edges, degree, x);
    hide UncontractionAt, Visited;
    OneMoreListed(rejoined, ReportSet(g, u, v, true), done, x);
    OneMoreListed(moved, ReportSet(g, u, v, false), done, x);
  }

  /** An edge from u has its old ends when it is visited. */
  lemma EndsUntouched(g: Graph, u: nat, v: nat, done: set<nat>, edges: seq<Edge>, degree: seq<int>, x: nat)
    requires UncontractionAt(g, u, v, done, edges, degree) && x !in done && x < |edges| && Returning(g, v, x)
    requires forall y: nat :: y in done ==> y < |g.edges| && Returning(g, v, y)
    ensures edges[x].source == g.edges[x].source && (g.edges[x].source == u ==> edges[x].target == g.edges[x].target)
  {
    assert UncontractedAt(g, u, v, done, edges, x) && ReturnOk(g, u, v, x);
  }

  lemma OneMoreListed(ids: seq<nat>, s: set<nat>, done: set<nat>, x: nat)
    requires Lists(ids, s * done) && x !in done
    ensures Lists(if x in s then ids + [x] else ids, s * (done + {x}))
  {
    assert x !in ids;
  }

  lemma AllEdgesReported(g: Graph, u: nat, v: nat, at: seq<nat>, rejoined: seq<nat>, moved: seq<nat>)
    requires g.Shape() && v < |g.circ| && |at| == |g.first| && Positions(g.circ[v], at) && Distinct(g.circ[v])
    requires forall i :: 0 <= i < |g.circ[v]| ==> g.circ[v][i] < |g.first|
    requires ReportsAt(g, u, v, Visited(g, at, |g.circ[v]|, Start(g, g.circ[v], |g.circ[v]|)), rejoined, moved)
    ensures Lists(rejoined, ReportSet(g, u, v, true)) && Lists(moved, ReportSet(g, u, v, false))
  {
    VisitedAll(g, g.circ[v], at);
    var done := Visited(g, at, |g.circ[v]|, Start(g, g.circ[v], |g.circ[v]|));
    assert ReportSet(g, u, v, true) * done == ReportSet(g, u, v, true);
    assert ReportSet(g, u, v, false) * done == ReportSet(g, u, v, false);
  }

  lemma UncontractEdge(g: Graph, u: nat, v: nat, done: set<nat>, x: nat, edges: seq<Edge>, degree: seq<int>)
    requires UncontractionAt(g, u, v, done, edges, degree) && x !in done && x < |edges| && Returning(g, v, x)
    requires forall y: nat :: y in done ==> y < |g.edges| && Returning(g, v, y)
    ensures v < |degree| && edges[x].back < |edges|
    ensures UncontractionAt(g, u, v, done + {x}, UncontractStep(edges, u, v, x), EnableStep(edges, degree, u, v, x))
  {
    hide UncontractedUpTo, UncontractStep, EnableStep, DegreeAt, Returning;
    UncontractStepOk(g, u, v, done, edges, x);
    EdgeEnabled(g, u, v, done, x, edges, degree);
  }

  lemma EdgeEnabled(g: Graph, u: nat, v: nat, done: set<nat>, x: nat, edges: seq<Edge>, degree: seq<int>)
    requires g.Shape() && u < |g.rep| && v < |g.rep| && u != v && Returning(g, v, x) && x !in done
    requires x < |edges| && edges[x].source == g.edges[x].source && degree == DegreeAt(g, u, v, done)
    ensures v < |degree| && EnableStep(edges, degree, u, v, x) == DegreeAt(g, u, v, done + {x})
  {
    OneMore(DisabledAt(g, v), done, x);
  }

  lemma UncontractionStep(g: Graph, u: nat, v: nat, w: nat, at: seq<nat>, i: nat, x: nat, edges: seq<Edge>, degree: seq<int>)
    requires ListInRange(g, v, w, at, i) && Distinct(g.circ[v])
    requires UncontractionAt(g, u, v, Visited(g, at, i, x), edges, degree) && g.active[w] <= x < g.last[w]
    ensures x < |edges| && v < |degree| && edges[x].back < |edges|
    ensures UncontractionAt(g, u, v, Visited(g, at, i, x + 1), UncontractStep(edges, u, v, x), EnableStep(edges, degree, u, v, x))
  {
    assert w in g.circ[v];
    VisitEdge(g, g.circ[v], at, i, x);
    VisitedReturn(g, v, at, i, x);
    UncontractEdge(g, u, v, Visited(g, at, i, x), x, edges, degree);
  }

  lemma VisitedReturn(g: Graph, v: nat, at: seq<nat>, i: nat, x: nat)
    requires g.Shape() && v < |g.circ| && |at| == |g.first| && Positions(g.circ[v], at) && i < |g.circ[v]|
    ensures forall y: nat :: y in Visited(g, at, i, x) ==> y < |g.edges| && Returning(g, v, y)
  {
    forall y: nat | y in Visited(g, at, i, x) ensures Returning(g, v, y) {
      assert PositionOk(g.circ[v], at, g.owner[y]);
    }
  }

  lemma SegmentDistinct(g: Graph, u: nat, v: nat, k: nat)
    requires CanUncontract(g, u, v, k)
    ensures Distinct(g.circ[v]) && forall i :: 0 <= i < |g.circ[v]| ==> g.circ[v][i] < |g.first|
  {
    assert g.CircleOk(u);
    var c, d := g.circ[u], g.circ[v];
    forall i | 0 <= i < |d| ensures d[i] == c[k + i] && d[i] < |g.first| {
      assert c[k + i] in c;
    }
  }

  lemma UncontractionStart(g: Graph, u: nat, v: nat, k: nat, at: seq<nat>)
    requires CanUncontract(g, u, v, k) && |at| == |g.first| && Positions(g.circ[v], at)
    ensures g.circ[v] != [] && g.circ[v][0] == v
    ensures UncontractionAt(g, u, v, Visited(g, at, 0, Start(g, g.circ[v], 0)), g.edges, g.degree[u := g.degree[u] - g.degree[v]])
  {
    VisitNothing(g, g.circ[v], at);
    assert DisabledAt(g, v) * {} == {};
    forall x: nat | x < |g.edges| ensures UncontractedAt(g, u, v, {}, g.edges, x) {}
  }

  lemma ReturningListNext(g: Graph, g': Graph, next: seq<nat>, prev: seq<nat>, tail: seq<nat>, u: nat, v: nat, k: nat, at: seq<nat>, i: nat)
    requires CanUncontract(g, u, v, k) && g'.Shape() && g'.Circles() && ListsOk(g'.Chain(), next, prev, tail)
    requires g' == g.With(Spliced(g.Chain(), u, v, k)).(degree := g.degree[u := g.degree[u] - g.degree[v]])
    requires |at| == |g.first| && Positions(g.circ[v], at) && i < |g.circ[v]|
    ensures ListInRange(g, v, g.circ[v][i], at, i) && Start(g, g.circ[v], i) == g.active[g.circ[v][i]]
    ensures Visited(g, at, i, g.last[g.circ[v][i]]) == Visited(g, at, i + 1, Start(g, g.circ[v], i + 1))
    ensures g.circ[v][i] < |next|
    ensures var n := next[g.circ[v][i]]; if i + 1 < |g.circ[v]| then n == g.circ[v][i + 1] && n != v else n == v
  {
    SegmentDistinct(g, u, v, k);
    assert ListOk(next, prev, tail, g'.circ, g'.isHead, v);
    VisitList(g, g.circ[v], at, i);
    NextInRing(next, prev, g.circ[v], i);
  }

  lemma UncontractionEnd(g: Graph, u: nat, v: nat, k: nat, at: seq<nat>, edges: seq<Edge>, degree: seq<int>)
    requires |at| == |g.first| && CanUncontract(g, u, v, k) && Positions(g.circ[v], at)
    requires UncontractionAt(g, u, v, Visited(g, at, |g.circ[v]|, Start(g, g.circ[v], |g.circ[v]|)), edges, degree)
    ensures edges == Uncontracted(g, u, v, k).edges && degree == Uncontracted(g, u, v, k).degree
  {
    VisitedAll(g, g.circ[v], at);
    var done := Visited(g, at, |g.circ[v]|, Start(g, g.circ[v], |g.circ[v]|));
    UncontractedAll(g, u, v, k, done, edges);
    assert DisabledAt(g, v) * done == DisabledAt(g, v);
  }

  /** The active part of slice w does not pass its end. */
  lemma ActiveInSlice(g: Graph, marked: seq<Edge>, slots: seq<seq<nat>>, edges: seq<Edge>, mapping: seq<nat>, active: seq<nat>, w: nat)
    requires PermutedBy(g, marked, slots, edges, mapping, active) && w < |slots|
    ensures |active| == |g.last| && active[w] <= g.last[w]
  {
    assert SlotOk(g, slots, w);
    if slots[w] != [] {
      assert g.active[w] + (|slots[w]| - 1) <= slots[w][|slots[w]| - 1];
    }
  }

  lemma ActiveInSlices(g: Graph, marked: seq<Edge>, slots: seq<seq<nat>>, edges: seq<Edge>, mapping: seq<nat>, active: seq<nat>)
    requires PermutedBy(g, marked, slots, edges, mapping, active)
    ensures |active| == |g.last| && forall w :: 0 <= w < |active| ==> active[w] <= g.last[w]
  {
    forall w: nat | w < |slots| ensures |active| == |g.last| && active[w] <= g.last[w] {
      ActiveInSlice(g, marked, slots, edges, mapping, active, w);
    }
  }

  // ---------- The steps of a removal ----------

  ghost function HeadsSeen(g: Graph, u: nat): set<nat>
    requires g.Shape()
  {
    set x: nat | x < |g.edges| && g.Active(x) && g.Head(x) < u
  }

  ghost function EdgesOfHead(g: Graph, u: nat): set<nat>
    requires g.Shape()
  {
    set x: nat | x < |g.edges| && g.Active(x) && g.Head(x) == u
  }

  ghost predicate ListOfHead(g: Graph, u: nat, w: nat, at: seq<nat>, i: nat, seen: set<nat>) {
    ListInRange(g, u, w, at, i) && Distinct(g.circ[u]) && w < |g.rep| && g.rep[w] == u && seen == HeadsSeen(g, u)
  }

  lemma HeadListSeen(g: Graph, u: nat, w: nat, at: seq<nat>, i: nat)
    requires g.Valid() && ListInRange(g, u, w, at, i) && g.isHead[u]
    ensures ListOfHead(g, u, w, at, i, HeadsSeen(g, u))
  {
    assert g.CircleOk(u) && w in g.circ[u];
  }

  lemma CollectionStart(g: Graph, u: nat, at: seq<nat>, dups: set<nat>, edges: seq<Edge>, removable: set<nat>, degree: seq<int>)
    requires g.Valid() && u < |g.isHead| && g.isHead[u] && |at| == |g.first| && Positions(g.circ[u], at)
    requires MarkState(g, HeadsSeen(g, u), dups, edges, removable, degree)
    ensures g.circ[u] != [] && g.circ[u][0] == u
    ensures CollectAt(g, HeadsSeen(g, u), Visited(g, at, 0, Start(g, g.circ[u], 0)), [], dups, edges, removable, degree)
  {
    assert g.CircleOk(u);
    VisitNothing(g, g.circ[u], at);
    CollectStart(g, HeadsSeen(g, u), dups, edges, removable, degree);
  }

  lemma CollectionStep(g: Graph, u: nat, w: nat, at: seq<nat>, i: nat, x: nat, seen: set<nat>, infos: seq<ParallelEdgeInformation>,
                       dups: set<nat>, edges: seq<Edge>, removable: set<nat>, degree: seq<int>)
    requires ListOfHead(g, u, w, at, i, seen) && g.active[w] <= x < g.last[w]
    requires CollectAt(g, seen, Visited(g, at, i, x), infos, dups, edges, removable, degree)
    ensures x < |edges| && u < |degree|
    ensures CollectAt(g, seen, Visited(g, at, i, x + 1), Collected(edges, infos, x), dups, edges, Loosened(edges, removable, x), LoosenedDegree(edges, degree, u, x))
  {
    VisitEdge(g, g.circ[u], at, i, x);
    CollectStep(g, seen, Visited(g, at, i, x), infos, dups, edges, removable, degree, u, x);
  }

  lemma VisitedHead(g: Graph, u: nat, at: seq<nat>)
    requires g.Valid() && u < |g.isHead| && g.isHead[u] && |at| == |g.first| && Positions(g.circ[u], at)
    ensures Visited(g, at, |g.circ[u]|, Start(g, g.circ[u], |g.circ[u]|)) == EdgesOfHead(g, u)
  {
    assert g.CircleOk(u);
    VisitedAll(g, g.circ[u], at);
  }

  lemma SortedHead(g: Graph, u: nat, infos: seq<ParallelEdgeInformation>, sorted: seq<ParallelEdgeInformation>,
                   dups: set<nat>, edges: seq<Edge>, removable: set<nat>, degree: seq<int>)
    requires g.Shape() && CollectAt(g, HeadsSeen(g, u), EdgesOfHead(g, u), infos, dups, edges, removable, degree)
    requires multiset(sorted) == multiset(infos) && Sorted(sorted, Before)
    ensures SortedEdges(g, u, sorted)
    ensures forall i :: 0 <= i < |sorted| ==> sorted[i].edgeId !in HeadsSeen(g, u) + LooseIn(g, EdgesOfHead(g, u))
  {
    SortedDescribes(g, u, EdgesOfHead(g, u), sorted);
    forall i | 0 <= i < |sorted| ensures sorted[i].edgeId !in HeadsSeen(g, u) + LooseIn(g, EdgesOfHead(g, u)) {
      assert Describes(g, u, sorted, i);
    }
  }

  lemma HeadDone(g: Graph, u: nat, sorted: seq<ParallelEdgeInformation>)
    requires g.Shape() && SortedEdges(g, u, sorted)
    ensures HeadsSeen(g, u) + LooseIn(g, EdgesOfHead(g, u)) + IdsOf(sorted) == HeadsSeen(g, u + 1)
  {
    forall x: nat ensures x in IdsOf(sorted) <==> x < |g.edges| && Crossing(g, x) && g.Head(x) == u {
      if x in IdsOf(sorted) {
        var i :| 0 <= i < |sorted| && sorted[i].edgeId == x;
        assert Describes(g, u, sorted, i);
      }
      if x < |g.edges| && Crossing(g, x) && g.Head(x) == u {
        assert InformationOf(g, x) in sorted;
        var i :| 0 <= i < |sorted| && sorted[i] == InformationOf(g, x);
        assert sorted[i].edgeId == x;
      }
    }
  }

  lemma NoHead(g: Graph, u: nat)
    requires g.Valid() && u < |g.isHead| && !g.isHead[u]
    ensures HeadsSeen(g, u + 1) == HeadsSeen(g, u)
  {
    forall x: nat | x < |g.edges| ensures g.Head(x) != u {
      assert g.CircleOk(g.owner[x]);
    }
  }

  function NoSlotsYet(n: nat): (r: seq<seq<nat>>)
    ensures |r| == n && forall w :: 0 <= w < n ==> r[w] == []
    ensures r == seq(n, w => [])
  {
    seq(n, w => [])
  }

  /** `es` lists exactly the marked edges from a up to e. */
  ghost predicate ListsMarked(a: nat, removable: set<nat>, es: seq<nat>, e: nat) {
    && Ascending(a, es, e)
    && forall x: nat {:trigger ListsMarkedAt(a, removable, es, e, x)} :: ListsMarkedAt(a, removable, es, e, x)
  }

  ghost predicate ListsMarkedAt(a: nat, removable: set<nat>, es: seq<nat>, e: nat, x: nat) {
    x in es <==> a <= x < e && x in removable
  }

  lemma SlotSkips(a: nat, removable: set<nat>, es: seq<nat>, e: nat, e': nat)
    requires ListsMarked(a, removable, es, e) && e !in removable && e' == e + 1
    ensures ListsMarked(a, removable, es, e')
  {
    forall x: nat ensures ListsMarkedAt(a, removable, es, e', x) {
      assert ListsMarkedAt(a, removable, es, e, x);
    }
  }

  lemma SlotGrows(a: nat, removable: set<nat>, es: seq<nat>, e: nat, e': nat)
    requires ListsMarked(a, removable, es, e) && e in removable && a <= e && e' == e + 1
    ensures a + |es| <= e
    ensures ListsMarked(a, removable, es + [e], e')
  {
    if es != [] {
      assert a + (|es| - 1) <= es[|es| - 1] < e;
    }
    forall x: nat ensures ListsMarkedAt(a, removable, es + [e], e', x) {
      assert ListsMarkedAt(a, removable, es, e, x);
      assert x in es + [e] <==> x in es || x == e;
    }
  }

  lemma RemovalStep(g: Graph, marked: seq<Edge>, removable: set<nat>, slots: seq<seq<nat>>, removed: seq<RemovedEdge>,
                    edges: seq<Edge>, mapping: seq<nat>, active: seq<nat>, w: nat, e: nat)
    requires PermutedBy(g, marked, slots, edges, mapping, active) && Recorded(g, slots, removed) && w < |slots|
    requires ListsMarked(g.active[w], removable, slots[w], e) && e in removable && g.active[w] <= e < g.last[w]
    ensures w < |active| && active[w] < |edges| && e < |edges| && Contents(g, slots)[active[w]] < |mapping|
    ensures Inverse(Contents(g, slots), mapping) && |mapping| == |edges|
    ensures PermutedBy(g, marked, slots[w := slots[w] + [e]], SwapAt(edges, e, active[w]),
                       Turned(mapping, Contents(g, slots), e, active[w]), active[w := active[w] + 1])
    ensures Recorded(g, slots[w := slots[w] + [e]], removed + [RemovedEdge(active[w], e)])
    ensures ListsMarked(g.active[w], removable, slots[w] + [e], e + 1)
  {
    SlotGrows(g.active[w], removable, slots[w], e, e + 1);
    SwapToFront(g, marked, slots, edges, mapping, active, w, e);
    RecordOneMore(g, slots, removed, w, e);
  }

  lemma MappingAgrees(mapping: seq<nat>)
    ensures Agrees(mapping, mapping, {})
  {
    forall y: nat | y < |mapping| ensures AgreesAt(mapping, mapping, {}, y) {}
  }

  function AllMoved(edges: seq<Edge>, mapping: seq<nat>): (r: seq<Edge>)
    ensures |r| == |edges|
  {
    seq(|edges|, x requires 0 <= x < |edges| => MovedBack(edges[x], mapping))
  }

  lemma RemovalComplete(g: Graph, r: Removal, removable: set<nat>, degree: seq<int>)
    requires g.Valid() && MarkState(g, HeadsSeen(g, |g.first|), r.dups, r.marked, removable, degree)
    requires SlotsOk(g, r.slots) && Inverse(Contents(g, r.slots), r.mapping)
    requires forall w: nat :: w < |r.slots| ==> ListsMarked(g.active[w], removable, r.slots[w], g.last[w])
    ensures RemovalOk(g, r)
    ensures forall h: nat :: h < |g.degree| ==> degree[h] == g.degree[h] - |RemovedLive(g, h)|
  {
    forall x: nat | x < |g.edges| && g.Active(x) ensures x in HeadsSeen(g, |g.first|) {
      HeadInRange(g, x);
    }
    AllSeen(g, HeadsSeen(g, |g.first|), r.dups, r.marked, removable, degree);
    forall w: nat, x: nat | w < |r.slots|
      ensures x in r.slots[w] <==> x < |g.edges| && g.owner[x] == w && g.Active(x) && !Kept(g, x)
    {
      assert ListsMarked(g.active[w], removable, r.slots[w], g.last[w]) && ListsMarkedAt(g.active[w], removable, r.slots[w], g.last[w], x);
      assert x < |g.edges| ==> (InSlice(g.first, g.last, w, x) <==> g.owner[x] == w);
    }
  }

  lemma BacksInRange(g: Graph, r: Removal, edges: seq<Edge>)
    requires RemovalOk(g, r) && edges == Permuted(r.marked, Contents(g, r.slots))
    ensures forall x :: 0 <= x < |edges| ==> edges[x].back < |r.mapping|
  {
    forall x: nat | x < |edges| ensures edges[x].back < |r.mapping| {
      assert g.BackOk(Contents(g, r.slots)[x]);
    }
  }

  lemma RemovedIs(g: Graph, r: Removal, edges: seq<Edge>, active: seq<nat>, degree: seq<int>)
    requires RemovalOk(g, r) && edges == AllMoved(Permuted(r.marked, Contents(g, r.slots)), r.mapping)
    requires active == ActiveAfter(g, r.slots) && |degree| == |g.degree|
    requires forall h: nat :: h < |g.degree| ==> degree[h] == g.degree[h] - |RemovedLive(g, h)|
    ensures edges == Removed(g, r).edges && active == Removed(g, r).active && degree == Removed(g, r).degree
  {
  }

  lemma MarkedLength(g: Graph, seen: set<nat>, dups: set<nat>, edges: seq<Edge>, removable: set<nat>, degree: seq<int>)
    requires MarkState(g, seen, dups, edges, removable, degree)
    ensures |edges| == |g.edges|
  {
  }

  /** The array after the edges were moved, up to the back edges. */
  lemma RemovalDone(g: Graph, r: Removal, edges: seq<Edge>, active: seq<nat>, removable: set<nat>, degree: seq<int>)
    requires g.Valid() && MarkState(g, HeadsSeen(g, |g.first|), r.dups, r.marked, removable, degree)
    requires PermutedBy(g, r.marked, r.slots, edges, r.mapping, active)
    requires forall w: nat :: w < |r.slots| ==> ListsMarked(g.active[w], removable, r.slots[w], g.last[w])
    ensures RemovalOk(g, r) && Removed(g, r).Valid() && forall x :: 0 <= x < |edges| ==> edges[x].back < |r.mapping|
    ensures Removed(g, r) == g.(active := active, edges := AllMoved(edges, r.mapping), degree := degree)
  {
    RemovalComplete(g, r, removable, degree);
    hide MarkState, Graph.Valid, ListsMarked, Graph.Shape;
    BacksInRange(g, r, edges);
    RemovedIs(g, r, AllMoved(edges, r.mapping), active, degree);
    RemovedValid(g, r);
  }

  // ---------- The steps of a restoration ----------

  /** The swap target of a marked position; all others stay. */
  ghost function TargetOf(g: Graph, slots: seq<seq<nat>>, positions: set<nat>, y: nat): nat
    requires SlotsOk(g, slots) && y < |g.edges|
  {
    var w := g.owner[y];
    if y in positions && g.active[w] <= y < g.active[w] + |slots[w]| then slots[w][y - g.active[w]] else y
  }

  ghost function PositionsOf(removed: seq<RemovedEdge>): set<nat> {
    set i | 0 <= i < |removed| :: removed[i].edgeId
  }

  lemma OneMorePosition(removed: seq<RemovedEdge>, i: nat)
    requires i < |removed|
    ensures PositionsOf(removed[..i + 1]) == PositionsOf(removed[..i]) + {removed[i].edgeId}
  {
    var a, b := removed[..i], removed[..i + 1];
    forall x ensures x in PositionsOf(b) <==> x in PositionsOf(a) + {removed[i].edgeId} {
      if x in PositionsOf(a) {
        var k :| 0 <= k < |a| && a[k].edgeId == x;
        assert b[k].edgeId == x;
      }
      if x in PositionsOf(b) {
        var k :| 0 <= k < |b| && b[k].edgeId == x;
        assert k < i ==> a[k].edgeId == x;
      }
      assert b[i].edgeId == removed[i].edgeId;
    }
  }

  lemma AllRecorded(g: Graph, slots: seq<seq<nat>>, removed: seq<RemovedEdge>)
    requires SlotsOk(g, slots) && Recorded(g, slots, removed)
    ensures PositionsOf(removed) == Pending(g, slots)
  {
    forall p: nat ensures p in PositionsOf(removed) <==> p in Pending(g, slots) {
      if p in PositionsOf(removed) {
        var i :| 0 <= i < |removed| && removed[i].edgeId == p;
        assert RecordOk(g, slots, removed[i]);
      }
      if p in Pending(g, slots) {
        var w := g.owner[p];
        assert ListedAt(g, slots, removed, w, p - g.active[w]);
        var i :| 0 <= i < |removed| && removed[i] == RemovedEdge(p, slots[w][p - g.active[w]]);
        assert removed[i].edgeId == p;
      }
    }
  }

  /** The loop condition of the restoration tells whether a swap of slice w is left. */
  lemma FirstPending(g: Graph, moved: seq<Edge>, all: seq<seq<nat>>, slots: seq<seq<nat>>, sigma: seq<nat>, inv: seq<nat>,
                     edges: seq<Edge>, mapping: seq<nat>, active: seq<nat>, removable: set<nat>, w: nat)
    requires RestoringAt(g, moved, all, slots, sigma, inv, edges, mapping, active, removable) && w < |slots|
    ensures w < |active| && active[w] == g.active[w] + |slots[w]|
    ensures active[w] > g.first[w] && active[w] - 1 in removable <==> slots[w] != []
    ensures slots[w] != [] ==> active[w] - 1 < |mapping| && mapping[active[w] - 1] == slots[w][|slots[w]| - 1]
  {
    assert SlotOk(g, slots, w) && SlotOk(g, all, w);
    if slots[w] != [] {
      var p := active[w] - 1;
      assert g.active[w] + (|slots[w]| - 1) <= slots[w][|slots[w]| - 1] < g.last[w];
      assert InSlice(g.first, g.last, w, p);
      assert TargetsAt(g, slots, sigma, mapping, p);
    } else if active[w] > g.first[w] {
      var p := active[w] - 1;
      assert InSlice(g.first, g.last, w, p);
      assert forall k :: 0 <= k < |all[w]| ==> g.active[w] + k <= all[w][k];
    }
  }

  lemma RestorationStart(g: Graph, r: Removal, moved: seq<Edge>, edges: seq<Edge>, mapping: seq<nat>, removable: set<nat>, ident: seq<nat>)
    requires RemovalOk(g, r) && edges == Removed(g, r).edges && moved == AllMoved(r.marked, r.mapping)
    requires |mapping| == |g.edges| && removable == Pending(g, r.slots) && ident == Identity(|g.edges|)
    requires forall y: nat :: y < |mapping| ==> mapping[y] == TargetOf(g, r.slots, removable, y)
    ensures RestoringAt(g, moved, r.slots, r.slots, ident, ident, edges, mapping, Removed(g, r).active, removable)
  {
    forall y: nat | y < |g.edges| ensures TargetsAt(g, r.slots, ident, mapping, y) {}
    forall p: nat | p < |g.edges| ensures Contents(g, r.slots)[p] < |g.edges| {
      ContentsStay(g, r.slots, p);
    }
    assert edges == Permuted(moved, Contents(g, r.slots));
    PermutationSteps.RestoreStart(g, moved, r.slots, edges, mapping, removable, ident);
  }

  /** The mapping of the restoration undoes the mapping of the removal. */
  lemma BacksReturn(g: Graph, r: Removal, moved: seq<Edge>, mapping: seq<nat>)
    requires g.Valid() && RemovalOk(g, r) && moved == AllMoved(r.marked, r.mapping) && mapping == Contents(g, r.slots)
    ensures forall x :: 0 <= x < |moved| ==> moved[x].back < |mapping|
    ensures AllMoved(moved, mapping) == r.marked
  {
    forall x: nat | x < |moved| ensures moved[x].back < |mapping| && MovedBack(moved[x], mapping) == r.marked[x] {
      assert g.BackOk(x);
    }
  }

  lemma RemovedKeepsChain(g: Graph, r: Removal)
    requires RemovalOk(g, r)
    ensures var g' := Removed(g, r); g'.Chain() == g.Chain() && g'.first == g.first && g'.last == g.last && g'.owner == g.owner
  {
  }

  lemma MarkedAgain(g: Graph, r: Removal, removable: set<nat>, degree: seq<int>)
    requires g.Valid() && RemovalOk(g, r) && degree == Removed(g, r).degree
    requires forall x: nat :: x in removable <==> x < |g.edges| && x in r.slots[g.owner[x]]
    ensures RestoredUpTo(g, r.dups, removable, {}, r.marked, degree)
  {
    forall x: nat ensures x in removable <==> x < |g.edges| && g.Active(x) && !Kept(g, x) {
      assert x < |g.edges| ==> (x in r.slots[g.owner[x]] <==> g.Active(x) && !Kept(g, x));
    }
    MarkingSteps.RestoreStart(g, r.dups, removable, r.marked, degree);
  }

  lemma HeadStart(g: Graph, u: nat, at: seq<nat>)
    requires g.Valid() && u < |g.isHead| && g.isHead[u] && |at| == |g.first| && Positions(g.circ[u], at)
    ensures g.circ[u] != [] && g.circ[u][0] == u
    ensures HeadsSeen(g, u) + Visited(g, at, 0, Start(g, g.circ[u], 0)) == HeadsSeen(g, u)
  {
    assert g.CircleOk(u);
    VisitNothing(g, g.circ[u], at);
  }

  lemma AllHeadsSeen(g: Graph)
    requires g.Valid()
    ensures forall x: nat :: x < |g.edges| && g.Active(x) ==> x in HeadsSeen(g, |g.first|)
  {
    forall x: nat | x < |g.edges| && g.Active(x) ensures x in HeadsSeen(g, |g.first|) {
      HeadInRange(g, x);
    }
  }

  lemma RestorationInRange(g: Graph, u: nat, w: nat, at: seq<nat>, i: nat, dups: set<nat>, removable: set<nat>,
                           edges: seq<Edge>, degree: seq<int>)
    requires g.Valid() && ListOfHead(g, u, w, at, i, HeadsSeen(g, u))
    requires RestoredUpTo(g, dups, removable, HeadsSeen(g, u) + Visited(g, at, i, g.active[w]), edges, degree)
    ensures g.Shape() && w < |g.active| == |g.last| && g.active[w] <= g.last[w]
    ensures u < |degree| && degree == degree[u := degree[u] + 0]
  {
    assert g.CircleOk(w);
  }

  lemma RestorationStep(g: Graph, u: nat, w: nat, at: seq<nat>, i: nat, x: nat, dups: set<nat>, removable: set<nat>,
                        edges: seq<Edge>, degree: seq<int>, n: nat)
    requires g.Shape() && ListOfHead(g, u, w, at, i, HeadsSeen(g, u)) && g.active[w] <= x < g.last[w] && u < |degree|
    requires RestoredUpTo(g, dups, removable, HeadsSeen(g, u) + Visited(g, at, i, x), edges, degree[u := degree[u] + n])
    ensures x < |edges|
    ensures x in removable && edges[x].IsValid() && edges[x].target != u ==> edges[x].source < |edges|
    ensures RestoredUpTo(g, dups, removable, HeadsSeen(g, u) + Visited(g, at, i, x + 1), RestoredEdges(edges, removable, u, x),
                         degree[u := degree[u] + (n + if x in removable && edges[x].IsValid() then 1 else 0)])
  {
    VisitEdge(g, g.circ[u], at, i, x);
    var done := HeadsSeen(g, u) + Visited(g, at, i, x);
    assert done + {x} == HeadsSeen(g, u) + Visited(g, at, i, x + 1);
    RestoreEdgeStep(g, dups, removable, done, edges, degree[u := degree[u] + n], u, x);
    assert RestoredDegree(edges, removable, degree[u := degree[u] + n], u, x)
        == degree[u := degree[u] + (n + if x in removable && edges[x].IsValid() then 1 else 0)];
  }

  /** The degree of u grows by the number of its removed edges that are not disabled. */
  lemma LiveRestored(g: Graph, dups: set<nat>, removable: set<nat>, u: nat, edges: seq<Edge>, degree: seq<int>, edges': seq<Edge>, degree': seq<int>)
    requires g.Valid() && u < |g.isHead| && RestoredUpTo(g, dups, removable, HeadsSeen(g, u), edges, degree)
    requires RestoredUpTo(g, dups, removable, HeadsSeen(g, u + 1), edges', degree')
    ensures u < |degree| == |degree'| && (degree'[u] > degree[u] <==> RemovedLive(g, u) != {})
  {
    var before, after := LiveIn(g, removable - HeadsSeen(g, u), u), LiveIn(g, removable - HeadsSeen(g, u + 1), u);
    forall x: nat | x < |g.edges| ensures x in before <==> x in RemovedLive(g, u) {
      assert RemovedAt(g, dups, removable, x);
    }
    assert before == RemovedLive(g, u) && after == {};
  }

  lemma HeadDoneRestoring(g: Graph, itNext0: seq<nat>, itPrev0: seq<nat>, itNext: seq<nat>, itPrev: seq<nat>, itNext': seq<nat>, itPrev': seq<nat>,
                          u: nat, linked: bool)
    requires g.Valid() && HeadsRestored(g, itNext0, itPrev0, itNext, itPrev, u) && u < |g.isHead| && g.isHead[u]
    requires linked <==> RemovedLive(g, u) != {}
    requires |itNext'| == |itPrev'| == |g.first|
    requires if linked then
               && (forall w: nat {:trigger SameAt(itNext, itPrev, itNext', itPrev', w)} :: w !in g.circ[u] ==> SameAt(itNext, itPrev, itNext', itPrev', w))
               && (SelfLinked(itNext, itPrev, g.circ[u], SliceSizes(g.active, g.last)) ==> IterOk(itNext', itPrev', g.circ[u], SliceSizes(g.active, g.last)))
             else itNext' == itNext && itPrev' == itPrev
    ensures HeadsRestored(g, itNext0, itPrev0, itNext', itPrev', u + 1)
  {
    var size := SliceSizes(g.active, g.last);
    assert HeadAt(g, itNext0, itPrev0, itNext, itPrev, u, u);
    if !linked {
      forall w: nat ensures SameAt(itNext, itPrev, itNext', itPrev', w) {}
    } else if SelfLinked(itNext0, itPrev0, g.circ[u], size) {
      SelfLinkedFrame(itNext0, itPrev0, itNext, itPrev, g.circ[u], size);
    }
    NextRestored(g, itNext0, itPrev0, itNext, itPrev, itNext', itPrev', u);
  }
}
