/** The steps of the loops that permute edge ids.

    Ids are permuted when edges are removed, and permuted back when the edges are restored. */
module PermutationSteps {
  import opened Chains
  import opened QuotientGraph
  import opened EdgePermutation

  datatype RemovedEdge = RemovedEdge(edgeId: nat, oldId: nat)

  // ---------- Removal ----------

  function Permuted(edges: seq<Edge>, content: seq<nat>): (r: seq<Edge>)
    ensures |r| == |content|
    ensures forall p :: 0 <= p < |content| && content[p] < |edges| ==> r[p] == edges[content[p]]
  {
    seq(|content|, p requires 0 <= p < |content| => if content[p] < |edges| then edges[content[p]] else Edge(0, 0, 0, 0))
  }

  ghost function ActiveAfter(g: Graph, slots: seq<seq<nat>>): seq<nat>
    requires |slots| == |g.active|
  {
    seq(|g.active|, w requires 0 <= w < |g.active| => g.active[w] + |slots[w]|)
  }

  /** The state of the array when the ids in `slots` were swapped to the front of their slices. */
  ghost predicate PermutedBy(g: Graph, marked: seq<Edge>, slots: seq<seq<nat>>, edges: seq<Edge>, mapping: seq<nat>, active: seq<nat>) {
    && SlotsOk(g, slots) && |marked| == |g.edges|
    && edges == Permuted(marked, Contents(g, slots)) && Inverse(Contents(g, slots), mapping)
    && active == ActiveAfter(g, slots)
  }

  lemma NothingPermuted(g: Graph, marked: seq<Edge>, slots: seq<seq<nat>>, mapping: seq<nat>)
    requires g.Shape() && |marked| == |g.edges| && mapping == Identity(|g.edges|)
    requires slots == seq(|g.first|, w => [])
    ensures PermutedBy(g, marked, slots, marked, mapping, g.active)
  {
    NoSlots(g, slots);
    assert Permuted(marked, Contents(g, slots)) == marked;
    assert ActiveAfter(g, slots) == g.active;
  }

  /** Swapping id e to the front of slice w. */
  lemma SwapToFront(g: Graph, marked: seq<Edge>, slots: seq<seq<nat>>, edges: seq<Edge>, mapping: seq<nat>, active: seq<nat>, w: nat, e: nat)
    requires PermutedBy(g, marked, slots, edges, mapping, active) && w < |slots|
    requires g.active[w] + |slots[w]| <= e < g.last[w] && forall k :: 0 <= k < |slots[w]| ==> slots[w][k] < e
    ensures w < |active| && active[w] == g.active[w] + |slots[w]| && active[w] < |edges| && e < |edges|
    ensures Contents(g, slots)[active[w]] < |mapping| && mapping[e] == e
    ensures PermutedBy(g, marked, slots[w := slots[w] + [e]], SwapAt(edges, e, active[w]),
                       mapping[e := active[w]][Contents(g, slots)[active[w]] := e], active[w := active[w] + 1])
  {
    var c, i := Contents(g, slots), active[w];
    var slots' := slots[w := slots[w] + [e]];
    OneMoreSwap(g, slots, w, e);
    InverseSwapped(c, mapping, i, e);
    assert ActiveAfter(g, slots') == active[w := active[w] + 1];
    assert SwapAt(edges, e, i) == Permuted(marked, SwapAt(c, i, e));
  }

  /** `removed` lists for every swapped edge where it is now and where it was. */
  ghost predicate Recorded(g: Graph, slots: seq<seq<nat>>, removed: seq<RemovedEdge>)
    requires g.Shape() && |slots| == |g.first|
  {
    && (forall i {:trigger RecordOk(g, slots, removed[i])} :: 0 <= i < |removed| ==> RecordOk(g, slots, removed[i]))
    && (forall w: nat, k: nat {:trigger ListedAt(g, slots, removed, w, k)} :: w < |slots| && k < |slots[w]| ==> ListedAt(g, slots, removed, w, k))
  }

  ghost predicate ListedAt(g: Graph, slots: seq<seq<nat>>, removed: seq<RemovedEdge>, w: nat, k: nat)
    requires g.Shape() && |slots| == |g.first| && w < |slots| && k < |slots[w]|
  {
    RemovedEdge(g.active[w] + k, slots[w][k]) in removed
  }

  ghost predicate RecordOk(g: Graph, slots: seq<seq<nat>>, re: RemovedEdge)
    requires g.Shape() && |slots| == |g.first|
  {
    && re.edgeId < |g.edges| && g.Active(re.edgeId)
    && var w := g.owner[re.edgeId]; var k := re.edgeId - g.active[w];
       k < |slots[w]| && slots[w][k] == re.oldId
  }

  lemma RecordOneMore(g: Graph, slots: seq<seq<nat>>, removed: seq<RemovedEdge>, w: nat, e: nat)
    requires g.Shape() && |slots| == |g.first| && w < |slots| && Recorded(g, slots, removed) && g.active[w] + |slots[w]| < g.last[w]
    ensures Recorded(g, slots[w := slots[w] + [e]], removed + [RemovedEdge(g.active[w] + |slots[w]|, e)])
  {
    var slots', removed' := slots[w := slots[w] + [e]], removed + [RemovedEdge(g.active[w] + |slots[w]|, e)];
    assert InSlice(g.first, g.last, w, g.active[w] + |slots[w]|);
    forall i | 0 <= i < |removed'| ensures RecordOk(g, slots', removed'[i]) {
      if i < |removed| { assert removed'[i] == removed[i] && RecordOk(g, slots, removed[i]); }
    }
    forall x: nat, k: nat | x < |slots'| && k < |slots'[x]| ensures ListedAt(g, slots', removed', x, k) {
      if x != w || k < |slots[w]| {
        assert ListedAt(g, slots, removed, x, k) && slots'[x][k] == slots[x][k];
      } else {
        assert removed'[|removed|] in removed';
      }
    }
  }

  // ---------- Restoring ----------

  /** The positions of removed edges that are still to be swapped back. */
  ghost function Pending(g: Graph, slots: seq<seq<nat>>): set<nat>
    requires g.Shape() && |slots| == |g.first|
  {
    set p: nat | p < |g.edges| && g.Active(p) && p < g.active[g.owner[p]] + |slots[g.owner[p]]|
  }

  /** Removed ids that are back at their place. */
  ghost function Returned(g: Graph, all: seq<seq<nat>>, slots: seq<seq<nat>>): set<nat>
    requires g.Shape() && |slots| == |g.first| == |all|
  {
    set x: nat | x < |g.edges| && x in all[g.owner[x]] && x !in slots[g.owner[x]]
  }

  /** Entries of pending positions hold their swap target, all others the permutation so far. */
  ghost predicate TargetsAt(g: Graph, slots: seq<seq<nat>>, sigma: seq<nat>, mapping: seq<nat>, y: nat)
    requires g.Shape() && |slots| == |g.first| && |sigma| == |mapping| == |g.edges| && y < |g.edges|
  {
    if y in Pending(g, slots) then sigma[y] == y && mapping[y] == slots[g.owner[y]][y - g.active[g.owner[y]]]
    else mapping[y] == sigma[y]
  }

  ghost predicate IsPrefixOf(g: Graph, all: seq<seq<nat>>, slots: seq<seq<nat>>) {
    && SlotsOk(g, slots) && SlotsOk(g, all)
    && forall w: nat {:trigger PrefixAt(all, slots, w)} :: w < |slots| ==> PrefixAt(all, slots, w)
  }

  ghost predicate PrefixAt(all: seq<seq<nat>>, slots: seq<seq<nat>>, w: nat)
    requires w < |slots| == |all|
  {
    |slots[w]| <= |all[w]| && slots[w] == all[w][..|slots[w]|]
  }

  /** `sigma` leads from the positions after the removal to the positions now, `inv` back. */
  ghost predicate Tracks(g: Graph, all: seq<seq<nat>>, slots: seq<seq<nat>>, sigma: seq<nat>, inv: seq<nat>)
    requires SlotsOk(g, slots) && SlotsOk(g, all)
  {
    && Inverse(inv, sigma) && |sigma| == |g.edges|
    && forall y: nat {:trigger TracksAt(g, all, slots, sigma, y)} :: y < |g.edges| ==> TracksAt(g, all, slots, sigma, y)
  }

  ghost predicate TracksAt(g: Graph, all: seq<seq<nat>>, slots: seq<seq<nat>>, sigma: seq<nat>, y: nat)
    requires SlotsOk(g, slots) && SlotsOk(g, all) && y < |sigma| == |g.edges|
  {
    sigma[y] < |g.edges| && Contents(g, all)[y] == Contents(g, slots)[sigma[y]]
  }

  /** Outside of `stale` the mapping holds the permutation, and `stale` positions are not permuted. */
  ghost predicate Agrees(mapping: seq<nat>, sigma: seq<nat>, stale: set<nat>) {
    |mapping| == |sigma| && forall y: nat {:trigger AgreesAt(mapping, sigma, stale, y)} :: y < |mapping| ==> AgreesAt(mapping, sigma, stale, y)
  }

  ghost predicate AgreesAt(mapping: seq<nat>, sigma: seq<nat>, stale: set<nat>, y: nat)
    requires y < |mapping| == |sigma|
  {
    if y in stale then sigma[y] == y else mapping[y] == sigma[y]
  }

  ghost predicate RestoringAt(g: Graph, moved: seq<Edge>, all: seq<seq<nat>>, slots: seq<seq<nat>>, sigma: seq<nat>, inv: seq<nat>,
                              edges: seq<Edge>, mapping: seq<nat>, active: seq<nat>, removable: set<nat>) {
    && IsPrefixOf(g, all, slots) && |moved| == |g.edges| == |mapping|
    && edges == Permuted(moved, Contents(g, slots)) && active == ActiveAfter(g, slots)
    && Tracks(g, all, slots, sigma, inv)
    && removable == Pending(g, slots) + Returned(g, all, slots)
    && forall y: nat {:trigger TargetsAt(g, slots, sigma, mapping, y)} :: y < |g.edges| ==> TargetsAt(g, slots, sigma, mapping, y)
  }

  lemma RestoreStart(g: Graph, moved: seq<Edge>, all: seq<seq<nat>>, edges: seq<Edge>, mapping: seq<nat>, removable: set<nat>, ident: seq<nat>)
    requires SlotsOk(g, all) && |moved| == |g.edges| == |mapping| && edges == Permuted(moved, Contents(g, all))
    requires removable == Pending(g, all)
    requires ident == Identity(|g.edges|)
    requires forall y: nat {:trigger TargetsAt(g, all, ident, mapping, y)} :: y < |g.edges| ==> TargetsAt(g, all, ident, mapping, y)
    ensures RestoringAt(g, moved, all, all, ident, ident, edges, mapping, ActiveAfter(g, all), removable)
  {
    assert Returned(g, all, all) == {};
    forall y: nat | y < |g.edges| ensures TracksAt(g, all, all, ident, y) {}
    forall w: nat | w < |all| ensures PrefixAt(all, all, w) {}
  }

  function Shortened(slots: seq<seq<nat>>, w: nat): seq<seq<nat>>
    requires w < |slots| && slots[w] != []
  {
    slots[w := slots[w][..|slots[w]| - 1]]
  }

  /** What the contents were before the last swap of slice w. */
  lemma OneSwapLess(g: Graph, all: seq<seq<nat>>, slots: seq<seq<nat>>, w: nat)
    requires IsPrefixOf(g, all, slots) && w < |slots| && slots[w] != []
    ensures var k := |slots[w]| - 1; var e := g.active[w] + k; var oldId := slots[w][k];
            IsPrefixOf(g, all, Shortened(slots, w)) && e <= oldId < g.last[w] && InSlice(g.first, g.last, w, e) && InSlice(g.first, g.last, w, oldId)
            && Contents(g, slots) == SwapAt(Contents(g, Shortened(slots, w)), e, oldId)
            && (forall j :: k < j < |all[w]| ==> all[w][j] > oldId)
  {
    var k := |slots[w]| - 1;
    var e, x := g.active[w] + k, slots[w][k];
    var slots' := Shortened(slots, w);
    assert SlotOk(g, slots, w) && SlotOk(g, all, w);
    assert slots[w] == slots'[w] + [x] && slots == slots'[w := slots'[w] + [x]];
    forall v: nat | v < |slots'| ensures SlotOk(g, slots', v) {
      assert SlotOk(g, slots, v);
    }
    assert PrefixAt(all, slots, w);
    assert all[w][k] == x;
    OneMoreSwap(g, slots', w, x);
    forall v: nat | v < |slots'| ensures PrefixAt(all, slots', v) {
      assert PrefixAt(all, slots, v);
    }
  }

  lemma PendingShrinks(g: Graph, all: seq<seq<nat>>, slots: seq<seq<nat>>, w: nat)
    requires IsPrefixOf(g, all, slots) && w < |slots| && slots[w] != []
    ensures var e := g.active[w] + |slots[w]| - 1; var x := slots[w][|slots[w]| - 1];
            Pending(g, slots) == Pending(g, Shortened(slots, w)) + {e} && e !in Pending(g, Shortened(slots, w))
            && (x == e || x !in Pending(g, slots))
            && Returned(g, all, Shortened(slots, w)) == Returned(g, all, slots) + {x} && e !in Returned(g, all, slots)
  {
    OneSwapLess(g, all, slots, w);
    var k := |slots[w]| - 1;
    var e, x := g.active[w] + k, slots[w][k];
    var slots' := Shortened(slots, w);
    assert SlotOk(g, slots, w) && SlotOk(g, all, w);
    forall p: nat | p < |g.edges| ensures p in Pending(g, slots) <==> p in Pending(g, slots') + {e} {
    }
    ReturnedGrows(g, all, slots, w);
  }

  lemma ReturnedGrows(g: Graph, all: seq<seq<nat>>, slots: seq<seq<nat>>, w: nat)
    requires IsPrefixOf(g, all, slots) && w < |slots| && slots[w] != []
    ensures var e := g.active[w] + |slots[w]| - 1; var x := slots[w][|slots[w]| - 1];
            Returned(g, all, Shortened(slots, w)) == Returned(g, all, slots) + {x} && e !in Returned(g, all, slots)
  {
    OneSwapLess(g, all, slots, w);
    var k := |slots[w]| - 1;
    var e, x := g.active[w] + k, slots[w][k];
    var slots' := Shortened(slots, w);
    assert SlotOk(g, slots, w) && SlotOk(g, all, w) && PrefixAt(all, slots, w);
    assert all[w][k] == x;
    assert slots[w] == slots'[w] + [x];
    assert x !in slots'[w];
    forall j | 0 <= j < |all[w]| ensures all[w][j] == e ==> e in slots[w] {
      assert j <= k ==> slots[w][j] == all[w][j];
    }
  }

  /** The permutation after positions e and x are swapped. */
  function Turned(sigma: seq<nat>, inv: seq<nat>, e: nat, x: nat): (r: seq<nat>)
    requires e < |sigma| && x < |inv| && inv[x] < |sigma|
    ensures |r| == |sigma|
  {
    sigma[e := x][inv[x] := e]
  }

  lemma TracksBack(g: Graph, all: seq<seq<nat>>, slots: seq<seq<nat>>, slots': seq<seq<nat>>, sigma: seq<nat>, inv: seq<nat>, e: nat, x: nat)
    requires SlotsOk(g, slots) && SlotsOk(g, slots') && SlotsOk(g, all) && Tracks(g, all, slots, sigma, inv)
    requires e < |sigma| && sigma[e] == e && x < |sigma| && Contents(g, slots) == SwapAt(Contents(g, slots'), e, x)
    ensures inv[x] < |sigma| && Tracks(g, all, slots', Turned(sigma, inv, e, x), SwapAt(inv, x, e))
  {
    assert inv[sigma[e]] == e;
    InverseSwapped(inv, sigma, x, e);
    var c, c', sigma' := Contents(g, slots), Contents(g, slots'), Turned(sigma, inv, e, x);
    forall y: nat | y < |g.edges| ensures TracksAt(g, all, slots', sigma', y) {
      assert TracksAt(g, all, slots, sigma, y) && Contents(g, all)[y] == c[sigma[y]];
      assert inv[sigma[y]] == y;
    }
  }

  lemma TargetsBack(g: Graph, slots: seq<seq<nat>>, slots': seq<seq<nat>>, sigma: seq<nat>, inv: seq<nat>, mapping: seq<nat>, w: nat, e: nat, x: nat)
    requires g.Shape() && |slots| == |slots'| == |g.first| && w < |slots| && slots' == slots[w := slots'[w]] && slots'[w] <= slots[w]
    requires Inverse(inv, sigma) && |sigma| == |mapping| == |g.edges| && e < |sigma| && sigma[e] == e && x < |sigma|
    requires Pending(g, slots) == Pending(g, slots') + {e} && e !in Pending(g, slots') && (x == e || x !in Pending(g, slots))
    requires forall y: nat {:trigger TargetsAt(g, slots, sigma, mapping, y)} :: y < |g.edges| ==> TargetsAt(g, slots, sigma, mapping, y)
    ensures inv[x] < |sigma|
    ensures forall y: nat {:trigger TargetsAt(g, slots', Turned(sigma, inv, e, x), Turned(mapping, inv, e, x), y)} ::
              y < |g.edges| ==> TargetsAt(g, slots', Turned(sigma, inv, e, x), Turned(mapping, inv, e, x), y)
  {
    assert sigma[inv[x]] == x;
    forall y: nat {:trigger TargetsAt(g, slots', Turned(sigma, inv, e, x), Turned(mapping, inv, e, x), y)} | y < |g.edges|
      ensures TargetsAt(g, slots', Turned(sigma, inv, e, x), Turned(mapping, inv, e, x), y)
    {
      assert TargetsAt(g, slots, sigma, mapping, y);
      if y in Pending(g, slots') {
        assert y in Pending(g, slots) && y != e && sigma[y] == y;
        assert y != inv[x];
      }
    }
  }

  /** Swapping back the last swap of slice w. */
  lemma SwapBack(g: Graph, moved: seq<Edge>, all: seq<seq<nat>>, slots: seq<seq<nat>>, sigma: seq<nat>, inv: seq<nat>,
                 edges: seq<Edge>, mapping: seq<nat>, active: seq<nat>, removable: set<nat>, w: nat, e: nat, x: nat)
    requires RestoringAt(g, moved, all, slots, sigma, inv, edges, mapping, active, removable)
    requires w < |slots| && slots[w] != [] && e == g.active[w] + |slots[w]| - 1 && x == slots[w][|slots[w]| - 1]
    ensures e < |edges| && x < |edges| && w < |active| && active[w] == e + 1 && e in removable
    ensures mapping[e] == x && x < |inv| && inv[x] < |mapping| && sigma[e] == e && g.active[w] <= e
    ensures RestoringAt(g, moved, all, Shortened(slots, w), Turned(sigma, inv, e, x), SwapAt(inv, x, e),
                        SwapAt(edges, e, x), Turned(mapping, inv, e, x), active[w := e], removable - {e} + {x})
  {
    OneSwapLess(g, all, slots, w);
    PendingShrinks(g, all, slots, w);
    assert TargetsAt(g, slots, sigma, mapping, e);
    TracksBack(g, all, slots, Shortened(slots, w), sigma, inv, e, x);
    TargetsBack(g, slots, Shortened(slots, w), sigma, inv, mapping, w, e, x);
    EdgesBack(g, moved, all, slots, edges, active, w);
  }

  lemma EdgesBack(g: Graph, moved: seq<Edge>, all: seq<seq<nat>>, slots: seq<seq<nat>>, edges: seq<Edge>, active: seq<nat>, w: nat)
    requires IsPrefixOf(g, all, slots) && w < |slots| && slots[w] != [] && |moved| == |g.edges|
    requires edges == Permuted(moved, Contents(g, slots)) && active == ActiveAfter(g, slots)
    ensures var e := g.active[w] + |slots[w]| - 1; var x := slots[w][|slots[w]| - 1];
            IsPrefixOf(g, all, Shortened(slots, w)) && e < |edges| && x < |edges| && w < |active| && active[w] == e + 1
            && SwapAt(edges, e, x) == Permuted(moved, Contents(g, Shortened(slots, w)))
            && active[w := e] == ActiveAfter(g, Shortened(slots, w))
  {
    OneSwapLess(g, all, slots, w);
    var e, x := g.active[w] + |slots[w]| - 1, slots[w][|slots[w]| - 1];
    assert Contents(g, slots) == SwapAt(Contents(g, Shortened(slots, w)), e, x);
    assert SwapAt(edges, e, x) == Permuted(moved, Contents(g, Shortened(slots, w)));
    assert active[w := e] == ActiveAfter(g, Shortened(slots, w));
  }

  /** Which entries the cycle search must not touch, and that it starts outside of them. */
  ghost function Stale(g: Graph, slots: seq<seq<nat>>, w: nat): set<nat>
    requires g.Shape() && |slots| == |g.first| && w < |slots| && slots[w] != []
  {
    var e := g.active[w] + |slots[w]| - 1;
    if slots[w][|slots[w]| - 1] == e then Pending(g, slots) - {e} else Pending(g, slots)
  }

  lemma SearchIsSafe(g: Graph, moved: seq<Edge>, all: seq<seq<nat>>, slots: seq<seq<nat>>, sigma: seq<nat>, inv: seq<nat>,
                     edges: seq<Edge>, mapping: seq<nat>, active: seq<nat>, removable: set<nat>, w: nat)
    requires RestoringAt(g, moved, all, slots, sigma, inv, edges, mapping, active, removable)
    requires w < |slots| && slots[w] != []
    ensures slots[w][|slots[w]| - 1] !in Stale(g, slots, w)
    ensures Agrees(mapping, sigma, Stale(g, slots, w))
  {
    PendingShrinks(g, all, slots, w);
    forall y: nat | y < |mapping| ensures AgreesAt(mapping, sigma, Stale(g, slots, w), y) {
      assert TargetsAt(g, slots, sigma, mapping, y);
    }
  }

  /** When all swaps are undone, every edge is at its old place and the mapping leads back there. */
  lemma RestoreEnd(g: Graph, moved: seq<Edge>, all: seq<seq<nat>>, slots: seq<seq<nat>>, sigma: seq<nat>, inv: seq<nat>,
                   edges: seq<Edge>, mapping: seq<nat>, active: seq<nat>, removable: set<nat>)
    requires RestoringAt(g, moved, all, slots, sigma, inv, edges, mapping, active, removable)
    requires forall w :: 0 <= w < |slots| ==> slots[w] == []
    ensures edges == moved && mapping == Contents(g, all) && active == g.active
    ensures forall x: nat :: x in removable <==> x < |g.edges| && x in all[g.owner[x]]
  {
    NoSlots(g, slots);
    forall y: nat | y < |g.edges| ensures mapping[y] == Contents(g, all)[y] {
      assert TargetsAt(g, slots, sigma, mapping, y) && TracksAt(g, all, slots, sigma, y);
      assert Contents(g, all)[y] == Contents(g, slots)[sigma[y]];
    }
    assert active == g.active;
  }
}
