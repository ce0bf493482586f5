/** Removing single-pin and parallel nets: which nets go, and what weight the others carry. */
module ParallelNets {
  import opened Sums
  import opened FiniteSets
  import opened Chains
  import opened IncidentNets
  import opened Hypergraphs

  // Neither the agreement of both representations nor the total weight of any pin set is lost.

  // ---------- Which nets go ----------

  ghost predicate Candidate(nets: seq<Net>, e: nat) {
    e < |nets| && nets[e].enabled && |nets[e].pins| > 1
  }

  ghost predicate SamePins(nets: seq<Net>, e: nat, f: nat) {
    Candidate(nets, e) && Candidate(nets, f) && nets[e].pins == nets[f].pins
  }

  /** e has the smallest id among the enabled nets with its pins, and more than one pin. */
  ghost predicate Kept(nets: seq<Net>, e: nat) {
    Candidate(nets, e) && forall f: nat {:trigger SamePins(nets, f, e)} :: f < e ==> !SamePins(nets, f, e)
  }

  ghost predicate Goes(nets: seq<Net>, e: nat) {
    e < |nets| && nets[e].enabled && !Kept(nets, e)
  }

  /** Among the nets with the pins of e, one is kept. */
  lemma {:induction false} KeptFor(nets: seq<Net>, e: nat) returns (r: nat)
    requires Candidate(nets, e)
    ensures r <= e && Kept(nets, r) && SamePins(nets, r, e)
    decreases e
  {
    if Kept(nets, e) {
      r := e;
    } else {
      var f: nat :| f < e && SamePins(nets, f, e);
      r := KeptFor(nets, f);
    }
  }

  lemma KeptUnique(nets: seq<Net>, e: nat, f: nat)
    requires Kept(nets, e) && Kept(nets, f) && SamePins(nets, e, f)
    ensures e == f
  {
    assert SamePins(nets, f, e);
  }

  // ---------- Weights ----------

  ghost function ClassShare(nets: seq<Net>, ids: set<nat>, e: nat, x: nat): int
    requires x < |nets|
  {
    if x in ids && SamePins(nets, x, e) then nets[x].weight else 0
  }

  /** Weights of the nets in `ids` that have the pins of e. */
  ghost function ClassColumn(nets: seq<Net>, ids: set<nat>, e: nat): seq<int> {
    seq(|nets|, x requires 0 <= x < |nets| => ClassShare(nets, ids, e, x))
  }

  ghost function ClassWeight(nets: seq<Net>, ids: set<nat>, e: nat): int {
    Sum(ClassColumn(nets, ids, e))
  }

  ghost function All(nets: seq<Net>): set<nat> {
    UpTo(|nets|)
  }

  lemma OneMoreOfClass(nets: seq<Net>, ids: set<nat>, e: nat, x: nat)
    requires x < |nets| && x !in ids
    ensures ClassWeight(nets, ids + {x}, e) == ClassWeight(nets, ids, e) + (if SamePins(nets, x, e) then nets[x].weight else 0)
  {
    var column := ClassColumn(nets, ids, e);
    assert column[x] == ClassShare(nets, ids, e, x);
    SumUpdate(column, x, ClassShare(nets, ids + {x}, e, x));
    var after := ClassColumn(nets, ids + {x}, e);
    forall y: nat | y < |nets| ensures after[y] == column[x := ClassShare(nets, ids + {x}, e, x)][y] {
      assert after[y] == ClassShare(nets, ids + {x}, e, y) && column[y] == ClassShare(nets, ids, e, y);
    }
    assert after == column[x := ClassShare(nets, ids + {x}, e, x)];
  }

  /** Only the members of the class matter. */
  lemma SameClass(nets: seq<Net>, ids: set<nat>, ids': set<nat>, e: nat)
    requires forall x: nat :: x < |nets| && SamePins(nets, x, e) ==> (x in ids <==> x in ids')
    ensures ClassWeight(nets, ids, e) == ClassWeight(nets, ids', e)
  {
    var a, b := ClassColumn(nets, ids, e), ClassColumn(nets, ids', e);
    forall x: nat | x < |nets| ensures a[x] == b[x] {
      assert a[x] == ClassShare(nets, ids, e, x) && b[x] == ClassShare(nets, ids', e, x);
    }
    assert a == b;
  }

  lemma OnlyItself(nets: seq<Net>, e: nat)
    requires Candidate(nets, e)
    ensures ClassWeight(nets, {e}, e) == nets[e].weight
  {
    var column := ClassColumn(nets, {}, e);
    forall x: nat | x < |nets| ensures column[x] == 0 {
      assert column[x] == ClassShare(nets, {}, e, x);
    }
    SumZero(column);
    OneMoreOfClass(nets, {}, e, e);
    assert {} + {e} == {e};
  }

  // ---------- The nets afterwards ----------

  ghost function SimplifiedAt(nets: seq<Net>, e: nat): Net
    requires e < |nets|
  {
    if Kept(nets, e) then nets[e].(weight := ClassWeight(nets, All(nets), e))
    else if nets[e].enabled then nets[e].(enabled := false)
    else nets[e]
  }

  /** Kept nets carry the weight of all nets with their pins, the other enabled nets are disabled. */
  ghost function Simplified(nets: seq<Net>): (r: seq<Net>)
    ensures |r| == |nets|
  {
    seq(|nets|, e requires 0 <= e < |nets| => SimplifiedAt(nets, e))
  }

  /** Every enabled net now has at least two pins, and no two have the same pins. */
  lemma SimplifiedIsSimple(nets: seq<Net>, e: nat, f: nat)
    requires e < |nets| && Simplified(nets)[e].enabled
    ensures |Simplified(nets)[e].pins| > 1
    ensures f < |nets| && Simplified(nets)[f].enabled && Simplified(nets)[f].pins == Simplified(nets)[e].pins ==> f == e
  {
    assert Simplified(nets)[e] == SimplifiedAt(nets, e);
    if f < |nets| && Simplified(nets)[f].enabled && Simplified(nets)[f].pins == Simplified(nets)[e].pins {
      assert Simplified(nets)[f] == SimplifiedAt(nets, f);
      KeptUnique(nets, e, f);
    }
  }

  ghost function PinShare(nets: seq<Net>, pins: set<nat>, x: nat): int
    requires x < |nets|
  {
    if nets[x].enabled && nets[x].pins == pins then nets[x].weight else 0
  }

  /** Weights of the enabled nets with exactly the given pins. */
  ghost function PinColumn(nets: seq<Net>, pins: set<nat>): seq<int> {
    seq(|nets|, x requires 0 <= x < |nets| => PinShare(nets, pins, x))
  }

  /** The total weight of every set of at least two pins is the same as before. */
  lemma WeightConserved(nets: seq<Net>, pins: set<nat>)
    requires |pins| > 1
    ensures Sum(PinColumn(Simplified(nets), pins)) == Sum(PinColumn(nets, pins))
  {
    var before, after := PinColumn(nets, pins), PinColumn(Simplified(nets), pins);
    if e: nat :| Candidate(nets, e) && nets[e].pins == pins {
      var r := KeptFor(nets, e);
      forall x: nat | x < |nets| ensures before[x] == ClassColumn(nets, All(nets), r)[x] && after[x] == if x == r then ClassWeight(nets, All(nets), r) else 0 {
        PinShares(nets, r, x);
      }
      assert before == ClassColumn(nets, All(nets), r);
      var zeros := after[r := 0];
      SumZero(zeros);
      SumUpdate(zeros, r, after[r]);
      assert zeros[r := after[r]] == after;
    } else {
      forall x: nat | x < |nets| ensures before[x] == 0 && after[x] == 0 {
        assert before[x] == PinShare(nets, pins, x) && after[x] == PinShare(Simplified(nets), pins, x);
        assert Simplified(nets)[x] == SimplifiedAt(nets, x);
        assert !(Candidate(nets, x) && nets[x].pins == pins);
      }
      SumZero(before);
      SumZero(after);
    }
  }

  lemma PinShares(nets: seq<Net>, r: nat, x: nat)
    requires Kept(nets, r) && x < |nets|
    ensures PinColumn(nets, nets[r].pins)[x] == ClassColumn(nets, All(nets), r)[x]
    ensures PinColumn(Simplified(nets), nets[r].pins)[x] == if x == r then ClassWeight(nets, All(nets), r) else 0
  {
    assert PinColumn(nets, nets[r].pins)[x] == PinShare(nets, nets[r].pins, x);
    assert ClassColumn(nets, All(nets), r)[x] == ClassShare(nets, All(nets), r, x);
    assert PinColumn(Simplified(nets), nets[r].pins)[x] == PinShare(Simplified(nets), nets[r].pins, x);
    assert Simplified(nets)[x] == SimplifiedAt(nets, x);
    if Kept(nets, x) && nets[x].pins == nets[r].pins {
      KeptUnique(nets, x, r);
    }
  }

  /** Of the enabled nets with the same pins, the one of smallest id stays if they have more than one pin. No net
      changes its pins, and one that goes keeps its weight. */
  lemma SmallestIdStays(nets: seq<Net>, e: nat)
    requires e < |nets|
    ensures Simplified(nets)[e].enabled <==>
            nets[e].enabled && |nets[e].pins| > 1 && forall f :: 0 <= f < e && nets[f].enabled ==> nets[f].pins != nets[e].pins
    ensures Simplified(nets)[e].pins == nets[e].pins && Simplified(nets)[e].removed == nets[e].removed
    ensures !Simplified(nets)[e].enabled ==> Simplified(nets)[e].weight == nets[e].weight
  {
    assert Simplified(nets)[e] == SimplifiedAt(nets, e);
    if Kept(nets, e) {
      forall f | 0 <= f < e && nets[f].enabled ensures nets[f].pins != nets[e].pins {
        assert !SamePins(nets, f, e);
      }
    } else if Candidate(nets, e) {
      var f: nat :| f < e && SamePins(nets, f, e);
      assert nets[f].enabled;
    }
  }

  // ---------- The hypergraph afterwards ----------

  ghost function Flags(nets: seq<Net>): set<nat> {
    set e: nat | e < |nets| && Goes(nets, e)
  }

  /** Single-pin and parallel nets are gone from both representations. */
  ghost function SimplifiedGraph(h: Hypergraph): Hypergraph
    requires h.inc.Shape()
  {
    h.(nets := Simplified(h.nets), inc := Between(h.inc, Flags(h.nets), 0, |h.inc.degree|))
  }

  /** Both representations agree after the removal. */
  lemma SimplifiedAgree(h: Hypergraph)
    requires h.Agree()
    ensures SimplifiedGraph(h).Agree()
  {
    var h', flags, all := SimplifiedGraph(h), Flags(h.nets), |h.inc.degree|;
    BetweenShape(h.inc, flags, 0, all);
    forall p: nat | p < all ensures h'.NodeOk(p) && h'.inc.DegreeOk(p) {
      assert h.NodeOk(p);
      if h.inc.chain.isHead[p] { RemovedEverywhere(h.inc, flags, p); }
    }
    forall p: nat, e: nat | p < all ensures h'.AgreeAt(p, e) {
      assert h.NodeOk(p) && h.AgreeAt(p, e);
      if h.enabled[p] {
        RemovedEverywhere(h.inc, flags, p);
        assert e < |h.nets| ==> h'.nets[e] == SimplifiedAt(h.nets, e);
      }
    }
    forall e: nat | e < |h.nets| ensures h'.PinsOk(e) {
      assert h.PinsOk(e) && h'.nets[e] == SimplifiedAt(h.nets, e);
    }
  }

  // ---------- Coarsening ----------

  /** A removed net, and the net that took over its weight, if any. */
  datatype ParallelHyperedge = ParallelHyperedge(removed: nat, representative: nat)

  datatype CoarseningStep = Contraction(u: nat, v: nat) | NetRemoval(removed: seq<ParallelHyperedge>)

  /** Step i of the history contracted an enabled pair, or removed single-pin and parallel nets. */
  ghost predicate StepTaken(trail: seq<Hypergraph>, history: seq<CoarseningStep>, i: nat)
    requires |trail| == |history| + 1 && i < |history|
  {
    match history[i]
    case Contraction(u, v) =>
      && NodesInRange(trail[i], u, v) && trail[i + 1] == Hypergraphs.Contracted(trail[i], u, v)
      && u != v && trail[i].enabled[u] && trail[i].enabled[v]
    case NetRemoval(_) =>
      trail[i].inc.Shape() && trail[i + 1] == SimplifiedGraph(trail[i])
  }

  /** Both representations agree in every state of every coarsening. */
  lemma {:induction false} AlwaysAgree(trail: seq<Hypergraph>, history: seq<CoarseningStep>, k: nat)
    requires |trail| == |history| + 1 && trail[0].Agree() && k <= |history|
    requires forall i: nat {:trigger StepTaken(trail, history, i)} :: i < |history| ==> StepTaken(trail, history, i)
    ensures trail[k].Agree()
  {
    hide Hypergraph.Agree;
    if k > 0 {
      AlwaysAgree(trail, history, k - 1);
      StepAgrees(trail, history, k - 1);
    }
  }

  lemma StepAgrees(trail: seq<Hypergraph>, history: seq<CoarseningStep>, i: nat)
    requires |trail| == |history| + 1 && i < |history| && trail[i].Agree() && StepTaken(trail, history, i)
    ensures trail[i + 1].Agree()
  {
    match history[i]
    case Contraction(u, v) => ContractedAgree(trail[i], u, v);
    case NetRemoval(_) => SimplifiedAgree(trail[i]);
  }

  // ---------- Taking it back ----------

  ghost function RemovedIds(list: seq<ParallelHyperedge>): set<nat> {
    set i | 0 <= i < |list| :: list[i].removed
  }

  ghost predicate EntryOk(nets: seq<Net>, a: ParallelHyperedge) {
    && Goes(nets, a.removed)
    && (if Candidate(nets, a.removed) then Kept(nets, a.representative) && SamePins(nets, a.representative, a.removed)
        else a.representative == INVALID)
  }

  /** The list names every removed net once, with its representative. */
  ghost predicate RemovalList(nets: seq<Net>, list: seq<ParallelHyperedge>) {
    && (forall i: nat {:trigger EntryOk(nets, list[i])} :: i < |list| ==> EntryOk(nets, list[i]))
    && (forall i, j :: 0 <= i < j < |list| ==> list[i].removed != list[j].removed)
    && (forall e: nat {:trigger Goes(nets, e)} :: Goes(nets, e) ==> e in RemovedIds(list))
  }

  /** A net with one pin goes without a representative, any other names the net of smallest id with its pins. */
  lemma RepresentativeStays(nets: seq<Net>, list: seq<ParallelHyperedge>, i: nat)
    requires RemovalList(nets, list) && i < |list|
    ensures var a := list[i];
            && a.removed < |nets| && nets[a.removed].enabled && !Simplified(nets)[a.removed].enabled
            && (|nets[a.removed].pins| <= 1 ==> a.representative == INVALID)
            && (|nets[a.removed].pins| > 1 ==>
                  && a.representative < a.removed && Simplified(nets)[a.representative].enabled
                  && nets[a.representative].pins == nets[a.removed].pins)
  {
    var a := list[i];
    assert EntryOk(nets, a) && Simplified(nets)[a.removed] == SimplifiedAt(nets, a.removed);
    if Candidate(nets, a.removed) {
      var r := KeptFor(nets, a.removed);
      KeptUnique(nets, r, a.representative);
      assert Simplified(nets)[r] == SimplifiedAt(nets, r);
    }
  }

  /** The nets after those in `back` were restored: their weights are taken from their representatives. */
  ghost function RestoredAt(nets: seq<Net>, back: set<nat>, e: nat): Net
    requires e < |nets|
  {
    if Kept(nets, e) then nets[e].(weight := ClassWeight(nets, All(nets) - back, e))
    else if nets[e].enabled && e !in back then nets[e].(enabled := false)
    else nets[e]
  }

  ghost function Restoring(nets: seq<Net>, back: set<nat>): (r: seq<Net>)
    ensures |r| == |nets|
  {
    seq(|nets|, e requires 0 <= e < |nets| => RestoredAt(nets, back, e))
  }

  lemma RestoringStarts(nets: seq<Net>)
    ensures Restoring(nets, {}) == Simplified(nets)
  {
    forall e: nat | e < |nets| ensures Restoring(nets, {})[e] == Simplified(nets)[e] {
      assert Restoring(nets, {})[e] == RestoredAt(nets, {}, e) && Simplified(nets)[e] == SimplifiedAt(nets, e);
      assert All(nets) - {} == All(nets);
    }
  }

  ghost function RestoreOne(nets: seq<Net>, a: ParallelHyperedge): seq<Net>
    requires a.removed < |nets|
  {
    var on := nets[a.removed := nets[a.removed].(enabled := true)];
    if a.representative < |nets| then on[a.representative := on[a.representative].(weight := on[a.representative].weight - on[a.removed].weight)] else on
  }

  /** Restoring one more net. */
  lemma RestoringStep(nets: seq<Net>, back: set<nat>, a: ParallelHyperedge)
    requires EntryOk(nets, a) && a.removed !in back && |nets| <= INVALID
    ensures RestoreOne(Restoring(nets, back), a) == Restoring(nets, back + {a.removed})
    ensures !Restoring(nets, back)[a.removed].enabled
    ensures Candidate(nets, a.removed) ==> a.representative < |nets| && Restoring(nets, back)[a.representative].enabled
  {
    var x, before, after := a.removed, Restoring(nets, back), Restoring(nets, back + {a.removed});
    var one := RestoreOne(before, a);
    assert before[x] == RestoredAt(nets, back, x);
    if Candidate(nets, x) { assert before[a.representative] == RestoredAt(nets, back, a.representative); }
    forall e: nat | e < |nets| ensures one[e] == after[e] {
      RestoringAt(nets, back, a, e);
    }
    assert one == after;
  }

  lemma RestoringAt(nets: seq<Net>, back: set<nat>, a: ParallelHyperedge, e: nat)
    requires EntryOk(nets, a) && a.removed !in back && |nets| <= INVALID && e < |nets|
    ensures RestoreOne(Restoring(nets, back), a)[e] == Restoring(nets, back + {a.removed})[e]
  {
    var x := a.removed;
    assert Restoring(nets, back)[e] == RestoredAt(nets, back, e) && Restoring(nets, back)[x] == RestoredAt(nets, back, x);
    assert Restoring(nets, back + {x})[e] == RestoredAt(nets, back + {x}, e);
    if Kept(nets, e) {
      WeightLeft(nets, back, x, e);
      if SamePins(nets, x, e) {
        assert SamePins(nets, a.representative, e);
        KeptUnique(nets, a.representative, e);
      }
    }
  }

  lemma WeightLeft(nets: seq<Net>, back: set<nat>, x: nat, e: nat)
    requires x < |nets| && x !in back
    ensures ClassWeight(nets, All(nets) - (back + {x}), e)
            == ClassWeight(nets, All(nets) - back, e) - (if SamePins(nets, x, e) then nets[x].weight else 0)
  {
    var ids := All(nets) - (back + {x});
    OneMoreOfClass(nets, ids, e, x);
    assert ids + {x} == All(nets) - back;
  }

  /** Once all removed nets are back, every net is what it was. */
  lemma RestoringEnds(nets: seq<Net>, list: seq<ParallelHyperedge>)
    requires RemovalList(nets, list)
    ensures Restoring(nets, RemovedIds(list)) == nets
  {
    var back := RemovedIds(list);
    forall e: nat | e < |nets| ensures Restoring(nets, back)[e] == nets[e] {
      assert Restoring(nets, back)[e] == RestoredAt(nets, back, e);
      if Kept(nets, e) {
        RestOfClass(nets, list, e);
      } else {
        assert nets[e].enabled ==> Goes(nets, e);
      }
    }
  }

  lemma RestOfClass(nets: seq<Net>, list: seq<ParallelHyperedge>, e: nat)
    requires RemovalList(nets, list) && Kept(nets, e)
    ensures ClassWeight(nets, All(nets) - RemovedIds(list), e) == nets[e].weight
  {
    forall x: nat | x < |nets| && SamePins(nets, x, e) ensures x in All(nets) - RemovedIds(list) <==> x in {e} {
      if x != e && Kept(nets, x) {
        KeptUnique(nets, x, e);
      }
      if x in RemovedIds(list) {
        var i: nat :| i < |list| && list[i].removed == x;
        assert EntryOk(nets, list[i]);
      }
      assert !Kept(nets, x) ==> Goes(nets, x);
    }
    SameClass(nets, All(nets) - RemovedIds(list), {e}, e);
    OnlyItself(nets, e);
  }
}
