/** The dynamic hypergraph.

    Pins per net and an incident-net array, changed in place by contractions and by the removal of single-pin
    and parallel nets. */
module DynamicHypergraph {
  import opened Rings
  import opened Sums
  import opened Chains
  import opened PinLists
  import opened PinNets
  import opened ParallelNets
  import opened ParallelDetection
  import opened Sorting
  import opened IncidentNets
  import opened Hypergraphs
  import opened ContractionOrder
  import opened BatchUncontraction
  import opened UncontractionSteps
  import opened IncidentNetArray

  // ---------- A new hypergraph ----------

  function NewHyperedge(pins: seq<nat>, weight: int, hashOf: nat -> nat): Hyperedge {
    Hyperedge(pins, |pins|, weight, (HASH_SEED + Sum(HashColumn(pins, hashOf))) % TWO_TO_THE_64, true)
  }

  ghost function InitialNet(pins: seq<nat>, weight: int): Net {
    Net(set i | 0 <= i < |pins| :: pins[i], {}, weight, true)
  }

  ghost function InitialNets(edgeVector: seq<seq<nat>>, netWeight: seq<int>): (r: seq<Net>)
    requires |netWeight| == |edgeVector|
    ensures |r| == |edgeVector|
  {
    seq(|edgeVector|, e requires 0 <= e < |edgeVector| => InitialNet(edgeVector[e], netWeight[e]))
  }

  lemma NewEdges(edgeVector: seq<seq<nat>>, netWeight: seq<int>, edges: seq<Hyperedge>, hashOf: nat -> nat)
    requires |netWeight| == |edgeVector| == |edges| && forall e: nat :: e < |edges| ==> Distinct(edgeVector[e])
    requires forall e: nat :: e < |edges| ==> edges[e] == NewHyperedge(edgeVector[e], netWeight[e], hashOf)
    ensures EdgesValid(edges) && HashesOk(edges, hashOf) && NetsOf(edges) == InitialNets(edgeVector, netWeight)
  {
    forall e: nat | e < |edges| ensures EdgeValid(edges, e) && NetsOf(edges)[e] == InitialNets(edgeVector, netWeight)[e] {
      assert edges[e].pins[..edges[e].size] == edgeVector[e];
    }
    forall e: nat | e < |edges| ensures EdgeHashOk(edges, hashOf, e) {
      assert edges[e].pins[..edges[e].size] == edgeVector[e];
    }
  }

  /** At the start both representations agree. */
  lemma NewAgree(edgeVector: seq<seq<nat>>, netWeight: seq<int>, h: Hypergraph)
    requires |netWeight| == |edgeVector| && h.nets == InitialNets(edgeVector, netWeight)
    requires forall e: nat :: e < |edgeVector| ==> PinsInRange(edgeVector[e], |h.weight|)
    requires h.inc.Shape() && h.inc.chain == Singles(|h.weight|) && h.inc.DegreesOk() && |h.inc.degree| == |h.weight| == |h.enabled|
    requires forall p: nat :: p < |h.weight| ==> h.enabled[p] && h.inc.ListedOnce(p) && h.inc.NetsOf(p) == NetsWith(edgeVector, p)
    ensures h.Agree()
  {
    forall p: nat | p < |h.weight| ensures h.NodeOk(p) {}
    forall p: nat, e: nat | p < |h.weight| ensures h.AgreeAt(p, e) {}
    forall e: nat | e < |h.nets| ensures h.PinsOk(e) {
      assert h.nets[e] == InitialNet(edgeVector[e], netWeight[e]) && PinsInRange(edgeVector[e], |h.weight|);
    }
  }

  // ---------- The nets of v, one after the other ----------

  /** v was contracted into u in the nets `done`. */
  ghost predicate PinsContractedUpTo(edges0: seq<Hyperedge>, edges: seq<Hyperedge>, done: set<nat>, shared: set<nat>, u: nat, v: nat, hashOf: nat -> nat) {
    && |edges| == |edges0| && shared <= done
    && forall e: nat {:trigger PinsContractedAt(edges0, edges, done, shared, u, v, hashOf, e)} ::
         e < |edges| ==> PinsContractedAt(edges0, edges, done, shared, u, v, hashOf, e)
  }

  ghost predicate PinsContractedAt(edges0: seq<Hyperedge>, edges: seq<Hyperedge>, done: set<nat>, shared: set<nat>, u: nat, v: nat, hashOf: nat -> nat, e: nat)
    requires e < |edges| == |edges0|
  {
    && edges0[e].Valid() && edges[e].Valid() && HashOk(edges[e], hashOf)
    && (if e in done then PinContracted(edges0[e], edges[e], u, v, e in shared) else edges[e] == edges0[e])
  }

  lemma PinsContractedStart(edges: seq<Hyperedge>, u: nat, v: nat, hashOf: nat -> nat)
    requires EdgesValid(edges) && HashesOk(edges, hashOf)
    ensures PinsContractedUpTo(edges, edges, {}, {}, u, v, hashOf)
  {
    forall e: nat | e < |edges| ensures PinsContractedAt(edges, edges, {}, {}, u, v, hashOf, e) {
      assert EdgeValid(edges, e) && EdgeHashOk(edges, hashOf, e);
    }
  }

  lemma PinsContractedStep(edges0: seq<Hyperedge>, edges: seq<Hyperedge>, done: set<nat>, shared: set<nat>, u: nat, v: nat, hashOf: nat -> nat,
                           e: nat, edge: Hyperedge, s: bool)
    requires PinsContractedUpTo(edges0, edges, done, shared, u, v, hashOf) && e < |edges| && e !in done
    requires edges[e].Valid() && PinContracted(edges[e], edge, u, v, s) && HashOk(edge, hashOf)
    ensures PinsContractedUpTo(edges0, edges[e := edge], done + {e}, if s then shared + {e} else shared, u, v, hashOf)
  {
    var edges', done', shared' := edges[e := edge], done + {e}, if s then shared + {e} else shared;
    assert PinsContractedAt(edges0, edges, done, shared, u, v, hashOf, e);
    forall x: nat | x < |edges| ensures PinsContractedAt(edges0, edges', done', shared', u, v, hashOf, x) {
      assert PinsContractedAt(edges0, edges, done, shared, u, v, hashOf, x);
    }
  }

  lemma NextToContract(edges0: seq<Hyperedge>, edges: seq<Hyperedge>, done: set<nat>, shared: set<nat>, u: nat, v: nat, hashOf: nat -> nat,
                       nets: seq<nat>, netsOfV: set<nat>, e: nat)
    requires PinsContractedUpTo(edges0, edges, done, shared, u, v, hashOf) && HavePin(NetsOf(edges0), netsOfV, u, v)
    requires Reports(nets, netsOfV) && e in nets && e !in done
    ensures e < |edges| && e in netsOfV && edges[e].Valid() && v in edges[e].Pins() && u !in edges[e].Removed() && HashOk(edges[e], hashOf)
  {
    assert ReportedAt(nets, netsOfV, e);
    assert HasPin(NetsOf(edges0), u, v, e) && PinsContractedAt(edges0, edges, done, shared, u, v, hashOf, e);
  }

  lemma PinsContractedEnd(edges0: seq<Hyperedge>, edges: seq<Hyperedge>, done: set<nat>, shared: set<nat>, u: nat, v: nat, hashOf: nat -> nat)
    requires PinsContractedUpTo(edges0, edges, done, shared, u, v, hashOf)
    ensures EdgesValid(edges) && HashesOk(edges, hashOf)
    ensures NetsOf(edges) == ContractedNets(NetsOf(edges0), done, u, v)
    ensures forall e: nat :: e < |edges| && e in done ==> (e in shared <==> u in NetsOf(edges0)[e].pins)
  {
    forall e: nat | e < |edges| ensures EdgeValid(edges, e) {
      assert PinsContractedAt(edges0, edges, done, shared, u, v, hashOf, e);
    }
    forall e: nat | e < |edges|
      ensures EdgeHashOk(edges, hashOf, e) && NetsOf(edges)[e] == ContractedNets(NetsOf(edges0), done, u, v)[e]
      ensures e in done ==> (e in shared <==> u in NetsOf(edges0)[e].pins)
    {
      assert PinsContractedAt(edges0, edges, done, shared, u, v, hashOf, e);
    }
  }

  class DynamicHypergraph {
    var edges: seq<Hyperedge>
    var nodeWeight: seq<int>
    var nodeEnabled: seq<bool>
    var batchIndex: seq<nat>
    var version: int
    const incidentNets: IncidentNetArray

    /** The hypergraph with the given nets, all of them and all nodes enabled. */
    constructor (edgeVector: seq<seq<nat>>, netWeight: seq<int>, nodeWeight: seq<int>, hashOf: nat -> nat)
      requires |netWeight| == |edgeVector|
      requires forall e: nat :: e < |edgeVector| ==> PinsInRange(edgeVector[e], |nodeWeight|)
      ensures Valid() && fresh(incidentNets) && ListsCurrent(incidentNets.lists) && HashesOk(edges, hashOf)
      ensures NetsOf(edges) == InitialNets(edgeVector, netWeight) && this.nodeWeight == nodeWeight && version == 0
      ensures nodeEnabled == seq(|nodeWeight|, v => true)
      ensures |edges| == |edgeVector|
      ensures forall e: nat :: e < |edges| ==> edges[e].pins == edgeVector[e] && edges[e].size == |edgeVector[e]| && edges[e].weight == netWeight[e] && edges[e].enabled
    {
      var numNodes := |nodeWeight|;
      var nets := new IncidentNetArray(numNodes, edgeVector);
      edges := seq(|edgeVector|, e requires 0 <= e < |edgeVector| => NewHyperedge(edgeVector[e], netWeight[e], hashOf));
      this.nodeWeight, nodeEnabled, batchIndex := nodeWeight, seq(numNodes, v => true), seq(numNodes, v => numNodes);
      version := 0;
      incidentNets := nets;
      new;
      NewEdges(edgeVector, netWeight, edges, hashOf);
      NewAgree(edgeVector, netWeight, H());
    }

    ghost function H(): Hypergraph
      reads this, incidentNets
    {
      Hypergraph(NetsOf(edges), nodeWeight, nodeEnabled, incidentNets.A())
    }

    /** Both representations are well formed on their own. */
    ghost predicate Sound()
      reads this, incidentNets
    {
      incidentNets.Valid() && EdgesValid(edges) && |batchIndex| == |nodeEnabled|
    }

    ghost predicate Valid()
      reads this, incidentNets
    {
      Sound() && H().Agree()
    }

    /** Contracts v into u in all nets of v; the result are the nets that both have in common. */
    method ContractHyperedges(u: nat, v: nat, nets: seq<nat>, ghost netsOfV: set<nat>, hashOf: nat -> nat) returns (shared: set<nat>)
      requires EdgesValid(edges) && HashesOk(edges, hashOf) && u != v && Reports(nets, netsOfV) && |nets| == |netsOfV|
      requires HavePin(NetsOf(edges), netsOfV, u, v)
      modifies `edges
      ensures EdgesValid(edges) && HashesOk(edges, hashOf) && NetsOf(edges) == ContractedNets(NetsOf(old(edges)), netsOfV, u, v)
      ensures shared <= netsOfV
      ensures forall e: nat :: e in netsOfV && e < |old(edges)| ==> (e in shared <==> u in NetsOf(old(edges))[e].pins)
    {
      hide EdgesValid, HashesOk, PinsContractedUpTo, PinContracted, HavePin, ContractedNets, NetsOf, HashOk;
      ghost var edges0 := edges;
      ghost var done: set<nat> := {};
      shared := {};
      PinsContractedStart(edges, u, v, hashOf);
      ListedWithoutRepetition(nets, netsOfV);
      for i := 0 to |nets|
        invariant PinsContractedUpTo(edges0, edges, done, shared, u, v, hashOf)
        invariant done <= netsOfV && shared <= netsOfV && forall k :: 0 <= k < |nets| ==> (nets[k] in done <==> k < i)
      {
        var e := nets[i];
        NextToContract(edges0, edges, done, shared, u, v, hashOf, nets, netsOfV, e);
        var edge, s := ContractPin(edges[e], u, v, hashOf);
        PinsContractedStep(edges0, edges, done, shared, u, v, hashOf, e, edge, s);
        edges := edges[e := edge];
        if s {
          shared := shared + {e};
        }
        done := done + {e};
      }
      AllReported(nets, netsOfV, done);
      PinsContractedEnd(edges0, edges, done, shared, u, v, hashOf);
    }

    /** Contracts v into u in the pin lists and then in the incident-net array. */
    method ContractBoth(u: nat, v: nat, nets: seq<nat>, ghost inc: Incidence, hashOf: nat -> nat)
      requires EdgesValid(edges) && HashesOk(edges, hashOf) && incidentNets.Valid() && ListsCurrent(incidentNets.lists)
      requires incidentNets.A() == inc && IncidentNets.CanContract(inc, u, v)
      requires Reports(nets, inc.NetsOf(v)) && |nets| == |inc.NetsOf(v)| && NetsAgree(NetsOf(edges), inc, u, v)
      modifies `edges, incidentNets
      ensures EdgesValid(edges) && HashesOk(edges, hashOf) && incidentNets.Valid() && ListsCurrent(incidentNets.lists)
      ensures NetsOf(edges) == ContractedNets(NetsOf(old(edges)), inc.NetsOf(v), u, v)
      ensures incidentNets.A() == IncidentNets.Contracted(inc, u, v, inc.NetsOf(u) * inc.NetsOf(v))
    {
      ghost var before := NetsOf(edges);
      forall e: nat | e in inc.NetsOf(v) ensures HasPin(before, u, v, e) {
        assert NetAgrees(before, inc, u, v, e);
      }
      var shared := ContractHyperedges(u, v, nets, inc.NetsOf(v), hashOf);
      SharedNets(before, inc, u, v, shared);
      incidentNets.Contract(u, v, shared);
    }

    method JoinNodes(u: nat, v: nat)
      requires u < |nodeWeight| == |nodeEnabled| && v < |nodeWeight|
      modifies `nodeWeight, `nodeEnabled
      ensures nodeWeight == old(nodeWeight[u := nodeWeight[u] + nodeWeight[v]]) && nodeEnabled == old(nodeEnabled[v := false])
    {
      nodeWeight := nodeWeight[u := nodeWeight[u] + nodeWeight[v]];
      nodeEnabled := nodeEnabled[v := false];
    }

    /** Contracts v into u. */
    method Contract(u: nat, v: nat, hashOf: nat -> nat)
      requires Valid() && ListsCurrent(incidentNets.lists) && Hypergraphs.CanContract(H(), u, v) && HashesOk(edges, hashOf)
      modifies this, incidentNets
      ensures Valid() && ListsCurrent(incidentNets.lists) && HashesOk(edges, hashOf)
      ensures H() == old(Hypergraphs.Contracted(H(), u, v)) && batchIndex == old(batchIndex) && version == old(version)
    {
      hide LevelsOf, NetsIn, Entries;
      ghost var h := H();
      ContractReady(h, u, v);
      hide Hypergraph.Agree, NetsAgree, IncidentNetArray.Valid, EdgesValid, HashesOk, Hypergraphs.CanContract, IncidentNets.Contracted;
      JoinNodes(u, v);
      var nets := incidentNets.IncidentEdges(v);
      ContractBoth(u, v, nets, h.inc, hashOf);
      ContractedIs(h, u, v, NetsOf(edges), nodeWeight, nodeEnabled, incidentNets.A());
    }

    // ---------- Uncontraction ----------

    /** Writes the index of every batch to its partners: batches count up from version to version. */
    method StoreBatchIndices(versions: seq<seq<seq<Memento>>>)
      requires OneVersionEach(versions) && forall i :: 0 <= i < |versions| ==> OneBatchEach(versions[i]) && PartnersBelow(versions[i], |batchIndex|)
      modifies `batchIndex
      ensures |batchIndex| == |old(batchIndex)|
      ensures forall i :: 0 <= i < |versions| ==> Stored(batchIndex, versions[i], Offset(versions, i))
    {
      hide *;
      var i, offset := 0, 0;
      OffsetAt(versions, 0);
      while i < |versions|
        invariant i <= |versions| && offset == Offset(versions, i) && |batchIndex| == |old(batchIndex)|
        invariant forall l :: 0 <= l < i ==> Stored(batchIndex, versions[l], Offset(versions, l))
      {
        StoreVersion(versions, i, offset);
        offset := offset + |versions[i]|;
        i := i + 1;
        OffsetAt(versions, i);
      }
    }

    method StoreVersion(versions: seq<seq<seq<Memento>>>, i: nat, offset: nat)
      requires i < |versions| && OneVersionEach(versions) && OneBatchEach(versions[i]) && offset == Offset(versions, i)
      requires PartnersBelow(versions[i], |batchIndex|)
      requires forall l :: 0 <= l < i ==> Stored(batchIndex, versions[l], Offset(versions, l))
      modifies `batchIndex
      ensures |batchIndex| == |old(batchIndex)|
      ensures forall l :: 0 <= l <= i ==> Stored(batchIndex, versions[l], Offset(versions, l))
    {
      hide *;
      var batches := versions[i];
      NothingStored(batchIndex, batches, offset);
      for j := 0 to |batches|
        invariant |batchIndex| == |old(batchIndex)| && StoredUpTo(batchIndex, batches, offset, j)
        invariant forall l :: 0 <= l < i ==> Stored(batchIndex, versions[l], Offset(versions, l))
      {
        ghost var before := batchIndex;
        BatchBelow(batches, |batchIndex|, j);
        StoreBatch(batches[j], offset + j);
        StoredOneMore(before, batchIndex, batches, offset, j);
        forall l | 0 <= l < i ensures Stored(batchIndex, versions[l], Offset(versions, l)) {
          StoredElsewhere(before, batchIndex, versions, l, i, j, Offset(versions, l), offset + j);
        }
      }
      AllStored(batchIndex, batches, offset);
    }

    method StoreBatch(batch: seq<Memento>, b: nat)
      requires forall v :: v in Partners(batch) ==> v < |batchIndex|
      modifies `batchIndex
      ensures Written(old(batchIndex), batchIndex, batch, b)
    {
      for k := 0 to |batch|
        invariant Written(old(batchIndex), batchIndex, batch[..k], b)
      {
        assert batch[k].v in Partners(batch) by { assert batch[k] in batch; }
        WrittenOneMore(old(batchIndex), batchIndex, batch, b, k);
        batchIndex := batchIndex[batch[k].v := b];
      }
      assert batch[..|batch|] == batch;
    }

    /** Sorts the removed pins of every net by their batches, the largest index first. */
    method SortRemovedPins()
      requires EdgesValid(edges) && forall e: nat, i :: e < |edges| && edges[e].size <= i < |edges[e].pins| ==> edges[e].pins[i] < |batchIndex|
      modifies `edges
      ensures EdgesValid(edges) && NetsOf(edges) == NetsOf(old(edges)) && SortedByBatch(edges, batchIndex)
    {
      var index := batchIndex;
      ghost var edges0 := edges;
      for e := 0 to |edges|
        invariant |edges| == |edges0| && RemovedSortedUpTo(edges0, edges, index, e)
      {
        assert EdgeValid(edges0, e) && RemovedSortedAt(edges0, edges, index, e, e);
        var sorted := Sort(edges[e].pins[edges[e].size..], (x, y) => LaterBatch(index, x, y));
        SortedRemoved(edges[e], sorted, index);
        RemovedSortedStep(edges0, edges, index, e, edges[e].(pins := edges[e].pins[..edges[e].size] + sorted));
        edges := edges[e := edges[e].(pins := edges[e].pins[..edges[e].size] + sorted)];
      }
      RemovedSortedEnd(edges0, edges, batchIndex);
    }

    /** Makes the pins of batch b valid again in net e. */
    method RestoreSize(e: nat, b: nat)
      requires e < |edges| && edges[e].size <= |edges[e].pins| && forall i :: edges[e].size <= i < |edges[e].pins| ==> edges[e].pins[i] < |batchIndex|
      modifies `edges
      ensures edges == old(var edge := edges[e]; edges[e := edge.(size := edge.size + InBatch(edge.Removed(), batchIndex, b))])
    {
      var edge, restored := RestoreSizeForBatch(edges[e], batchIndex, b);
      edges := edges[e := edge];
    }

    /** Does so in all nets that u and v share, unless another contraction of the batch did it before. */
    method RestoreSizes(nets: seq<nat>, b: nat, resized: set<nat>, ghost h: Hypergraph, ghost left: seq<Merge>, ghost k: nat) returns (resized': set<nat>)
      requires BatchOk(h, left) && Indexed(h, left, batchIndex, b) && k < |left| && Reports(nets, left[k].back)
      requires EdgesValid(edges) && SortedByBatch(edges, batchIndex) && NetsOf(edges) == NetsLeft(h.nets, left, resized)
      requires forall e :: e in left[k].back ==> e < |edges|
      modifies `edges
      ensures EdgesValid(edges) && SortedByBatch(edges, batchIndex) && NetsOf(edges) == NetsLeft(h.nets, left, resized')
      ensures resized' == resized + left[k].back
    {
      hide BatchOk, Indexed, EdgesValid, SortedByBatch, NetsOf, NetsLeft, InBatch, NetLeft, ByBatch, Hyperedge.Valid, NetAt;
      resized' := resized;
      ghost var done: set<nat> := {};
      for i := 0 to |nets|
        invariant EdgesValid(edges) && SortedByBatch(edges, batchIndex) && NetsOf(edges) == NetsLeft(h.nets, left, resized') && |edges| == |h.nets|
        invariant resized' == resized + done && done <= left[k].back && forall l :: 0 <= l < i ==> nets[l] in done
      {
        var e := nets[i];
        assert ReportedAt(nets, left[k].back, e);
        if e !in resized' {
          ghost var before := edges;
          NetOfBatch(h, left, resized', edges, batchIndex, e);
          NetResized(h, left, k, edges[e], batchIndex, b, e);
          OneMoreResized(h.nets, left, resized', e);
          RestoreSize(e, b);
          EdgeReplaced(before, batchIndex, e, edges[e]);
          resized' := resized' + {e};
        }
        done := done + {e};
      }
      AllReported(nets, left[k].back, done);
    }

    /** Replaces u by v in all nets that only v had. */
    method ReplacePins(u: nat, v: nat, nets: seq<nat>, ghost resized: set<nat>, ghost h: Hypergraph, ghost left: seq<Merge>, ghost k: nat)
      requires BatchOk(h, left) && k < |left| && left[k].u == u && left[k].v == v && left[k].back <= resized
      requires Reports(nets, left[k].stay) && |nets| == |left[k].stay| && forall e :: e in left[k].stay ==> e < |edges|
      requires EdgesValid(edges) && SortedByBatch(edges, batchIndex) && NetsOf(edges) == NetsLeft(h.nets, left, resized)
      modifies `edges
      ensures EdgesValid(edges) && SortedByBatch(edges, batchIndex) && NetsOf(edges) == NetsLeft(h.nets, Removing(left, k), resized)
    {
      ReplacingStarts(h.nets, left, k, resized);
      ListedWithoutRepetition(nets, left[k].stay);
      hide BatchOk, EdgesValid, SortedByBatch, NetsOf, NetsLeft, NetLeftAt, NetsReplaced, ByBatch, Hyperedge.Valid;
      ghost var stay, done: set<nat> := left[k].stay, {};
      for i := 0 to |nets|
        invariant EdgesValid(edges) && SortedByBatch(edges, batchIndex) && NetsOf(edges) == NetsReplaced(h.nets, left, k, resized, done) && |edges| == |h.nets|
        invariant done <= stay && forall l :: 0 <= l < |nets| ==> (nets[l] in done <==> l < i)
      {
        var e := nets[i];
        assert ReportedAt(nets, stay, e);
        PlaceHeld(h, left, k, resized, done, edges, batchIndex, e);
        var edge := ReplacePin(edges[e], u, v);
        ReplacingStep(h.nets, left, k, resized, done, e);
        EdgeReplaced(edges, batchIndex, e, edge);
        edges := edges[e := edge];
        done := done + {e};
      }
      AllReported(nets, stay, done);
      ReplacingEnds(h, left, k, resized);
    }

    /** Enables v and takes its weight from u. */
    method PartNodes(u: nat, v: nat)
      requires u < |nodeWeight| == |nodeEnabled| && v < |nodeWeight|
      modifies `nodeWeight, `nodeEnabled
      ensures nodeWeight == old(nodeWeight[u := nodeWeight[u] - nodeWeight[v]]) && nodeEnabled == old(nodeEnabled[v := true])
    {
      nodeEnabled := nodeEnabled[v := true];
      nodeWeight := nodeWeight[u := nodeWeight[u] - nodeWeight[v]];
    }

    /** Undoes one contraction of a batch. */
    method UncontractOne(u: nat, v: nat, b: nat, resized: set<nat>, ghost h: Hypergraph, ghost left: seq<Merge>, ghost k: nat) returns (resized': set<nat>)
      requires BatchOk(h, left) && Indexed(h, left, batchIndex, b) && k < |left| && left[k].u == u && left[k].v == v && StaysInRange(h, left)
      requires Sound() && SortedByBatch(edges, batchIndex) && H() == BatchState(h, left, resized) && |incidentNets.lists| <= INVALID
      modifies `edges, `nodeWeight, `nodeEnabled, incidentNets
      ensures BatchOk(h, Removing(left, k))
      ensures Sound() && SortedByBatch(edges, batchIndex) && H() == BatchState(h, Removing(left, k), resized') && |incidentNets.lists| <= INVALID
    {
      hide BatchOk, Indexed, EdgesValid, SortedByBatch, NetsOf, NetsLeft, WeightsLeft, FlagsLeft, JoinedAll, CanJoinAll, IncidentNetArray.Valid,
           IncidentNets.CanUncontract, IncidentNets.Uncontracted, NetsIn, NetsReturned, Entries, LevelsOf, Removing, MergeOk, Independent, NodesFit, StaysInRange;
      MergeInRange(h, left, k);
      BatchShrinks(h, left, k);
      BatchParts(h, Removing(left, k));
      NodeReturns(h.weight, h.enabled, left, k);
      ghost var pos := UndoInTheMiddle(h.inc, left, k);
      ReportsOf(h.inc, left, k);
      var caseTwo, caseOne := incidentNets.Uncontract(u, v, pos);
      resized' := RestoreSizes(caseOne, b, resized, h, left, k);
      ReplacePins(u, v, caseTwo, resized', h, left, k);
      PartNodes(u, v);
    }

    /** Undoes a batch of contractions, in the order in which they are listed: afterwards the hypergraph is the
        one before all of them. They were the last contractions, in any order, and none of their partners is a
        representative in the batch. */
    method Uncontract(batch: seq<Memento>, ghost h: Hypergraph, ghost c: seq<Memento>)
      requires CanContractAll(h, c) && RepsStay(c) && H() == ContractedAll(h, c) && SameMementos(batch, c) && batch != []
      requires Sound() && |incidentNets.lists| <= INVALID && SortedByBatch(edges, batchIndex)
      requires batch[0].v < |batchIndex| && BatchIndexed(h.nets, batch, batchIndex, batchIndex[batch[0].v])
      modifies this, incidentNets
      ensures Sound() && H() == h && |incidentNets.lists| <= INVALID && SortedByBatch(edges, batchIndex)
      ensures batchIndex == old(batchIndex) && version == old(version)
    {
      hide BatchOk, BatchState, CanContractAll, ContractedAll, EdgesValid, SortedByBatch, NetsOf, IncidentNetArray.Valid, Indexed, LevelsOf, ToDo, StaysInRange,
           Independent, RepsStay, BatchIndexed, NodesFit, CanJoinAll, NoPartnerTwice, Removing;
      ghost var left := MergesOf(h, c);
      SequenceIsBatch(h, c);
      AllToDo(h, batch, c);
      assert NoPartnerTwice(batch);
      hide SameMementos;
      MergesIndexed(h, batch, c, batchIndex, batchIndex[batch[0].v]);
      BatchParts(h, left);
      var b := batchIndex[batch[0].v];
      var resized: set<nat> := {};
      for i := 0 to |batch|
        invariant BatchOk(h, left) && Indexed(h, left, batchIndex, b) && ToDo(batch, i, left) && Independent(left) && StaysInRange(h, left)
        invariant CanJoinAll(h.inc, left) && NodesFit(h.weight, h.enabled, left)
        invariant Sound() && SortedByBatch(edges, batchIndex) && H() == BatchState(h, left, resized) && |incidentNets.lists| <= INVALID
        invariant batchIndex == old(batchIndex) && version == old(version)
      {
        ghost var k := NextToDo(batch, i, left);
        IndexedRemoving(h, left, k, batchIndex, b);
        resized := UncontractOne(batch[i].u, batch[i].v, b, resized, h, left, k);
        left := Removing(left, k);
        BatchParts(h, left);
      }
      NothingToDo(batch, left);
      BatchDone(h, resized);
    }

    // ---------- Removing single-pin and parallel nets ----------

    /** Sorts the pins of net k and puts it into its bucket, or disables it if it has a single pin. */
    method PrepareNet(k: nat, buckets: seq<seq<NetInformation>>, list: seq<ParallelHyperedge>, flags: set<nat>, bucketOf: nat -> nat, hashOf: nat -> nat,
                      ghost nets: seq<Net>, ghost hashes: seq<nat>)
      returns (buckets': seq<seq<NetInformation>>, list': seq<ParallelHyperedge>, flags': set<nat>)
      requires k < |edges| && forall x: nat :: bucketOf(x) < |buckets|
      requires Prepared(edges, nets, hashes, buckets, list, flags, bucketOf, hashOf, k)
      modifies `edges
      ensures |buckets'| == |buckets| && |edges| == |old(edges)|
      ensures Prepared(edges, nets, hashes, buckets', list', flags', bucketOf, hashOf, k + 1)
    {
      hide StateOf, BucketsOk, ListOf, HashOk;
      buckets', list', flags' := buckets, list, flags;
      NotYetPrepared(edges, nets, hashes, flags, {}, k, k, hashOf);
      if edges[k].enabled {
        if edges[k].size > 1 {
          var edge := SortPins(edges[k], hashOf);
          var bucket := bucketOf(edge.hash);
          SortedNet(edges, nets, hashes, buckets, list, flags, bucketOf, hashOf, k, edge);
          buckets' := buckets[bucket := buckets[bucket] + [NetInformation(k, edge.hash, edge.size)]];
          edges := edges[k := edge];
        } else {
          DroppedNet(edges, nets, hashes, buckets, list, flags, bucketOf, hashOf, k);
          edges := edges[k := edges[k].(enabled := false)];
          flags' := flags + {k};
          list' := list + [ParallelHyperedge(k, INVALID)];
        }
      } else {
        DisabledNet(edges, nets, hashes, buckets, list, flags, bucketOf, hashOf, k);
      }
    }

    method PrepareNets(numBuckets: nat, bucketOf: nat -> nat, hashOf: nat -> nat)
      returns (buckets: seq<seq<NetInformation>>, list: seq<ParallelHyperedge>, flags: set<nat>)
      requires EdgesValid(edges) && HashesOk(edges, hashOf) && forall x: nat :: bucketOf(x) < numBuckets
      modifies `edges
      ensures |buckets| == numBuckets && |edges| == |old(edges)|
      ensures Prepared(edges, NetsOf(old(edges)), Hashes(old(edges)), buckets, list, flags, bucketOf, hashOf, |edges|)
    {
      ghost var nets, hashes := NetsOf(edges), Hashes(edges);
      buckets, list, flags := seq(numBuckets, b => []), [], {};
      NothingPrepared(edges, buckets, bucketOf, hashOf);
      hide Prepared, NetsOf, Hashes;
      for k := 0 to |edges|
        invariant |buckets| == numBuckets && |edges| == |old(edges)|
        invariant Prepared(edges, nets, hashes, buckets, list, flags, bucketOf, hashOf, k)
      {
        buckets, list, flags := PrepareNet(k, buckets, list, flags, bucketOf, hashOf, nets, hashes);
      }
    }

    /** Compares the nets at positions i and j of a sorted bucket, and merges the second into the first if
        they have the same pins. */
    method CompareNets(s: seq<NetInformation>, i: nat, j: nat, lhsWeight: int, valid: seq<bool>, list: seq<ParallelHyperedge>, flags: set<nat>, hashOf: nat -> nat,
                       ghost nets: seq<Net>, ghost hashes: seq<nat>, ghost gone0: set<nat>, ghost heavy: set<nat>, ghost heavy0: set<nat>)
      returns (parallel: bool, lhsWeight': int, valid': seq<bool>, list': seq<ParallelHyperedge>, flags': set<nat>)
      requires j < |s| && Comparing(edges, nets, hashes, s, valid, list, gone0, heavy0, flags, heavy, lhsWeight, i, j, hashOf)
      modifies `edges
      ensures Comparing(edges, nets, hashes, s, valid', list', gone0, heavy0, flags', heavy, lhsWeight', i, j + 1, hashOf)
      ensures !parallel ==> edges == old(edges) && lhsWeight' == lhsWeight && valid' == valid && list' == list && flags' == flags
    {
      ghost var w := lhsWeight;
      PairFacts(edges, nets, hashes, s, valid, list, gone0, heavy0, flags, heavy, w, i, j, hashOf);
      assert i < |s| && |valid| == |s|;
      hide Comparing;
      var lhs, rhs := s[i].he, s[j].he;
      parallel, lhsWeight', valid', list', flags' := false, lhsWeight, valid, list, flags;
      if valid[j] && s[i].hash == s[j].hash {
        parallel := AreParallel(edges[lhs], edges[rhs]);
      }
      if parallel {
        MergeStep(edges, nets, hashes, s, valid, list, gone0, heavy0, flags, heavy, w, i, j, hashOf);
        lhsWeight' := lhsWeight + edges[rhs].weight;
        edges := edges[rhs := edges[rhs].(enabled := false)];
        flags' := flags + {rhs};
        valid' := valid[j := false];
        list' := list + [ParallelHyperedge(rhs, lhs)];
      } else {
        PassStep(edges, nets, hashes, s, valid, list, gone0, heavy0, flags, heavy, w, i, j, hashOf);
      }
    }

    /** Merges all nets parallel to the one at position i into it. */
    method MergeParallel(s: seq<NetInformation>, i: nat, valid: seq<bool>, list: seq<ParallelHyperedge>, flags: set<nat>, hashOf: nat -> nat,
                         ghost nets: seq<Net>, ghost hashes: seq<nat>, ghost gone0: set<nat>, ghost heavy: set<nat>, ghost heavy0: set<nat>)
      returns (valid': seq<bool>, list': seq<ParallelHyperedge>, flags': set<nat>)
      requires i < |s| == |valid| && valid[i] && SearchOrder(nets, hashes, s) && Searching(nets, s, valid, gone0, heavy0, flags, heavy, i, 0)
      requires StateOf(edges, nets, hashes, flags, heavy, |nets|, hashOf) && ListOf(nets, list, flags)
      modifies `edges
      ensures StateOf(edges, nets, hashes, flags', heavy + {s[i].he}, |nets|, hashOf) && ListOf(nets, list', flags')
      ensures Searching(nets, s, valid', gone0, heavy0, flags', heavy + {s[i].he}, i + 1, 0)
    {
      ComparingStarts(edges, nets, hashes, s, valid, list, gone0, heavy0, flags, heavy, i, hashOf);
      hide SearchOrder, Searching, StateOf, ListOf, NewAt, MergedUpTo, ClassWeight;
      valid', list', flags' := valid, list, flags;
      var lhs := s[i].he;
      var lhsWeight := edges[lhs].weight;
      var j := i + 1;
      while j < |s|
        invariant Comparing(edges, nets, hashes, s, valid', list', gone0, heavy0, flags', heavy, lhsWeight, i, j, hashOf)
      {
        var parallel;
        parallel, lhsWeight, valid', list', flags' := CompareNets(s, i, j, lhsWeight, valid', list', flags', hashOf, nets, hashes, gone0, heavy, heavy0);
        if !parallel && s[i].hash != s[j].hash {
          break;
        }
        j := j + 1;
      }
      ComparingEnds(edges, nets, hashes, s, valid', list', gone0, heavy0, flags', heavy, lhsWeight, i, j, hashOf);
      edges := edges[lhs := edges[lhs].(weight := lhsWeight)];
    }

    /** Sorts a bucket and merges the parallel nets in it. */
    method SearchBucket(bucket: seq<NetInformation>, list: seq<ParallelHyperedge>, flags: set<nat>, hashOf: nat -> nat,
                        ghost nets: seq<Net>, ghost hashes: seq<nat>, ghost heavy: set<nat>)
      returns (list': seq<ParallelHyperedge>, flags': set<nat>, ghost heavy': set<nat>)
      requires BucketClosed(nets, hashes, bucket) && Untouched(bucket, flags, heavy)
      requires StateOf(edges, nets, hashes, flags, heavy, |nets|, hashOf) && ListOf(nets, list, flags)
      modifies `edges
      ensures StateOf(edges, nets, hashes, flags', heavy', |nets|, hashOf) && ListOf(nets, list', flags')
      ensures BucketSearched(nets, bucket, flags, heavy, flags', heavy')
    {
      BeforeIsOrder();
      var s := Sort(bucket, Before);
      var valid := seq(|s|, k => true);
      SearchReady(nets, hashes, bucket, s, valid, flags, heavy);
      hide StateOf, ListOf, BucketClosed, Untouched, SearchOrder, BucketSearched, Sorted, IsOrder;
      list', flags', heavy' := list, flags, heavy;
      for i := 0 to |s|
        invariant |valid| == |s| && Searching(nets, s, valid, flags, heavy, flags', heavy', i, 0)
        invariant StateOf(edges, nets, hashes, flags', heavy', |nets|, hashOf) && ListOf(nets, list', flags')
      {
        if valid[i] {
          valid, list', flags' := MergeParallel(s, i, valid, list', flags', hashOf, nets, hashes, flags, heavy', heavy);
          heavy' := heavy' + {s[i].he};
        } else {
          SkipInvalid(nets, hashes, s, valid, flags, heavy, flags', heavy', i);
        }
      }
      SearchIsDone(nets, hashes, bucket, s, valid, flags, heavy, flags', heavy');
    }

    method SearchBuckets(buckets: seq<seq<NetInformation>>, list: seq<ParallelHyperedge>, flags: set<nat>, bucketOf: nat -> nat, hashOf: nat -> nat,
                         ghost nets: seq<Net>, ghost hashes: seq<nat>)
      returns (list': seq<ParallelHyperedge>, flags': set<nat>)
      requires Prepared(edges, nets, hashes, buckets, list, flags, bucketOf, hashOf, |nets|) && forall x: nat :: bucketOf(x) < |buckets|
      modifies `edges
      ensures EdgesValid(edges) && HashesOk(edges, hashOf) && NetsOf(edges) == Simplified(nets)
      ensures flags' == Flags(nets) && RemovalList(nets, list')
    {
      PreparationSearched(edges, nets, hashes, buckets, list, flags, bucketOf, hashOf);
      assert StateOf(edges, nets, hashes, flags, {}, |nets|, hashOf) && BucketsOk(nets, hashes, buckets, bucketOf, |nets|) && ListOf(nets, list, flags);
      hide StateOf, BucketsOk, ListOf, Prepared, SearchedUpTo, BucketClosed, Untouched, BucketSearched, RemovalList, Simplified;
      list', flags' := list, flags;
      ghost var heavy: set<nat> := {};
      for b := 0 to |buckets|
        invariant StateOf(edges, nets, hashes, flags', heavy, |nets|, hashOf) && ListOf(nets, list', flags')
        invariant SearchedUpTo(nets, hashes, flags', heavy, bucketOf, b)
      {
        BucketReady(edges, nets, hashes, buckets, flags', heavy, bucketOf, hashOf, b);
        ghost var gone, heavy1 := flags', heavy;
        list', flags', heavy := SearchBucket(buckets[b], list', flags', hashOf, nets, hashes, heavy);
        NextBucket(nets, hashes, buckets, gone, heavy1, flags', heavy, bucketOf, b);
      }
      AllSearched(edges, nets, hashes, list', flags', heavy, bucketOf, hashOf, |buckets|);
    }

    method RemoveFromNodes(flags: set<nat>)
      requires incidentNets.Valid() && ListsCurrent(incidentNets.lists) && nodeEnabled == incidentNets.A().chain.isHead
      modifies incidentNets
      ensures incidentNets.Valid() && ListsCurrent(incidentNets.lists)
      ensures incidentNets.A() == old(Between(incidentNets.A(), flags, 0, |nodeEnabled|))
    {
      ghost var a := incidentNets.A();
      NothingBetween(a, flags, 0);
      assert a.Shape() && |a.degree| == |nodeEnabled|;
      hide Between, Incidence.Shape, IncidentNetArray.Valid, ListsCurrent, LevelsOf;
      for u := 0 to |nodeEnabled|
        invariant incidentNets.Valid() && ListsCurrent(incidentNets.lists) && incidentNets.A() == Between(a, flags, 0, u)
      {
        RemoveNext(a, flags, u);
        if nodeEnabled[u] {
          incidentNets.RemoveIncidentNets(u, flags);
        }
      }
    }

    /** Disables all nets with a single pin and all but one of the nets with the same pins, which gets
        their weight, and reports them. */
    method RemoveSinglePinAndParallelHyperedges(numBuckets: nat, bucketOf: nat -> nat, hashOf: nat -> nat) returns (removed: seq<ParallelHyperedge>)
      requires Valid() && ListsCurrent(incidentNets.lists) && HashesOk(edges, hashOf) && forall x: nat :: bucketOf(x) < numBuckets
      modifies this, incidentNets
      ensures Valid() && ListsCurrent(incidentNets.lists) && HashesOk(edges, hashOf)
      ensures H() == old(SimplifiedGraph(H())) && RemovalList(NetsOf(old(edges)), removed)
      ensures batchIndex == old(batchIndex) && version == old(version) + 1
    {
      ghost var h, hashes := H(), Hashes(edges);
      NodesAreHeads(h);
      SimplifiedAgree(h);
      hide Hypergraph.Agree, Prepared, Simplified, Between, RemovalList, EdgesValid, HashesOk, IncidentNetArray.Valid, LevelsOf, NetsOf, Hashes, Flags;
      var buckets, list, flags := PrepareNets(numBuckets, bucketOf, hashOf);
      removed, flags := SearchBuckets(buckets, list, flags, bucketOf, hashOf, h.nets, hashes);
      RemoveFromNodes(flags);
      version := version + 1;
    }

    // ---------- Restoring them ----------

    /** Enables a removed net and takes its weight from the net that got it. */
    method RestoreNet(a: ParallelHyperedge)
      requires EdgesValid(edges) && a.removed < |edges| <= INVALID && (a.representative == INVALID || a.representative < |edges|)
      modifies `edges
      ensures EdgesValid(edges) && NetsOf(edges) == RestoreOne(NetsOf(old(edges)), a) && SamePinLists(old(edges), edges)
    {
      NetEnabled(edges, a.removed);
      edges := edges[a.removed := edges[a.removed].(enabled := true)];
      if a.representative != INVALID {
        var rep := a.representative;
        NetReweighted(edges, rep, edges[rep].weight - edges[a.removed].weight);
        edges := edges[rep := edges[rep].(weight := edges[rep].weight - edges[a.removed].weight)];
      }
    }

    method RestoreNets(removed: seq<ParallelHyperedge>, ghost nets: seq<Net>)
      requires EdgesValid(edges) && NetsOf(edges) == Simplified(nets) && RemovalList(nets, removed) && |nets| <= INVALID
      modifies `edges
      ensures EdgesValid(edges) && NetsOf(edges) == nets && SamePinLists(old(edges), edges)
    {
      RestoringStarts(nets);
      assert SamePinLists(edges, edges);
      hide EdgesValid, Simplified, Restoring, NetsOf, SamePinLists;
      assert RemovedIds(removed[..0]) == {};
      for i := 0 to |removed|
        invariant EdgesValid(edges) && NetsOf(edges) == Restoring(nets, RemovedIds(removed[..i])) && SamePinLists(old(edges), edges)
      {
        ghost var back, before := RemovedIds(removed[..i]), NetsOf(edges);
        NextToRestore(nets, removed, i);
        RestoringStep(nets, back, removed[i]);
        assert !before[removed[i].removed].enabled;
        ghost var edges1 := edges;
        RestoreNet(removed[i]);
        StillSame(old(edges), edges1, edges);
      }
      assert removed[..|removed|] == removed;
      RestoringEnds(nets, removed);
    }

    method RestoreInNodes(ghost a: Incidence, ghost flags: set<nat>)
      requires incidentNets.Valid() && |incidentNets.lists| <= INVALID && a.Shape() && nodeEnabled == a.chain.isHead
      requires incidentNets.A() == Between(a, flags, 0, |nodeEnabled|)
      modifies incidentNets
      ensures incidentNets.Valid() && incidentNets.A() == a && |incidentNets.lists| <= INVALID
    {
      assert |a.degree| == |nodeEnabled|;
      hide Between, Incidence.Shape, IncidentNetArray.Valid, LevelsOf, NetsIn, NetsReturned;
      for u := 0 to |nodeEnabled|
        invariant incidentNets.Valid() && |incidentNets.lists| <= INVALID && incidentNets.A() == Between(a, flags, u, |nodeEnabled|)
      {
        RestoreNext(a, flags, u);
        if nodeEnabled[u] {
          var caseTwo, caseOne := incidentNets.RestoreIncidentNets(u);
        }
      }
      NothingBetween(a, flags, |nodeEnabled|);
    }

    /** Takes the last removal of single-pin and parallel nets back. */
    method RestoreSinglePinAndParallelNets(removed: seq<ParallelHyperedge>, ghost h: Hypergraph)
      requires h.Agree() && H() == SimplifiedGraph(h) && RemovalList(h.nets, removed)
      requires Sound() && |incidentNets.lists| <= INVALID && |h.nets| <= INVALID
      modifies this, incidentNets
      ensures Sound() && H() == h && batchIndex == old(batchIndex) && version == old(version) - 1
      ensures SamePinLists(old(edges), edges) && |incidentNets.lists| <= INVALID
    {
      NodesAreHeads(h);
      hide Hypergraph.Agree, Simplified, Between, RemovalList, EdgesValid, IncidentNetArray.Valid, LevelsOf, NetsOf, Flags;
      RestoreNets(removed, h.nets);
      RestoreInNodes(h.inc, Flags(h.nets));
      version := version - 1;
    }

    /** Undoes all batches of one version, the last one first. */
    method UncoarsenVersion(batches: seq<seq<Memento>>, ghost offset: nat, ghost start: Hypergraph, ghost order: seq<Memento>)
      requires CanContractAll(start, order) && H() == ContractedAll(start, order) && Scheduled(batches, offset, start.nets, order, batchIndex)
      requires Sound() && |incidentNets.lists| <= INVALID && SortedByBatch(edges, batchIndex)
      modifies this, incidentNets
      ensures Sound() && H() == start && |incidentNets.lists| <= INVALID && SortedByBatch(edges, batchIndex)
      ensures batchIndex == old(batchIndex) && version == old(version)
    {
      hide CanContractAll, ContractedAll, EdgesValid, SortedByBatch, NetsOf, IncidentNetArray.Valid, Scheduled, Remaining, BatchOf, LevelsOf;
      AllRemain(batches, offset, start.nets, order, batchIndex);
      var j := |batches|;
      while j > 0
        invariant 0 <= j <= |batches| && CanContractAll(start, Remaining(order, batchIndex, offset + j))
        invariant H() == ContractedAll(start, Remaining(order, batchIndex, offset + j))
        invariant Sound() && |incidentNets.lists| <= INVALID && SortedByBatch(edges, batchIndex)
        invariant batchIndex == old(batchIndex) && version == old(version)
      {
        j := j - 1;
        BatchHolds(batches, offset, start.nets, order, batchIndex, j);
        LastBatch(start, order, batchIndex, offset + j);
        BatchReady(batches, offset, start.nets, order, batchIndex, j);
        EarlierThanBatch(batches, offset, start, order, batchIndex, j);
        Uncontract(batches[j], ContractedAll(start, Remaining(order, batchIndex, offset + j)), BatchOf(order, batchIndex, offset + j));
      }
      NoneRemain(start, batches, offset, order, batchIndex);
    }

    /** Undoes a whole coarsening, version by version: the hypergraph is the one before the first step. */
    method Uncoarsen(versions: seq<seq<seq<Memento>>>, removals: seq<seq<ParallelHyperedge>>, ghost starts: seq<Hypergraph>, ghost orders: seq<seq<Memento>>)
      requires |versions| == |starts| == |orders| == |removals| + 1
      requires forall i: nat {:trigger VersionOk(versions, starts, orders, batchIndex, i)} :: i < |versions| ==> VersionOk(versions, starts, orders, batchIndex, i)
      requires forall i: nat {:trigger Removal(starts, orders, removals, i)} :: i < |removals| ==> Removal(starts, orders, removals, i)
      requires CanContractAll(starts[|removals|], orders[|removals|]) && H() == ContractedAll(starts[|removals|], orders[|removals|])
      requires Sound() && |incidentNets.lists| <= INVALID && SortedByBatch(edges, batchIndex)
      modifies this, incidentNets
      ensures Sound() && H() == starts[0]
    {
      hide CanContractAll, ContractedAll, EdgesValid, SortedByBatch, NetsOf, IncidentNetArray.Valid, Scheduled, RemovalList, SimplifiedGraph, LevelsOf;
      var i := |removals|;
      assert VersionOk(versions, starts, orders, batchIndex, i);
      UncoarsenVersion(versions[i], Offset(versions, i), starts[i], orders[i]);
      while i > 0
        invariant 0 <= i <= |removals| && H() == starts[i]
        invariant Sound() && |incidentNets.lists| <= INVALID && SortedByBatch(edges, batchIndex) && batchIndex == old(batchIndex)
      {
        i := i - 1;
        assert VersionOk(versions, starts, orders, batchIndex, i) && Removal(starts, orders, removals, i);
        ghost var before := edges;
        RestoreSinglePinAndParallelNets(removals[i], ContractedAll(starts[i], orders[i]));
        StillSorted(before, edges, batchIndex);
        UncoarsenVersion(versions[i], Offset(versions, i), starts[i], orders[i]);
      }
    }
  }

  lemma NodesAreHeads(h: Hypergraph)
    requires h.Agree()
    ensures h.inc.Shape() && h.enabled == h.inc.chain.isHead && |h.enabled| == |h.inc.degree|
  {
    forall p: nat | p < |h.enabled| ensures h.enabled[p] == h.inc.chain.isHead[p] {
      assert h.NodeOk(p);
    }
  }

  lemma NetEnabled(edges: seq<Hyperedge>, e: nat)
    requires EdgesValid(edges) && e < |edges|
    ensures var edges' := edges[e := edges[e].(enabled := true)];
            EdgesValid(edges') && NetsOf(edges') == NetsOf(edges)[e := NetsOf(edges)[e].(enabled := true)]
  {
    NetReplaced(edges, e, edges[e].(enabled := true));
  }

  lemma NetReweighted(edges: seq<Hyperedge>, e: nat, weight: int)
    requires EdgesValid(edges) && e < |edges|
    ensures var edges' := edges[e := edges[e].(weight := weight)];
            EdgesValid(edges') && NetsOf(edges') == NetsOf(edges)[e := NetsOf(edges)[e].(weight := weight)]
  {
    NetReplaced(edges, e, edges[e].(weight := weight));
  }

  lemma NetReplaced(edges: seq<Hyperedge>, e: nat, edge: Hyperedge)
    requires EdgesValid(edges) && e < |edges| && (EdgeValid(edges, e) ==> edge.Valid())
    ensures EdgesValid(edges[e := edge]) && NetsOf(edges[e := edge]) == NetsOf(edges)[e := NetAt(edge)]
    ensures NetsOf(edges)[e] == NetAt(edges[e])
  {
    var edges' := edges[e := edge];
    assert EdgeValid(edges, e);
    forall x: nat | x < |edges| ensures EdgeValid(edges', x) && NetsOf(edges')[x] == NetsOf(edges)[e := NetAt(edge)][x] {
      assert EdgeValid(edges, x);
    }
  }

  lemma NextToRestore(nets: seq<Net>, removed: seq<ParallelHyperedge>, i: nat)
    requires RemovalList(nets, removed) && i < |removed| && |nets| <= INVALID
    ensures EntryOk(nets, removed[i]) && removed[i].removed < |nets| && removed[i].removed !in RemovedIds(removed[..i])
    ensures removed[i].representative == INVALID || removed[i].representative < |nets|
    ensures RemovedIds(removed[..i + 1]) == RemovedIds(removed[..i]) + {removed[i].removed}
  {
    var before, after := removed[..i], removed[..i + 1];
    assert EntryOk(nets, removed[i]);
    forall x: nat ensures x in RemovedIds(after) <==> x in RemovedIds(before) + {removed[i].removed} {
      if x in RemovedIds(before) {
        var k :| 0 <= k < |before| && before[k].removed == x;
        assert after[k].removed == x;
      }
      assert after[i] == removed[i];
    }
  }

  lemma ContractReady(h: Hypergraph, u: nat, v: nat)
    requires Hypergraphs.CanContract(h, u, v)
    ensures NodesInRange(h, u, v) && IncidentNets.CanContract(h.inc, u, v) && NetsAgree(h.nets, h.inc, u, v)
    ensures Entries(h.inc.levels, h.inc.chain.circ[v]) == |h.inc.NetsOf(v)|
    ensures Hypergraphs.Contracted(h, u, v).Agree()
  {
    NodesContractable(h, u, v);
    NetsToContract(h, u, v);
    ContractedAgree(h, u, v);
  }

  lemma ContractedIs(h: Hypergraph, u: nat, v: nat, nets: seq<Net>, weight: seq<int>, enabled: seq<bool>, inc: Incidence)
    requires NodesInRange(h, u, v) && nets == ContractedNets(h.nets, h.inc.NetsOf(v), u, v)
    requires weight == h.weight[u := h.weight[u] + h.weight[v]] && enabled == h.enabled[v := false]
    requires inc == IncidentNets.Contracted(h.inc, u, v, h.inc.NetsOf(u) * h.inc.NetsOf(v))
    ensures Hypergraph(nets, weight, enabled, inc) == Hypergraphs.Contracted(h, u, v)
  {
  }

  /** Of the nets of v, exactly those that are nets of u as well have u as a pin. */
  ghost predicate NetsAgree(nets: seq<Net>, inc: Incidence, u: nat, v: nat)
    requires u < |inc.chain.circ| && v < |inc.chain.circ|
  {
    forall e: nat {:trigger NetAgrees(nets, inc, u, v, e)} :: NetAgrees(nets, inc, u, v, e)
  }

  ghost predicate NetAgrees(nets: seq<Net>, inc: Incidence, u: nat, v: nat, e: nat)
    requires u < |inc.chain.circ| && v < |inc.chain.circ|
  {
    e in inc.NetsOf(v) ==> e < |nets| && v in nets[e].pins && u !in nets[e].removed && (u in nets[e].pins <==> e in inc.NetsOf(u))
  }

  ghost predicate HavePin(nets: seq<Net>, some: set<nat>, u: nat, v: nat) {
    forall e: nat {:trigger HasPin(nets, u, v, e)} :: e in some ==> HasPin(nets, u, v, e)
  }

  /** v is a pin of net e, and u no former one. */
  ghost predicate HasPin(nets: seq<Net>, u: nat, v: nat, e: nat) {
    e < |nets| && v in nets[e].pins && u !in nets[e].removed
  }

  lemma NetsToContract(h: Hypergraph, u: nat, v: nat)
    requires Hypergraphs.CanContract(h, u, v)
    ensures u < |h.inc.chain.circ| && v < |h.inc.chain.circ| && NetsAgree(h.nets, h.inc, u, v)
    ensures Entries(h.inc.levels, h.inc.chain.circ[v]) == |h.inc.NetsOf(v)|
  {
    NodesContractable(h, u, v);
    forall e: nat ensures NetAgrees(h.nets, h.inc, u, v, e) {
      assert h.AgreeAt(u, e) && h.AgreeAt(v, e);
      assert e < |h.nets| ==> h.PinsOk(e);
    }
  }

  lemma SharedNets(nets: seq<Net>, inc: Incidence, u: nat, v: nat, shared: set<nat>)
    requires u < |inc.chain.circ| && v < |inc.chain.circ| && NetsAgree(nets, inc, u, v) && shared <= inc.NetsOf(v)
    requires forall e: nat :: e in inc.NetsOf(v) && e < |nets| ==> (e in shared <==> u in nets[e].pins)
    ensures shared == inc.NetsOf(u) * inc.NetsOf(v)
  {
    forall e: nat ensures e in shared <==> e in inc.NetsOf(u) * inc.NetsOf(v) {
      assert NetAgrees(nets, inc, u, v, e);
    }
  }
}
