/** Undoing batches in the pin lists.

    Which pins of a net come back when one contraction of a batch is undone, and what the batches of a version
    must satisfy so that all of them can be undone. */
module UncontractionSteps {
  import opened Chains
  import opened PinLists
  import opened PinNets
  import opened Hypergraphs
  import opened ParallelNets
  import opened Sorting
  import opened ContractionOrder
  import opened BatchUncontraction

  // ---------- Undoing a batch ----------

  /** The removed pins of every net are sorted by batch. */
  ghost predicate SortedByBatch(edges: seq<Hyperedge>, batchIndex: seq<nat>) {
    forall e: nat {:trigger SortedAt(edges, batchIndex, e)} :: e < |edges| ==> SortedAt(edges, batchIndex, e)
  }

  ghost predicate SortedAt(edges: seq<Hyperedge>, batchIndex: seq<nat>, e: nat)
    requires e < |edges|
  {
    edges[e].size <= |edges[e].pins| && ByBatch(edges[e].Removed(), batchIndex)
  }

  /** Everything left of the batch has index b, and all pins removed before have a smaller one. */
  ghost predicate Indexed(h: Hypergraph, left: seq<Merge>, batchIndex: seq<nat>, b: nat) {
    && (forall s :: s in left ==> s.v < |batchIndex| && batchIndex[s.v] == b)
    && AllEarlier(h.nets, batchIndex, b)
  }

  /** All pins removed so far are of batches below b. */
  ghost predicate AllEarlier(nets: seq<Net>, batchIndex: seq<nat>, b: nat) {
    forall e: nat {:trigger EarlierPins(nets, batchIndex, b, e)} :: e < |nets| ==> EarlierPins(nets, batchIndex, b, e)
  }

  ghost predicate EarlierPins(nets: seq<Net>, batchIndex: seq<nat>, b: nat, e: nat)
    requires e < |nets|
  {
    forall p: nat :: p in nets[e].removed ==> p < |batchIndex| && batchIndex[p] < b
  }

  lemma EdgeReplaced(edges: seq<Hyperedge>, batchIndex: seq<nat>, e: nat, edge: Hyperedge)
    requires EdgesValid(edges) && SortedByBatch(edges, batchIndex) && e < |edges| && edge.Valid() && ByBatch(edge.Removed(), batchIndex)
    ensures EdgesValid(edges[e := edge]) && SortedByBatch(edges[e := edge], batchIndex) && NetsOf(edges[e := edge]) == NetsOf(edges)[e := NetAt(edge)]
  {
    var edges' := edges[e := edge];
    forall x: nat | x < |edges| ensures EdgeValid(edges', x) && SortedAt(edges', batchIndex, x) && NetsOf(edges')[x] == NetsOf(edges)[e := NetAt(edge)][x] {
      assert EdgeValid(edges, x) && SortedAt(edges, batchIndex, x);
    }
  }

  /** The first contraction undone in a net that it shared makes all pins of the batch valid in it. */
  lemma NetResized(h: Hypergraph, left: seq<Merge>, k: nat, edge: Hyperedge, batchIndex: seq<nat>, b: nat, e: nat)
    requires BatchOk(h, left) && Indexed(h, left, batchIndex, b) && k < |left| && e in left[k].back && e < |h.nets|
    requires edge.Valid() && ByBatch(edge.Removed(), batchIndex) && NetAt(edge) == NetLeft(h.nets[e], e, left, false)
    ensures var edge' := edge.(size := edge.size + InBatch(edge.Removed(), batchIndex, b));
            edge'.Valid() && ByBatch(edge'.Removed(), batchIndex) && NetAt(edge') == NetLeft(h.nets[e], e, left, true)
    ensures forall i :: edge.size <= i < |edge.pins| ==> edge.pins[i] < |batchIndex|
  {
    hide BatchOk, Indexed, NetFits, InBatch, ByBatch, NetLeft, BackOf, Hyperedge.Valid, NetAt;
    var n, back := h.nets[e], BackOf(left, e);
    BatchNet(h, left, batchIndex, b, e);
    PinsAllReturn(n, e, left, k);
    PartsOfNet(edge);
    BackIndexed(left, batchIndex, b, e);
    forall p: nat | p in edge.Removed() ensures p < |batchIndex| && batchIndex[p] <= b && (batchIndex[p] == b <==> p in back) {
      assert p in n.removed || p in back;
    }
    BatchRestored(edge, batchIndex, b);
    RemovedSlots(edge, |batchIndex|);
    var edge' := edge.(size := edge.size + InBatch(edge.Removed(), batchIndex, b));
    PartsOfNet(edge');
    assert edge'.Pins() == edge.Pins() + back;
    assert MembersOf(edge'.Removed()) == MembersOf(edge.Removed()) - back;
  }

  lemma PartsOfNet(edge: Hyperedge)
    requires edge.Valid()
    ensures edge.size <= |edge.pins| && NetAt(edge) == Net(edge.Pins(), MembersOf(edge.Removed()), edge.weight, edge.enabled)
  {
  }

  lemma BatchNet(h: Hypergraph, left: seq<Merge>, batchIndex: seq<nat>, b: nat, e: nat)
    requires BatchOk(h, left) && Indexed(h, left, batchIndex, b) && e < |h.nets|
    ensures Independent(left) && NetFits(h.nets[e], e, left)
    ensures forall s :: s in left ==> s.v < |batchIndex| && batchIndex[s.v] == b
    ensures forall p: nat :: p in h.nets[e].removed ==> p < |batchIndex| && batchIndex[p] < b
  {
    assert EarlierPins(h.nets, batchIndex, b, e);
    assert NetFits(h.nets[e], e, left);
  }

  lemma BackIndexed(left: seq<Merge>, batchIndex: seq<nat>, b: nat, e: nat)
    requires forall s :: s in left ==> s.v < |batchIndex| && batchIndex[s.v] == b
    ensures forall p :: p in BackOf(left, e) ==> p < |batchIndex| && batchIndex[p] == b
  {
  }

  lemma RemovedSlots(edge: Hyperedge, n: nat)
    requires edge.size <= |edge.pins| && forall p :: p in edge.Removed() ==> p < n
    ensures forall i :: edge.size <= i < |edge.pins| ==> edge.pins[i] < n
  {
    forall i | edge.size <= i < |edge.pins| ensures edge.pins[i] < n {
      assert edge.pins[i] == edge.Removed()[i - edge.size];
      assert edge.Removed()[i - edge.size] in edge.Removed();
    }
  }

  /** What is known of one net of the batch. */
  lemma NetOfBatch(h: Hypergraph, left: seq<Merge>, resized: set<nat>, edges: seq<Hyperedge>, batchIndex: seq<nat>, e: nat)
    requires EdgesValid(edges) && SortedByBatch(edges, batchIndex) && NetsOf(edges) == NetsLeft(h.nets, left, resized) && e < |edges|
    ensures e < |h.nets| && edges[e].Valid() && ByBatch(edges[e].Removed(), batchIndex) && NetAt(edges[e]) == NetLeft(h.nets[e], e, left, e in resized)
  {
    assert EdgeValid(edges, e) && SortedAt(edges, batchIndex, e);
    assert NetsOf(edges)[e] == NetLeftAt(h.nets, left, resized, e);
  }

  lemma OneMoreResized(nets: seq<Net>, left: seq<Merge>, resized: set<nat>, e: nat)
    requires e < |nets|
    ensures NetsLeft(nets, left, resized + {e}) == NetsLeft(nets, left, resized)[e := NetLeft(nets[e], e, left, true)]
  {
    var a, b := NetsLeft(nets, left, resized + {e}), NetsLeft(nets, left, resized)[e := NetLeft(nets[e], e, left, true)];
    forall x: nat | x < |nets| ensures a[x] == b[x] {
      assert a[x] == NetLeftAt(nets, left, resized + {e}, x) && NetsLeft(nets, left, resized)[x] == NetLeftAt(nets, left, resized, x);
    }
  }

  /** In the nets `done` v has its place back already. */
  ghost function NetsReplaced(nets: seq<Net>, left: seq<Merge>, k: nat, resized: set<nat>, done: set<nat>): (r: seq<Net>)
    requires k < |left|
    ensures |r| == |nets|
  {
    seq(|nets|, e requires 0 <= e < |nets| => NetReplacedAt(nets, left, k, resized, done, e))
  }

  ghost function NetReplacedAt(nets: seq<Net>, left: seq<Merge>, k: nat, resized: set<nat>, done: set<nat>, e: nat): Net
    requires k < |left| && e < |nets|
  {
    if e in done then NetLeftAt(nets, Removing(left, k), resized, e) else NetLeftAt(nets, left, resized, e)
  }

  lemma ReplacingStarts(nets: seq<Net>, left: seq<Merge>, k: nat, resized: set<nat>)
    requires k < |left|
    ensures NetsReplaced(nets, left, k, resized, {}) == NetsLeft(nets, left, resized)
  {
    forall e: nat | e < |nets| ensures NetsReplaced(nets, left, k, resized, {})[e] == NetsLeft(nets, left, resized)[e] {
      assert NetsReplaced(nets, left, k, resized, {})[e] == NetReplacedAt(nets, left, k, resized, {}, e);
      assert NetsLeft(nets, left, resized)[e] == NetLeftAt(nets, left, resized, e);
    }
  }

  lemma ReplacingStep(nets: seq<Net>, left: seq<Merge>, k: nat, resized: set<nat>, done: set<nat>, e: nat)
    requires k < |left| && e < |nets|
    ensures NetsReplaced(nets, left, k, resized, done + {e}) == NetsReplaced(nets, left, k, resized, done)[e := NetLeftAt(nets, Removing(left, k), resized, e)]
  {
    var a, b := NetsReplaced(nets, left, k, resized, done + {e}), NetsReplaced(nets, left, k, resized, done);
    forall x: nat | x < |nets| ensures a[x] == b[e := NetLeftAt(nets, Removing(left, k), resized, e)][x] {
      assert a[x] == NetReplacedAt(nets, left, k, resized, done + {e}, x) && b[x] == NetReplacedAt(nets, left, k, resized, done, x);
    }
  }

  lemma ReplacingEnds(h: Hypergraph, left: seq<Merge>, k: nat, resized: set<nat>)
    requires BatchOk(h, left) && k < |left| && left[k].back <= resized
    ensures NetsReplaced(h.nets, left, k, resized, left[k].stay) == NetsLeft(h.nets, Removing(left, k), resized)
  {
    var a, b := NetsReplaced(h.nets, left, k, resized, left[k].stay), NetsLeft(h.nets, Removing(left, k), resized);
    forall e: nat | e < |h.nets| ensures a[e] == b[e] {
      assert a[e] == NetReplacedAt(h.nets, left, k, resized, left[k].stay, e) && b[e] == NetLeftAt(h.nets, Removing(left, k), resized, e);
      if e !in left[k].stay { OnlyOwnNets(h, left, k, resized, e); }
    }
  }

  /** In a net that v had alone u holds its place. */
  lemma PlaceHeld(h: Hypergraph, left: seq<Merge>, k: nat, resized: set<nat>, done: set<nat>, edges: seq<Hyperedge>, batchIndex: seq<nat>, e: nat)
    requires BatchOk(h, left) && k < |left| && e in left[k].stay && e !in done && e < |edges|
    requires EdgesValid(edges) && SortedByBatch(edges, batchIndex) && NetsOf(edges) == NetsReplaced(h.nets, left, k, resized, done)
    ensures e < |h.nets| && edges[e].Valid() && ByBatch(edges[e].Removed(), batchIndex)
    ensures left[k].u in edges[e].Pins() && left[k].v !in edges[e].Pins() && left[k].v !in edges[e].Removed()
    ensures NetLeftAt(h.nets, Removing(left, k), resized, e) == NetAt(edges[e]).(pins := edges[e].Pins() - {left[k].u} + {left[k].v})
  {
    assert EdgeValid(edges, e) && SortedAt(edges, batchIndex, e);
    assert NetsOf(edges)[e] == NetReplacedAt(h.nets, left, k, resized, done, e);
    assert NetFits(h.nets[e], e, left);
    PinTakesPlace(h.nets[e], e, left, k, e in resized);
  }

  // ---------- Which contraction comes next ----------

  /** The same contractions, in any order and each once. */
  ghost predicate SameMementos(batch: seq<Memento>, c: seq<Memento>) {
    (forall m :: m in batch <==> m in c) && NoPartnerTwice(batch)
  }

  ghost predicate NoPartnerTwice(batch: seq<Memento>) {
    forall i, j :: 0 <= i < j < |batch| ==> batch[i].v != batch[j].v
  }

  ghost predicate LeftHas(left: seq<Merge>, m: Memento) {
    exists k :: 0 <= k < |left| && left[k].u == m.u && left[k].v == m.v
  }

  /** Exactly the contractions from position i on are left. */
  ghost predicate ToDo(batch: seq<Memento>, i: nat, left: seq<Merge>) {
    i <= |batch| && forall m {:trigger LeftHas(left, m)} :: LeftHas(left, m) <==> m in batch[i..]
  }

  lemma AllToDo(h: Hypergraph, batch: seq<Memento>, c: seq<Memento>)
    requires CanContractAll(h, c) && SameMementos(batch, c)
    ensures ToDo(batch, 0, MergesOf(h, c))
  {
    var left := MergesOf(h, c);
    assert batch[0..] == batch;
    forall m ensures LeftHas(left, m) <==> m in c {
      if m in c {
        var i :| 0 <= i < |c| && c[i] == m;
        assert left[i].u == m.u;
      }
      if LeftHas(left, m) {
        var k :| 0 <= k < |left| && left[k].u == m.u && left[k].v == m.v;
        assert c[k] == m;
      }
    }
  }

  lemma NextToDo(batch: seq<Memento>, i: nat, left: seq<Merge>) returns (k: nat)
    requires ToDo(batch, i, left) && i < |batch| && Independent(left) && NoPartnerTwice(batch)
    ensures k < |left| && batch[i].u == left[k].u && batch[i].v == left[k].v && ToDo(batch, i + 1, Removing(left, k))
  {
    assert batch[i..][0] == batch[i];
    assert LeftHas(left, batch[i]);
    k :| 0 <= k < |left| && left[k].u == batch[i].u && left[k].v == batch[i].v;
    forall m ensures LeftHas(Removing(left, k), m) <==> m in batch[i + 1..] {
      HasAfter(left, k, m);
      LaterMemento(batch, i, m);
    }
  }

  lemma HasAfter(left: seq<Merge>, k: nat, m: Memento)
    requires Independent(left) && k < |left|
    ensures LeftHas(Removing(left, k), m) <==> LeftHas(left, m) && m.v != left[k].v
  {
    var r := Removing(left, k);
    if LeftHas(r, m) {
      var i :| 0 <= i < |r| && r[i].u == m.u && r[i].v == m.v;
      assert r[i] == left[if i < k then i else i + 1];
    }
    if LeftHas(left, m) && m.v != left[k].v {
      var i :| 0 <= i < |left| && left[i].u == m.u && left[i].v == m.v;
      assert r[if i < k then i else i - 1] == left[i];
    }
  }

  lemma LaterMemento(batch: seq<Memento>, i: nat, m: Memento)
    requires i < |batch| && NoPartnerTwice(batch)
    ensures m in batch[i + 1..] <==> m in batch[i..] && m.v != batch[i].v
  {
    assert batch[i..] == [batch[i]] + batch[i + 1..];
  }

  lemma NothingToDo(batch: seq<Memento>, left: seq<Merge>)
    requires ToDo(batch, |batch|, left)
    ensures left == []
  {
    assert batch[|batch|..] == [];
    SomethingLeft(left);
  }

  lemma SomethingLeft(left: seq<Merge>)
    ensures left == [] || exists m :: LeftHas(left, m)
  {
    if left != [] {
      assert LeftHas(left, Memento(left[0].u, left[0].v));
    }
  }

  // ---------- Storing the batches ----------

  ghost function Partners(batch: seq<Memento>): set<nat> {
    set m | m in batch :: m.v
  }

  /** No partner is in two batches. */
  ghost predicate OneBatchEach(batches: seq<seq<Memento>>) {
    forall j, k :: 0 <= j < k < |batches| ==> Partners(batches[j]) !! Partners(batches[k])
  }

  ghost predicate OneVersionEach(versions: seq<seq<seq<Memento>>>) {
    forall i, l, j, k :: 0 <= i < l < |versions| && 0 <= j < |versions[i]| && 0 <= k < |versions[l]| ==>
      Partners(versions[i][j]) !! Partners(versions[l][k])
  }

  /** The partners of the first n batches have their indices, counted from `offset`. */
  ghost predicate StoredUpTo(batchIndex: seq<nat>, batches: seq<seq<Memento>>, offset: nat, n: nat) {
    n <= |batches| && forall j, v {:trigger v in Partners(batches[j])} :: 0 <= j < n && v in Partners(batches[j]) ==> v < |batchIndex| && batchIndex[v] == offset + j
  }

  ghost predicate Stored(batchIndex: seq<nat>, batches: seq<seq<Memento>>, offset: nat) {
    StoredUpTo(batchIndex, batches, offset, |batches|)
  }

  /** Exactly the partners of the batch got index b. */
  ghost predicate Written(before: seq<nat>, after: seq<nat>, batch: seq<Memento>, b: nat) {
    && |after| == |before| && (forall v :: v in Partners(batch) ==> v < |after| && after[v] == b)
    && (forall v :: 0 <= v < |before| && v !in Partners(batch) ==> after[v] == before[v])
  }

  ghost predicate PartnersBelow(batches: seq<seq<Memento>>, n: nat) {
    forall j :: 0 <= j < |batches| ==> forall v :: v in Partners(batches[j]) ==> v < n
  }

  lemma BatchBelow(batches: seq<seq<Memento>>, n: nat, j: nat)
    requires PartnersBelow(batches, n) && j < |batches|
    ensures forall v :: v in Partners(batches[j]) ==> v < n
  {
  }

  lemma NothingStored(batchIndex: seq<nat>, batches: seq<seq<Memento>>, offset: nat)
    ensures StoredUpTo(batchIndex, batches, offset, 0)
  {
  }

  lemma AllStored(batchIndex: seq<nat>, batches: seq<seq<Memento>>, offset: nat)
    ensures StoredUpTo(batchIndex, batches, offset, |batches|) ==> Stored(batchIndex, batches, offset)
  {
  }

  lemma WrittenOneMore(before: seq<nat>, after: seq<nat>, batch: seq<Memento>, b: nat, k: nat)
    requires k < |batch| && Written(before, after, batch[..k], b) && batch[k].v < |after|
    ensures Written(before, after[batch[k].v := b], batch[..k + 1], b)
  {
    assert batch[..k + 1] == batch[..k] + [batch[k]];
    assert Partners(batch[..k + 1]) == Partners(batch[..k]) + {batch[k].v};
  }

  lemma StoredOneMore(before: seq<nat>, after: seq<nat>, batches: seq<seq<Memento>>, offset: nat, j: nat)
    requires j < |batches| && OneBatchEach(batches) && StoredUpTo(before, batches, offset, j) && Written(before, after, batches[j], offset + j)
    ensures StoredUpTo(after, batches, offset, j + 1)
  {
    forall l, v | 0 <= l < j + 1 && v in Partners(batches[l]) ensures v < |after| && after[v] == offset + l {
      if l < j {
        assert Partners(batches[l]) !! Partners(batches[j]);
      }
    }
  }

  lemma StoredElsewhere(before: seq<nat>, after: seq<nat>, versions: seq<seq<seq<Memento>>>, l: nat, i: nat, j: nat, offset: nat, b: nat)
    requires l < i < |versions| && j < |versions[i]| && OneVersionEach(versions) && Stored(before, versions[l], offset)
    requires Written(before, after, versions[i][j], b)
    ensures Stored(after, versions[l], offset)
  {
    forall k, v | 0 <= k < |versions[l]| && v in Partners(versions[l][k]) ensures v < |after| && after[v] == offset + k {
      assert Partners(versions[l][k]) !! Partners(versions[i][j]);
    }
  }

  function IndexAt(batchIndex: seq<nat>, v: nat): nat {
    if v < |batchIndex| then batchIndex[v] else 0
  }

  predicate LaterBatch(batchIndex: seq<nat>, v: nat, w: nat) {
    IndexAt(batchIndex, v) > IndexAt(batchIndex, w)
  }

  /** Sorting the removed pins changes neither the net nor its pins. */
  lemma SortedRemoved(edge: Hyperedge, sorted: seq<nat>, batchIndex: seq<nat>)
    requires edge.Valid() && multiset(sorted) == multiset(edge.Removed()) && Sorted(sorted, (x, y) => LaterBatch(batchIndex, x, y))
    requires forall p :: p in edge.Removed() ==> p < |batchIndex|
    ensures var edge' := edge.(pins := edge.pins[..edge.size] + sorted);
            edge'.Valid() && NetAt(edge') == NetAt(edge) && ByBatch(edge'.Removed(), batchIndex)
  {
    var edge' := edge.(pins := edge.pins[..edge.size] + sorted);
    assert edge'.Removed() == sorted && edge'.pins[..edge.size] == edge.pins[..edge.size];
    assert edge.pins == edge.pins[..edge.size] + edge.Removed();
    DistinctPermutation(edge.pins, edge'.pins);
    forall p ensures p in sorted <==> p in edge.Removed() {
      assert p in sorted <==> p in multiset(sorted);
      assert p in edge.Removed() <==> p in multiset(edge.Removed());
    }
    SortedIsByBatch(sorted, batchIndex);
    PinsOfSlice(edge);
    PinsOfSlice(edge');
    assert edge'.Pins() == edge.Pins();
    assert MembersOf(edge'.Removed()) == MembersOf(edge.Removed());
  }

  lemma SortedIsByBatch(sorted: seq<nat>, batchIndex: seq<nat>)
    requires Sorted(sorted, (x, y) => LaterBatch(batchIndex, x, y)) && forall p :: p in sorted ==> p < |batchIndex|
    ensures ByBatch(sorted, batchIndex)
  {
    forall i | 0 <= i < |sorted| ensures sorted[i] < |batchIndex| {
      assert sorted[i] in sorted;
    }
    forall i, j | 0 <= i < j < |sorted| ensures batchIndex[sorted[i]] >= batchIndex[sorted[j]] {
      assert !LaterBatch(batchIndex, sorted[j], sorted[i]);
    }
  }

  /** The first n nets are sorted, the others are as they were. */
  ghost predicate RemovedSortedUpTo(edges0: seq<Hyperedge>, edges: seq<Hyperedge>, batchIndex: seq<nat>, n: nat) {
    |edges| == |edges0| && forall e: nat {:trigger RemovedSortedAt(edges0, edges, batchIndex, n, e)} :: e < |edges| ==> RemovedSortedAt(edges0, edges, batchIndex, n, e)
  }

  ghost predicate RemovedSortedAt(edges0: seq<Hyperedge>, edges: seq<Hyperedge>, batchIndex: seq<nat>, n: nat, e: nat)
    requires e < |edges| == |edges0|
  {
    if e < n then edges[e].Valid() && NetAt(edges[e]) == NetAt(edges0[e]) && ByBatch(edges[e].Removed(), batchIndex) else edges[e] == edges0[e]
  }

  lemma RemovedSortedStep(edges0: seq<Hyperedge>, edges: seq<Hyperedge>, batchIndex: seq<nat>, n: nat, edge: Hyperedge)
    requires RemovedSortedUpTo(edges0, edges, batchIndex, n) && n < |edges| && edge.Valid() && NetAt(edge) == NetAt(edges0[n]) && ByBatch(edge.Removed(), batchIndex)
    ensures RemovedSortedUpTo(edges0, edges[n := edge], batchIndex, n + 1)
  {
    var edges', n' := edges[n := edge], n + 1;
    forall e: nat | e < |edges| ensures RemovedSortedAt(edges0, edges', batchIndex, n', e) {
      assert RemovedSortedAt(edges0, edges, batchIndex, n, e);
    }
  }

  lemma RemovedSortedEnd(edges0: seq<Hyperedge>, edges: seq<Hyperedge>, batchIndex: seq<nat>)
    requires RemovedSortedUpTo(edges0, edges, batchIndex, |edges|)
    ensures EdgesValid(edges) && NetsOf(edges) == NetsOf(edges0) && SortedByBatch(edges, batchIndex)
  {
    forall e: nat | e < |edges| ensures EdgeValid(edges, e) && SortedAt(edges, batchIndex, e) && NetsOf(edges)[e] == NetsOf(edges0)[e] {
      assert RemovedSortedAt(edges0, edges, batchIndex, |edges|, e);
    }
  }

  /** The same pins in the same places, in all nets. */
  ghost predicate SamePinLists(a: seq<Hyperedge>, b: seq<Hyperedge>) {
    |a| == |b| && forall e: nat {:trigger SamePinList(a, b, e)} :: e < |a| ==> SamePinList(a, b, e)
  }

  ghost predicate SamePinList(a: seq<Hyperedge>, b: seq<Hyperedge>, e: nat)
    requires e < |a| == |b|
  {
    b[e].pins == a[e].pins && b[e].size == a[e].size
  }

  lemma StillSame(a: seq<Hyperedge>, b: seq<Hyperedge>, c: seq<Hyperedge>)
    requires SamePinLists(a, b) && SamePinLists(b, c)
    ensures SamePinLists(a, c)
  {
    forall e: nat | e < |a| ensures SamePinList(a, c, e) {
      assert SamePinList(a, b, e) && SamePinList(b, c, e);
    }
  }

  lemma StillSorted(a: seq<Hyperedge>, b: seq<Hyperedge>, batchIndex: seq<nat>)
    requires SamePinLists(a, b) && SortedByBatch(a, batchIndex)
    ensures SortedByBatch(b, batchIndex)
  {
    forall e: nat | e < |b| ensures SortedAt(b, batchIndex, e) {
      assert SamePinList(a, b, e) && SortedAt(a, batchIndex, e);
    }
  }

  // ---------- Schedules ----------

  /** The index of the first batch of version i. */
  function Offset(versions: seq<seq<seq<Memento>>>, i: nat): nat
    requires i <= |versions|
  {
    if i == 0 then 0 else Offset(versions, i - 1) + |versions[i - 1]|
  }

  lemma OffsetAt(versions: seq<seq<seq<Memento>>>, i: nat)
    requires i <= |versions|
    ensures Offset(versions, i) == if i == 0 then 0 else Offset(versions, i - 1) + |versions[i - 1]|
  {
  }

  /** The batches hold the contractions of the version, each exactly once, and their indices allow them to be
      undone from the last batch to the first. */
  ghost predicate Scheduled(batches: seq<seq<Memento>>, offset: nat, nets: seq<Net>, order: seq<Memento>, batchIndex: seq<nat>) {
    && InBatchOrder(batchIndex, order)
    && (forall m :: m in order ==> m.v < |batchIndex| && offset <= batchIndex[m.v] < offset + |batches|)
    && (forall j {:trigger batches[j]} :: 0 <= j < |batches| ==>
          && batches[j] != [] && (forall m :: m in batches[j] <==> m in order && m.v < |batchIndex| && batchIndex[m.v] == offset + j)
          && NoPartnerTwice(batches[j]))
    && AllEarlier(nets, batchIndex, offset)
  }

  ghost predicate VersionOk(versions: seq<seq<seq<Memento>>>, starts: seq<Hypergraph>, orders: seq<seq<Memento>>, batchIndex: seq<nat>, i: nat)
    requires i < |versions| == |starts| == |orders|
  {
    CanContractAll(starts[i], orders[i]) && Scheduled(versions[i], Offset(versions, i), starts[i].nets, orders[i], batchIndex)
  }

  /** Version i ended with a removal of single-pin and parallel nets. */
  ghost predicate Removal(starts: seq<Hypergraph>, orders: seq<seq<Memento>>, removals: seq<seq<ParallelHyperedge>>, i: nat)
    requires i < |removals| && |starts| == |orders| == |removals| + 1
  {
    && CanContractAll(starts[i], orders[i])
    && (var end := ContractedAll(starts[i], orders[i]);
        && end.Agree() && starts[i + 1] == SimplifiedGraph(end) && RemovalList(end.nets, removals[i]) && |end.nets| <= INVALID)
  }

  /** The partners of the batch have index b, and all pins removed before a smaller one. */
  ghost predicate BatchIndexed(nets: seq<Net>, batch: seq<Memento>, batchIndex: seq<nat>, b: nat) {
    && (forall m :: m in batch ==> m.v < |batchIndex| && batchIndex[m.v] == b)
    && AllEarlier(nets, batchIndex, b)
  }

  lemma AllRemain(batches: seq<seq<Memento>>, offset: nat, nets: seq<Net>, order: seq<Memento>, batchIndex: seq<nat>)
    requires Scheduled(batches, offset, nets, order, batchIndex)
    ensures Remaining(order, batchIndex, offset + |batches|) == order
  {
    RemainingEnds(order, batchIndex, offset, offset + |batches|);
  }

  lemma NoneRemain(start: Hypergraph, batches: seq<seq<Memento>>, offset: nat, order: seq<Memento>, batchIndex: seq<nat>)
    requires Scheduled(batches, offset, start.nets, order, batchIndex) && CanContractAll(start, Remaining(order, batchIndex, offset))
    ensures ContractedAll(start, Remaining(order, batchIndex, offset)) == start
  {
    RemainingEnds(order, batchIndex, offset, offset + |batches|);
  }

  /** Batch j lists the contractions of its index, and their partners were removed after all other pins. */
  lemma BatchReady(batches: seq<seq<Memento>>, offset: nat, nets: seq<Net>, order: seq<Memento>, batchIndex: seq<nat>, j: nat)
    requires Scheduled(batches, offset, nets, order, batchIndex) && j < |batches|
    ensures var batch, b := batches[j], offset + j;
            && SameMementos(batch, BatchOf(order, batchIndex, b)) && batch != [] && batch[0].v < |batchIndex| && batchIndex[batch[0].v] == b
            && (forall m :: m in batch ==> m.v < |batchIndex| && batchIndex[m.v] == b)
  {
    BatchHolds(batches, offset, nets, order, batchIndex, j);
    BatchMembers(order, batchIndex, offset + j);
  }

  lemma EarlierThanBatch(batches: seq<seq<Memento>>, offset: nat, start: Hypergraph, order: seq<Memento>, batchIndex: seq<nat>, j: nat)
    requires Scheduled(batches, offset, start.nets, order, batchIndex) && j < |batches| && CanContractAll(start, Remaining(order, batchIndex, offset + j))
    ensures BatchIndexed(ContractedAll(start, Remaining(order, batchIndex, offset + j)).nets, batches[j], batchIndex, offset + j)
  {
    hide CanContractAll, ContractedAll, BatchOf;
    BatchReady(batches, offset, start.nets, order, batchIndex, j);
    BatchHolds(batches, offset, start.nets, order, batchIndex, j);
    OutsideMembers(order, FromBatch(batchIndex, offset + j));
    RemovedBelow(start, Remaining(order, batchIndex, offset + j), batchIndex, offset, offset + j);
  }

  lemma BatchHolds(batches: seq<seq<Memento>>, offset: nat, nets: seq<Net>, order: seq<Memento>, batchIndex: seq<nat>, j: nat)
    requires Scheduled(batches, offset, nets, order, batchIndex) && j < |batches|
    ensures var batch := batches[j];
            && batch != [] && batch[0].v < |batchIndex| && batchIndex[batch[0].v] == offset + j
            && (forall m :: m in batch <==> m in order && m.v < |batchIndex| && batchIndex[m.v] == offset + j)
            && NoPartnerTwice(batch)
    ensures InBatchOrder(batchIndex, order) && forall m :: m in order ==> m.v < |batchIndex|
    ensures AllEarlier(nets, batchIndex, offset)
  {
    assert batches[j][0] in batches[j];
  }

  lemma RemovedBelow(start: Hypergraph, rest: seq<Memento>, batchIndex: seq<nat>, offset: nat, b: nat)
    requires CanContractAll(start, rest) && offset <= b && forall m :: m in rest ==> m.v < |batchIndex| && batchIndex[m.v] < b
    requires AllEarlier(start.nets, batchIndex, offset)
    ensures AllEarlier(ContractedAll(start, rest).nets, batchIndex, b)
  {
    hide CanContractAll, ContractedAll;
    var nets := ContractedAll(start, rest).nets;
    SameNumberOfNets(start, rest);
    forall e: nat | e < |nets| ensures EarlierPins(nets, batchIndex, b, e) {
      RemovedPins(start, rest, e);
      assert EarlierPins(start.nets, batchIndex, offset, e);
    }
  }

  lemma {:induction false} SameNumberOfNets(h: Hypergraph, c: seq<Memento>)
    requires CanContractAll(h, c)
    ensures |ContractedAll(h, c).nets| == |h.nets|
    decreases |c|
  {
    hide Hypergraph.Agree;
    if c != [] { SameNumberOfNets(After(h, c[0]), c[1..]); }
  }

  lemma MergesIndexed(h: Hypergraph, batch: seq<Memento>, c: seq<Memento>, batchIndex: seq<nat>, b: nat)
    requires CanContractAll(h, c) && SameMementos(batch, c) && BatchIndexed(h.nets, batch, batchIndex, b) && BatchOk(h, MergesOf(h, c))
    ensures Indexed(h, MergesOf(h, c), batchIndex, b) && Independent(MergesOf(h, c)) && StaysInRange(h, MergesOf(h, c))
  {
    hide BatchOk, CanContractAll;
    var left := MergesOf(h, c);
    forall s | s in left ensures s.v < |batchIndex| && batchIndex[s.v] == b {
      var i :| 0 <= i < |left| && left[i] == s;
      assert c[i] in c;
    }
    NetsExist(h, c);
    assert Independent(left) by { IndependentBatch(h, left); }
  }

  lemma IndependentBatch(h: Hypergraph, left: seq<Merge>)
    requires BatchOk(h, left)
    ensures Independent(left)
  {
  }

  lemma NetsExist(h: Hypergraph, c: seq<Memento>)
    requires CanContractAll(h, c) && BatchOk(h, MergesOf(h, c))
    ensures StaysInRange(h, MergesOf(h, c))
  {
    var left := MergesOf(h, c);
    forall s, e: nat | s in left && (e in s.stay || e in s.back) ensures e < |h.nets| {
      assert MergeOk(h.inc, s);
      var i :| 0 <= i < |left| && left[i] == s;
      NodesOfSequence(h, c, i);
      assert e in h.inc.NetsOf(s.v) && h.AgreeAt(s.v, e);
    }
  }

  /** The contractions name nets that exist. */
  ghost predicate StaysInRange(h: Hypergraph, left: seq<Merge>) {
    forall s, e: nat {:trigger s in left, e in s.stay} {:trigger s in left, e in s.back} :: s in left && (e in s.stay || e in s.back) ==> e < |h.nets|
  }

  lemma MergeInRange(h: Hypergraph, left: seq<Merge>, k: nat)
    requires BatchOk(h, left) && StaysInRange(h, left) && k < |left|
    ensures left[k].u < |h.weight| == |h.enabled| && left[k].v < |h.weight| && MergeOk(h.inc, left[k]) && Independent(left)
    ensures CanJoinAll(h.inc, left) && NodesFit(h.weight, h.enabled, left)
    ensures forall e :: e in left[k].stay || e in left[k].back ==> e < |h.nets|
  {
    assert left[k] in left && MergeOk(h.inc, left[k]);
  }

  lemma IndexedRemoving(h: Hypergraph, left: seq<Merge>, k: nat, batchIndex: seq<nat>, b: nat)
    requires Indexed(h, left, batchIndex, b) && StaysInRange(h, left) && Independent(left) && k < |left|
    ensures Indexed(h, Removing(left, k), batchIndex, b) && StaysInRange(h, Removing(left, k)) && Independent(Removing(left, k))
  {
    RemovingMembers(left, k);
  }

  lemma BatchParts(h: Hypergraph, left: seq<Merge>)
    requires BatchOk(h, left)
    ensures CanJoinAll(h.inc, left) && Independent(left) && NodesFit(h.weight, h.enabled, left)
  {
  }

  lemma BatchDone(h: Hypergraph, resized: set<nat>)
    requires BatchOk(h, [])
    ensures BatchState(h, [], resized) == h
  {
    NothingLeft(h, resized);
  }
}
