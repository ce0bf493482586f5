/** The schedule of a version is one in which its batches can be undone. */
module UncontractionSchedule {
  import opened ContractionOrder
  import opened BatchUncontraction
  import opened UncontractionSteps
  import H = Hypergraphs
  import P = ParallelNets
  import S = BatchSchedule
  import T = BatchThreads
  import F = BatchFilling
  import Z = Finalize

  // The threads fill batch after batch. The vector of batches is then reversed, so that the batch filled first
  // is the last one and gets the largest index; and it is undone first.

  /** The contraction forest records the contractions of the version in the order in which they were made: one
      after the other, so that every interval ends before the next one starts. */
  ghost predicate Records(f: S.Hierarchy, ver: nat, order: seq<Memento>) {
    && f.Valid() && (forall m :: m in order ==> m.v < |f.parent| && f.parent[m.v] == m.u)
    && (forall v: nat {:trigger T.OfVersion(f, ver, v)} :: T.OfVersion(f, ver, v) <==> HasPartner(order, v))
    && (forall i, j {:trigger order[i], order[j]} :: 0 <= i < j < |order| ==> MadeBefore(f, order[i].v, order[j].v))
  }

  ghost predicate HasPartner(order: seq<Memento>, v: nat) {
    exists i :: 0 <= i < |order| && order[i].v == v
  }

  ghost predicate MadeBefore(f: S.Hierarchy, v: nat, w: nat) {
    && v < |f.interval| && w < |f.interval| && v != w
    && f.interval[v].start != S.INVALID_TIME && f.interval[w].start != S.INVALID_TIME
    && f.interval[v].start <= f.interval[v].end <= f.interval[w].start <= f.interval[w].end
  }

  /** The batches are the lists of the threads, written to their slots, and reversed. */
  ghost predicate WrittenOut(outs: seq<seq<S.Assignment>>, sizes: seq<nat>, batches: seq<seq<Memento>>) {
    && |batches| <= |sizes| && (forall b: nat :: b < |sizes| ==> (sizes[b] > 0 <==> b < |batches|))
    && (forall j :: 0 <= j < |batches| ==> |batches[j]| == sizes[|batches| - 1 - j])
    && (forall t: nat, k: nat {:trigger F.At(outs, t, k)} :: F.At(outs, t, k) ==> Slot(batches, outs[t][k]))
  }

  ghost predicate Slot(batches: seq<seq<Memento>>, a: S.Assignment) {
    && a.batchIndex < |batches| && a.batchPos < |batches[|batches| - 1 - a.batchIndex]|
    && batches[|batches| - 1 - a.batchIndex][a.batchPos] == Memento(a.u, a.v)
  }

  /** What the filling of the batches guarantees. */
  ghost predicate AllFilled(f: S.Hierarchy, ver: nat, outs: seq<seq<S.Assignment>>, sizes: seq<nat>) {
    && (forall b: nat, p: nat {:trigger F.Filled(outs, b, p)} :: b < |sizes| && p < sizes[b] ==> F.Filled(outs, b, p))
    && (forall v: nat {:trigger T.OfVersion(f, ver, v)} :: f.Shape() && (T.OfVersion(f, ver, v) <==> F.ListedBy(outs, v)))
    && (forall t: nat, k: nat, t': nat, k': nat {:trigger F.Named(outs, t, k, t', k')} :: F.Named(outs, t, k, t', k'))
    && (forall t: nat, k: nat, t': nat, k': nat {:trigger F.Ordered(f, outs, t, k, t', k')} :: F.Ordered(f, outs, t, k, t', k'))
    && (forall t: nat, k: nat {:trigger F.At(outs, t, k)} :: F.At(outs, t, k) ==> S.EntryFits(f, outs[t][k]))
  }

  /** The entry of a contraction. */
  lemma EntryFor(f: S.Hierarchy, ver: nat, order: seq<Memento>, outs: seq<seq<S.Assignment>>, sizes: seq<nat>, i: nat) returns (t: nat, k: nat)
    requires Records(f, ver, order) && AllFilled(f, ver, outs, sizes) && i < |order|
    ensures F.At(outs, t, k) && outs[t][k].v == order[i].v && outs[t][k].u == order[i].u
  {
    var v := order[i].v;
    assert order[i] in order;
    assert T.OfVersion(f, ver, v) by { assert HasPartner(order, v); }
    assert F.ListedBy(outs, v);
    t, k :| F.At(outs, t, k) && outs[t][k].v == v;
    assert S.EntryFits(f, outs[t][k]);
  }

  /** The contraction of an entry. */
  lemma OrderOf(f: S.Hierarchy, ver: nat, order: seq<Memento>, outs: seq<seq<S.Assignment>>, sizes: seq<nat>, t: nat, k: nat)
    requires Records(f, ver, order) && AllFilled(f, ver, outs, sizes) && F.At(outs, t, k)
    ensures Memento(outs[t][k].u, outs[t][k].v) in order
  {
    var v := outs[t][k].v;
    assert S.EntryFits(f, outs[t][k]) && F.ListedBy(outs, v) && T.OfVersion(f, ver, v);
    assert HasPartner(order, v);
    var i :| 0 <= i < |order| && order[i].v == v;
    assert order[i] in order;
  }

  /** Every element of a batch comes from an entry. */
  lemma EntryAt(f: S.Hierarchy, ver: nat, outs: seq<seq<S.Assignment>>, sizes: seq<nat>, batches: seq<seq<Memento>>, j: nat, p: nat) returns (t: nat, k: nat)
    requires AllFilled(f, ver, outs, sizes) && WrittenOut(outs, sizes, batches) && j < |batches| && p < |batches[j]|
    ensures F.At(outs, t, k) && batches[j][p] == Memento(outs[t][k].u, outs[t][k].v)
    ensures outs[t][k].batchIndex == |batches| - 1 - j && outs[t][k].batchPos == p
  {
    var b := |batches| - 1 - j;
    assert F.Filled(outs, b, p);
    t, k :| F.At(outs, t, k) && outs[t][k].batchIndex == b && outs[t][k].batchPos == p;
    assert Slot(batches, outs[t][k]);
  }

  /** The index that was stored for a contraction. */
  lemma StoredIndex(batches: seq<seq<Memento>>, offset: nat, batchIndex: seq<nat>, a: S.Assignment)
    requires Slot(batches, a) && Stored(batchIndex, batches, offset)
    ensures a.v < |batchIndex| && batchIndex[a.v] == offset + (|batches| - 1 - a.batchIndex)
    ensures Memento(a.u, a.v) in batches[|batches| - 1 - a.batchIndex]
  {
    var j := |batches| - 1 - a.batchIndex;
    assert batches[j][a.batchPos] in batches[j];
    assert a.v in Partners(batches[j]);
  }

  lemma PairOrdered(f: S.Hierarchy, ver: nat, order: seq<Memento>, outs: seq<seq<S.Assignment>>, sizes: seq<nat>, batches: seq<seq<Memento>>,
                    offset: nat, batchIndex: seq<nat>, i: nat, j: nat)
    requires Records(f, ver, order) && AllFilled(f, ver, outs, sizes) && WrittenOut(outs, sizes, batches) && Stored(batchIndex, batches, offset)
    requires i < j < |order|
    ensures PairInOrder(batchIndex, order[i], order[j])
  {
    var t, k := EntryFor(f, ver, order, outs, sizes, i);
    var t', k' := EntryFor(f, ver, order, outs, sizes, j);
    StoredIndex(batches, offset, batchIndex, outs[t][k]);
    StoredIndex(batches, offset, batchIndex, outs[t'][k']);
    assert MadeBefore(f, order[i].v, order[j].v);
    assert F.Ordered(f, outs, t', k', t, k);
  }

  lemma {:induction false} OrderedFromPairs(index: seq<nat>, c: seq<Memento>)
    requires forall i, j {:trigger PairInOrder(index, c[i], c[j])} :: 0 <= i < j < |c| ==> PairInOrder(index, c[i], c[j])
    requires forall i :: 0 <= i < |c| ==> c[i].v < |index|
    ensures InBatchOrder(index, c)
  {
    if c != [] {
      var rest := c[1..];
      forall i, j | 0 <= i < j < |rest| ensures PairInOrder(index, rest[i], rest[j]) {
        assert PairInOrder(index, c[i + 1], c[j + 1]);
      }
      OrderedFromPairs(index, rest);
      forall m | m in rest ensures PairInOrder(index, c[0], m) {
        var j :| 0 <= j < |rest| && rest[j] == m;
        assert PairInOrder(index, c[0], c[j + 1]);
      }
    }
  }

  lemma AllInOrder(f: S.Hierarchy, ver: nat, order: seq<Memento>, outs: seq<seq<S.Assignment>>, sizes: seq<nat>, batches: seq<seq<Memento>>,
                   offset: nat, batchIndex: seq<nat>)
    requires Records(f, ver, order) && AllFilled(f, ver, outs, sizes) && WrittenOut(outs, sizes, batches) && Stored(batchIndex, batches, offset)
    ensures InBatchOrder(batchIndex, order)
    ensures forall m :: m in order ==> m.v < |batchIndex| && offset <= batchIndex[m.v] < offset + |batches| && m in batches[batchIndex[m.v] - offset]
  {
    forall m | m in order
      ensures m.v < |batchIndex| && offset <= batchIndex[m.v] < offset + |batches| && m in batches[batchIndex[m.v] - offset]
    {
      var i :| 0 <= i < |order| && order[i] == m;
      var t, k := EntryFor(f, ver, order, outs, sizes, i);
      StoredIndex(batches, offset, batchIndex, outs[t][k]);
    }
    forall i: nat, j: nat | i < j < |order| ensures PairInOrder(batchIndex, order[i], order[j]) {
      PairOrdered(f, ver, order, outs, sizes, batches, offset, batchIndex, i, j);
    }
    forall i | 0 <= i < |order| ensures order[i].v < |batchIndex| {
      assert order[i] in order;
    }
    OrderedFromPairs(batchIndex, order);
  }

  lemma BatchLists(f: S.Hierarchy, ver: nat, order: seq<Memento>, outs: seq<seq<S.Assignment>>, sizes: seq<nat>, batches: seq<seq<Memento>>,
                   offset: nat, batchIndex: seq<nat>, j: nat)
    requires Records(f, ver, order) && AllFilled(f, ver, outs, sizes) && WrittenOut(outs, sizes, batches) && Stored(batchIndex, batches, offset) && j < |batches|
    ensures batches[j] != [] && NoPartnerTwice(batches[j])
    ensures forall m :: m in batches[j] <==> m in order && m.v < |batchIndex| && batchIndex[m.v] == offset + j
  {
    AllInOrder(f, ver, order, outs, sizes, batches, offset, batchIndex);
    forall m | m in batches[j] ensures m in order && batchIndex[m.v] == offset + j {
      var p :| 0 <= p < |batches[j]| && batches[j][p] == m;
      var t, k := EntryAt(f, ver, outs, sizes, batches, j, p);
      OrderOf(f, ver, order, outs, sizes, t, k);
      StoredIndex(batches, offset, batchIndex, outs[t][k]);
    }
    forall p, q | 0 <= p < |batches[j]| && 0 <= q < |batches[j]| && batches[j][p].v == batches[j][q].v ensures p == q {
      SameElement(f, ver, outs, sizes, batches, j, p, j, q);
    }
  }

  /** Every contraction has one place. */
  lemma SameElement(f: S.Hierarchy, ver: nat, outs: seq<seq<S.Assignment>>, sizes: seq<nat>, batches: seq<seq<Memento>>, i: nat, p: nat, j: nat, q: nat)
    requires AllFilled(f, ver, outs, sizes) && WrittenOut(outs, sizes, batches) && i < |batches| && j < |batches| && p < |batches[i]| && q < |batches[j]|
    requires batches[i][p].v == batches[j][q].v
    ensures i == j && p == q
  {
    var t, k := EntryAt(f, ver, outs, sizes, batches, i, p);
    var t', k' := EntryAt(f, ver, outs, sizes, batches, j, q);
    assert F.Named(outs, t, k, t', k');
  }

  /** No contraction is in two batches, so that its index can be stored. */
  lemma EachInOneBatch(f: S.Hierarchy, ver: nat, outs: seq<seq<S.Assignment>>, sizes: seq<nat>, batches: seq<seq<Memento>>)
    requires AllFilled(f, ver, outs, sizes) && WrittenOut(outs, sizes, batches)
    ensures OneBatchEach(batches) && PartnersBelow(batches, |f.parent|)
  {
    forall i, j, v | 0 <= i < |batches| && 0 <= j < |batches| && v in Partners(batches[i]) && v in Partners(batches[j]) ensures i == j {
      var p, q: nat;
      p :| 0 <= p < |batches[i]| && batches[i][p].v == v;
      q :| 0 <= q < |batches[j]| && batches[j][q].v == v;
      SameElement(f, ver, outs, sizes, batches, i, p, j, q);
    }
    forall j | 0 <= j < |batches| ensures forall v :: v in Partners(batches[j]) ==> v < |f.parent| {
      forall v | v in Partners(batches[j]) ensures v < |f.parent| {
        var p: nat :| p < |batches[j]| && batches[j][p].v == v;
        var t, k := EntryAt(f, ver, outs, sizes, batches, j, p);
        assert S.EntryFits(f, outs[t][k]);
      }
    }
  }

  /** With the batches of the schedule stored in the nodes, a version can be undone batch by batch. */
  lemma ScheduleCanBeUndone(f: S.Hierarchy, ver: nat, order: seq<Memento>, outs: seq<seq<S.Assignment>>, sizes: seq<nat>, batches: seq<seq<Memento>>,
                            offset: nat, batchIndex: seq<nat>, nets: seq<H.Net>)
    requires Records(f, ver, order) && AllFilled(f, ver, outs, sizes) && WrittenOut(outs, sizes, batches) && Stored(batchIndex, batches, offset)
    requires AllEarlier(nets, batchIndex, offset)
    ensures UncontractionSteps.Scheduled(batches, offset, nets, order, batchIndex)
  {
    AllInOrder(f, ver, order, outs, sizes, batches, offset, batchIndex);
    hide AllFilled, Records, WrittenOut, Stored, InBatchOrder, EarlierPins;
    forall j {:trigger batches[j]} | 0 <= j < |batches|
      ensures batches[j] != [] && NoPartnerTwice(batches[j])
      ensures forall m :: m in batches[j] <==> m in order && m.v < |batchIndex| && batchIndex[m.v] == offset + j
    {
      BatchLists(f, ver, order, outs, sizes, batches, offset, batchIndex, j);
    }
  }

  // ---------- Writing the batches ----------

  /** The entries of the first n threads, and the first k of the next one, are in their slots. */
  ghost predicate WrittenUpTo(outs: seq<seq<S.Assignment>>, table: seq<seq<Memento>>, n: nat, k: nat) {
    forall t: nat, i: nat {:trigger F.At(outs, t, i)} :: F.At(outs, t, i) && (t < n || (t == n && i < k)) ==> InTable(table, outs[t][i])
  }

  ghost predicate InTable(table: seq<seq<Memento>>, a: S.Assignment) {
    a.batchIndex < |table| && a.batchPos < |table[a.batchIndex]| && table[a.batchIndex][a.batchPos] == Memento(a.u, a.v)
  }

  ghost predicate Dimensions(table: seq<seq<Memento>>, sizes: seq<nat>, n: nat) {
    |table| == n <= |sizes| && forall b :: 0 <= b < n ==> |table[b]| == sizes[b]
  }

  function Put(table: seq<seq<Memento>>, b: nat, p: nat, m: Memento): seq<seq<Memento>>
    requires b < |table| && p < |table[b]|
  {
    table[b := table[b][p := m]]
  }

  lemma OneMoreWritten(outs: seq<seq<S.Assignment>>, table: seq<seq<Memento>>, t: nat, k: nat)
    requires WrittenUpTo(outs, table, t, k) && F.At(outs, t, k) && outs[t][k].batchIndex < |table| && outs[t][k].batchPos < |table[outs[t][k].batchIndex]|
    requires forall t: nat, k: nat, t': nat, k': nat {:trigger F.Apart(outs, t, k, t', k')} :: F.Apart(outs, t, k, t', k')
    ensures WrittenUpTo(outs, Put(table, outs[t][k].batchIndex, outs[t][k].batchPos, Memento(outs[t][k].u, outs[t][k].v)), t, k + 1)
  {
    var a := outs[t][k];
    var table', k1 := Put(table, a.batchIndex, a.batchPos, Memento(a.u, a.v)), k + 1;
    forall t': nat, i: nat {:trigger F.At(outs, t', i)} | F.At(outs, t', i) && (t' < t || (t' == t && i < k1)) ensures InTable(table', outs[t'][i]) {
      assert F.Apart(outs, t', i, t, k);
    }
  }

  function Reverse(s: seq<seq<Memento>>): (r: seq<seq<Memento>>)
    ensures |r| == |s| && forall i :: 0 <= i < |s| ==> r[i] == s[|s| - 1 - i]
  {
    seq(|s|, i requires 0 <= i < |s| => s[|s| - 1 - i])
  }

  /** Writes the entries of all threads to their slots and reverses the vector of batches. No batch is empty, so
      there is none to be taken off the end before. */
  method WriteBatches(outs: seq<seq<S.Assignment>>, sizes: seq<nat>, numBatches: nat) returns (batches: seq<seq<Memento>>)
    requires numBatches <= |sizes| && forall b: nat :: b < |sizes| ==> (sizes[b] > 0 <==> b < numBatches)
    requires forall t: nat, k: nat {:trigger F.InSlot(outs, sizes, t, k)} :: F.InSlot(outs, sizes, t, k)
    requires forall t: nat, k: nat, t': nat, k': nat {:trigger F.Apart(outs, t, k, t', k')} :: F.Apart(outs, t, k, t', k')
    ensures WrittenOut(outs, sizes, batches)
  {
    var table := seq(numBatches, b requires 0 <= b < numBatches => seq(sizes[b], p => Memento(0, 0)));
    for t := 0 to |outs|
      invariant Dimensions(table, sizes, numBatches) && WrittenUpTo(outs, table, t, 0)
    {
      for k := 0 to |outs[t]|
        invariant Dimensions(table, sizes, numBatches) && WrittenUpTo(outs, table, t, k)
      {
        var a := outs[t][k];
        assert F.At(outs, t, k) && F.InSlot(outs, sizes, t, k);
        OneMoreWritten(outs, table, t, k);
        table := Put(table, a.batchIndex, a.batchPos, Memento(a.u, a.v));
      }
    }
    batches := Reverse(table);
    forall t: nat, k: nat {:trigger F.At(outs, t, k)} | F.At(outs, t, k) ensures Slot(batches, outs[t][k]) {
      assert InTable(table, outs[t][k]);
    }
  }

  /** From the threads to the uncontraction: whatever the interleaving in which the batches of a version were
      filled, written out and stored they can be undone one after the other. */
  lemma FilledCanBeUndone(f: S.Hierarchy, ver: nat, roots: set<nat>, parts: seq<seq<nat>>, maxBatchSize: nat, run: seq<T.Action>,
                          order: seq<Memento>, batches: seq<seq<Memento>>, offset: nat, batchIndex: seq<nat>, nets: seq<H.Net>)
    requires Records(f, ver, order) && f.parent != [] && (forall u: nat :: u in roots <==> Z.IsVersionRoot(f.version, f.childs, u, ver)) && T.Split(roots, parts)
    requires forall t :: 0 <= t < |parts| ==> S.NoTwice(parts[t])
    requires forall r: nat :: f.IsNode(r) && f.parent[r] == r ==> f.version[r] > ver
    requires maxBatchSize >= 1 && T.NodesOnly(f, parts) && T.CanRun(f, ver, T.Initial(f, ver, parts, maxBatchSize), run)
    requires T.AllDone(T.Run(f, ver, T.Initial(f, ver, parts, maxBatchSize), run))
    requires var s := T.Run(f, ver, T.Initial(f, ver, parts, maxBatchSize), run); WrittenOut(T.Lists(s), s.assigner.sizes, batches)
    requires Stored(batchIndex, batches, offset)
    requires AllEarlier(nets, batchIndex, offset)
    ensures UncontractionSteps.Scheduled(batches, offset, nets, order, batchIndex)
    ensures OneBatchEach(batches) && PartnersBelow(batches, |f.parent|)
  {
    F.BatchesHoldTheVersion(f, ver, roots, parts, maxBatchSize, run);
    var s := T.Run(f, ver, T.Initial(f, ver, parts, maxBatchSize), run);
    assert AllFilled(f, ver, T.Lists(s), s.assigner.sizes);
    hide T.Run, T.CanRun, T.Initial, T.AllDone, Records, AllFilled, WrittenOut, EarlierPins;
    ScheduleCanBeUndone(f, ver, order, T.Lists(s), s.assigner.sizes, batches, offset, batchIndex, nets);
    EachInOneBatch(f, ver, T.Lists(s), s.assigner.sizes, batches);
  }

  /** The pins that the nets of version i had lost before it are partners of earlier batches. */
  lemma {:induction false} LostBefore(versions: seq<seq<seq<Memento>>>, starts: seq<H.Hypergraph>, orders: seq<seq<Memento>>, removals: seq<seq<P.ParallelHyperedge>>,
                                      batchIndex: seq<nat>, i: nat)
    requires |versions| == |starts| == |orders| == |removals| + 1 && i < |versions|
    requires forall e :: 0 <= e < |starts[0].nets| ==> starts[0].nets[e].removed == {}
    requires forall l: nat {:trigger Removal(starts, orders, removals, l)} :: l < |removals| ==> Removal(starts, orders, removals, l)
    requires forall l: nat {:trigger IndexedBelow(versions, orders, batchIndex, l)} :: l < |versions| ==> IndexedBelow(versions, orders, batchIndex, l)
    ensures AllEarlier(starts[i].nets, batchIndex, Offset(versions, i))
  {
    hide CanContractAll, P.RemovalList, H.Hypergraph.Agree;
    if i > 0 {
      var l := i - 1;
      LostBefore(versions, starts, orders, removals, batchIndex, l);
      assert Removal(starts, orders, removals, l) && IndexedBelow(versions, orders, batchIndex, l);
      RemovedBelow(starts[l], orders[l], batchIndex, Offset(versions, l), Offset(versions, i));
      var nets, b := ContractedAll(starts[l], orders[l]).nets, Offset(versions, i);
      assert starts[i].nets == P.Simplified(nets);
      forall e: nat | e < |starts[i].nets| ensures EarlierPins(starts[i].nets, batchIndex, Offset(versions, i), e) {
        assert e < |nets|;
        assert EarlierPins(nets, batchIndex, b, e);
        assert starts[i].nets[e] == P.SimplifiedAt(nets, e);
      }
    }
  }

  ghost predicate IndexedBelow(versions: seq<seq<seq<Memento>>>, orders: seq<seq<Memento>>, batchIndex: seq<nat>, l: nat)
    requires l < |versions| == |orders|
  {
    forall m :: m in orders[l] ==> m.v < |batchIndex| && batchIndex[m.v] < Offset(versions, l + 1)
  }
}
