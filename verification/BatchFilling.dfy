/** From schedules to batches: every slot of every batch is filled with one contraction. */
module BatchFilling {
  import opened BatchSchedule
  import opened BatchThreads
  import opened Finalize

  // The threads split the roots of a version among them, and the assigner hands out the positions.

  ghost predicate At(outs: seq<seq<Assignment>>, t: nat, i: nat) {
    t < |outs| && i < |outs[t]|
  }

  ghost predicate ListedBy(outs: seq<seq<Assignment>>, v: nat) {
    exists t: nat, i: nat :: At(outs, t, i) && outs[t][i].v == v
  }

  /** Two entries that name the same contraction are the same entry. */
  ghost predicate Named(outs: seq<seq<Assignment>>, t: nat, k: nat, t': nat, k': nat) {
    At(outs, t, k) && At(outs, t', k') && (t != t' || k != k') ==> outs[t][k].v != outs[t'][k'].v
  }

  /** Two entries, possibly of different threads, are in batches in which they can be undone. */
  ghost predicate Ordered(h: Hierarchy, outs: seq<seq<Assignment>>, t: nat, k: nat, t': nat, k': nat) {
    At(outs, t, k) && At(outs, t', k') ==> InOrder(h, outs[t][k], outs[t'][k'])
  }

  lemma EntryOf(h: Hierarchy, ver: nat, parts: seq<seq<nat>>, outs: seq<seq<Assignment>>, t: nat, k: nat)
    requires AllScheduled(h, ver, parts, outs) && At(outs, t, k)
    ensures h.Valid() && EntryFits(h, outs[t][k]) && OfVersion(h, ver, outs[t][k].v) && h.VersionRoot(outs[t][k].v) in parts[t]
  {
    assert Scheduled(h, ver, RootSet(parts[t]), outs[t]);
    assert EntryFits(h, outs[t][k]) && Listed(outs[t], outs[t][k].v);
    assert Due(h, ver, RootSet(parts[t]), outs[t][k].v);
  }

  /** Together the threads list every contraction of the version, and each exactly once. */
  lemma EachContractionOnce(h: Hierarchy, ver: nat, roots: set<nat>, parts: seq<seq<nat>>, outs: seq<seq<Assignment>>, v: nat)
    requires h.Valid() && (forall u: nat :: u in roots <==> IsVersionRoot(h.version, h.childs, u, ver)) && Split(roots, parts)
    requires forall r: nat :: h.IsNode(r) && h.parent[r] == r ==> h.version[r] > ver
    requires AllScheduled(h, ver, parts, outs)
    ensures OfVersion(h, ver, v) <==> ListedBy(outs, v)
    ensures forall t: nat, i: nat, t': nat, i': nat {:trigger At(outs, t, i), At(outs, t', i')} ::
              At(outs, t, i) && At(outs, t', i') && outs[t][i].v == outs[t'][i'].v == v ==> t == t' && i == i'
  {
    if OfVersion(h, ver, v) {
      RootIsCollected(h, v);
      var t: nat :| t < |parts| && h.VersionRoot(v) in parts[t];
      assert Due(h, ver, RootSet(parts[t]), v);
      assert Scheduled(h, ver, RootSet(parts[t]), outs[t]) && Listed(outs[t], v);
      var i: nat :| i < |outs[t]| && outs[t][i].v == v;
      assert At(outs, t, i);
    }
    forall t: nat, i: nat | At(outs, t, i) && outs[t][i].v == v ensures OfVersion(h, ver, v) && h.VersionRoot(v) in parts[t] {
      EntryOf(h, ver, parts, outs, t, i);
    }
    forall t: nat, i: nat, t': nat, i': nat | At(outs, t, i) && At(outs, t', i') && outs[t][i].v == outs[t'][i'].v == v
      ensures t == t' && i == i'
    {
      assert Scheduled(h, ver, RootSet(parts[t]), outs[t]);
    }
  }

  /** Contractions that depend on each other are scheduled by the same thread, and so in the right order. */
  lemma AllOrdered(h: Hierarchy, ver: nat, roots: set<nat>, parts: seq<seq<nat>>, outs: seq<seq<Assignment>>, t: nat, k: nat, t': nat, k': nat)
    requires h.Valid() && Split(roots, parts) && AllScheduled(h, ver, parts, outs)
    requires forall r: nat :: h.IsNode(r) && h.parent[r] == r ==> h.version[r] > ver
    ensures Ordered(h, outs, t, k, t', k')
  {
    if At(outs, t, k) && At(outs, t', k') {
      var a, b := outs[t][k], outs[t'][k'];
      EntryOf(h, ver, parts, outs, t, k);
      EntryOf(h, ver, parts, outs, t', k');
      if b.u == a.v || a.u == b.u {
        SameVersionRoot(h, ver, a.v, b.v);
        assert t == t';
        assert Scheduled(h, ver, RootSet(parts[t]), outs[t]) && InOrder(h, outs[t][k], outs[t][k']);
      }
    }
  }

  lemma SameVersionRoot(h: Hierarchy, ver: nat, v: nat, w: nat)
    requires h.Valid() && OfVersion(h, ver, v) && OfVersion(h, ver, w) && (h.parent[w] == v || h.parent[v] == h.parent[w])
    ensures h.VersionRoot(v) == h.VersionRoot(w)
  {
    assert h.ParentOk(v) && h.ParentOk(w);
  }

  // ---------- Slots ----------

  /** Every entry of a list belongs to exactly one group. */
  lemma {:induction false} GroupOf(groups: seq<Group>, out: seq<Assignment>, k: nat) returns (i: nat)
    requires Grouped(groups, out) && k < |out|
    ensures i < |groups| && groups[i].lo <= k < groups[i].lo + groups[i].num
    ensures out[k].batchIndex == groups[i].batch && out[k].batchPos == groups[i].base + (k - groups[i].lo)
    decreases |groups|
  {
    var g := groups[|groups| - 1];
    if k < g.lo {
      i := GroupOf(groups[..|groups| - 1], out[..g.lo], k);
    } else {
      i := |groups| - 1;
      assert Placed(out, g, k - g.lo);
    }
  }

  lemma {:induction false} EntryOfGroup(groups: seq<Group>, out: seq<Assignment>, i: nat, k: nat)
    requires Grouped(groups, out) && i < |groups| && k < groups[i].num
    ensures groups[i].lo + k < |out| && out[groups[i].lo + k].batchIndex == groups[i].batch && out[groups[i].lo + k].batchPos == groups[i].base + k
    decreases |groups|
  {
    var g := groups[|groups| - 1];
    if i < |groups| - 1 {
      EntryOfGroup(groups[..|groups| - 1], out[..g.lo], i, k);
    } else {
      assert Placed(out, g, k);
    }
  }

  ghost predicate Filled(outs: seq<seq<Assignment>>, b: nat, p: nat) {
    exists t: nat, k: nat :: At(outs, t, k) && outs[t][k].batchIndex == b && outs[t][k].batchPos == p
  }

  ghost predicate InSlot(outs: seq<seq<Assignment>>, sizes: seq<nat>, t: nat, k: nat) {
    At(outs, t, k) ==> outs[t][k].batchIndex < |sizes| && outs[t][k].batchPos < sizes[outs[t][k].batchIndex]
  }

  /** Two entries with the same slot are the same entry. */
  ghost predicate Apart(outs: seq<seq<Assignment>>, t: nat, k: nat, t': nat, k': nat) {
    At(outs, t, k) && At(outs, t', k') && (t != t' || k != k') ==>
      outs[t][k].batchIndex != outs[t'][k'].batchIndex || outs[t][k].batchPos != outs[t'][k'].batchPos
  }

  /** Every slot below the size of a batch is filled, every contraction has a slot, and no two share one. */
  lemma EachSlotOnce(logs: seq<seq<Group>>, outs: seq<seq<Assignment>>, ranges: seq<seq<A.Range>>, sizes: seq<nat>, maxBatchSize: nat)
    requires AllGrouped(logs, outs) && Answered(logs, ranges) && |ranges| == |sizes|
    requires forall b: nat :: b < |ranges| ==> A.Tiles(ranges[b], sizes[b], maxBatchSize)
    ensures forall b: nat, p: nat {:trigger Filled(outs, b, p)} :: b < |sizes| && p < sizes[b] ==> Filled(outs, b, p)
    ensures forall t: nat, k: nat {:trigger InSlot(outs, sizes, t, k)} :: InSlot(outs, sizes, t, k)
    ensures forall t: nat, k: nat, t': nat, k': nat {:trigger Apart(outs, t, k, t', k')} :: Apart(outs, t, k, t', k')
  {
    forall b: nat, p: nat {:trigger Filled(outs, b, p)} | b < |sizes| && p < sizes[b] ensures Filled(outs, b, p) {
      var t, k := SlotFilled(logs, outs, ranges, sizes, maxBatchSize, b, p);
    }
    forall t: nat, k: nat ensures InSlot(outs, sizes, t, k) {
      if At(outs, t, k) {
        var i, j := RangeOf(logs, outs, ranges, sizes, maxBatchSize, t, k);
      }
    }
    forall t: nat, k: nat, t': nat, k': nat ensures Apart(outs, t, k, t', k') {
      if At(outs, t, k) && At(outs, t', k') && outs[t][k].batchIndex == outs[t'][k'].batchIndex && outs[t][k].batchPos == outs[t'][k'].batchPos {
        OneSlot(logs, outs, ranges, sizes, maxBatchSize, t, k, t', k');
      }
    }
  }

  lemma SlotFilled(logs: seq<seq<Group>>, outs: seq<seq<Assignment>>, ranges: seq<seq<A.Range>>, sizes: seq<nat>, maxBatchSize: nat, b: nat, p: nat)
    returns (t: nat, k: nat)
    requires AllGrouped(logs, outs) && Answered(logs, ranges) && |ranges| == |sizes| && b < |sizes| && p < sizes[b]
    requires A.Tiles(ranges[b], sizes[b], maxBatchSize)
    ensures At(outs, t, k) && outs[t][k].batchIndex == b && outs[t][k].batchPos == p
  {
    var j := A.TileAt(ranges[b], sizes[b], maxBatchSize, p);
    assert IsRange(ranges, b, j);
    var i: nat;
    t, i :| IsAnswer(logs, t, i) && logs[t][i].batch == b && logs[t][i].base == ranges[b][j].base && logs[t][i].num == ranges[b][j].num;
    EntryOfGroup(logs[t], outs[t], i, p - logs[t][i].base);
    k := logs[t][i].lo + (p - logs[t][i].base);
  }

  /** The group of an entry, and the range that the assigner handed out for it. */
  lemma RangeOf(logs: seq<seq<Group>>, outs: seq<seq<Assignment>>, ranges: seq<seq<A.Range>>, sizes: seq<nat>, maxBatchSize: nat, t: nat, k: nat)
    returns (i: nat, j: nat)
    requires AllGrouped(logs, outs) && Answered(logs, ranges) && |ranges| == |sizes| && At(outs, t, k)
    requires forall b: nat :: b < |ranges| ==> A.Tiles(ranges[b], sizes[b], maxBatchSize)
    ensures IsAnswer(logs, t, i) && outs[t][k].batchIndex == logs[t][i].batch < |ranges|
    ensures logs[t][i].lo <= k && outs[t][k].batchPos == logs[t][i].base + (k - logs[t][i].lo)
    ensures j < |ranges[logs[t][i].batch]| && ranges[logs[t][i].batch][j] == A.Range(logs[t][i].base, logs[t][i].num)
    ensures logs[t][i].base <= outs[t][k].batchPos < logs[t][i].base + logs[t][i].num <= sizes[logs[t][i].batch]
  {
    i := GroupOf(logs[t], outs[t], k);
    assert IsAnswer(logs, t, i);
    var b := logs[t][i].batch;
    j :| 0 <= j < |ranges[b]| && ranges[b][j] == A.Range(logs[t][i].base, logs[t][i].num);
    A.TilesBelow(ranges[b], sizes[b], maxBatchSize);
  }

  lemma OneSlot(logs: seq<seq<Group>>, outs: seq<seq<Assignment>>, ranges: seq<seq<A.Range>>, sizes: seq<nat>, maxBatchSize: nat, t: nat, k: nat, t': nat, k': nat)
    requires AllGrouped(logs, outs) && Answered(logs, ranges) && |ranges| == |sizes| && At(outs, t, k) && At(outs, t', k')
    requires forall b: nat :: b < |ranges| ==> A.Tiles(ranges[b], sizes[b], maxBatchSize)
    requires outs[t][k].batchIndex == outs[t'][k'].batchIndex && outs[t][k].batchPos == outs[t'][k'].batchPos
    ensures t == t' && k == k'
  {
    var i, j := RangeOf(logs, outs, ranges, sizes, maxBatchSize, t, k);
    var i', j' := RangeOf(logs, outs, ranges, sizes, maxBatchSize, t', k');
    var b := logs[t][i].batch;
    var l := A.TileAt(ranges[b], sizes[b], maxBatchSize, outs[t][k].batchPos);
    assert j == l && j' == l;
  }

  /** The threads may start on any split of the roots. */
  lemma SplitStarts(h: Hierarchy, ver: nat, roots: set<nat>, parts: seq<seq<nat>>)
    requires h.Valid() && h.parent != [] && (forall u: nat :: u in roots <==> IsVersionRoot(h.version, h.childs, u, ver)) && Split(roots, parts)
    requires forall t :: 0 <= t < |parts| ==> NoTwice(parts[t])
    ensures CanStart(h, ver, parts)
  {
    forall t | 0 <= t < |parts| ensures PartOk(h, ver, parts[t]) {
      forall r | r in parts[t] ensures h.IsNode(r) && h.version[r] > ver {
        assert r in roots;
      }
    }
  }

  /** All of it together: however the steps of the threads and of their requests are interleaved, once all
      threads are done the slots of the batches hold the contractions of the version, each exactly once and in
      an order in which they can be undone, and no slot is left open. */
  lemma BatchesHoldTheVersion(h: Hierarchy, ver: nat, roots: set<nat>, parts: seq<seq<nat>>, maxBatchSize: nat, run: seq<Action>)
    requires h.Valid() && h.parent != [] && (forall u: nat :: u in roots <==> IsVersionRoot(h.version, h.childs, u, ver)) && Split(roots, parts)
    requires forall t :: 0 <= t < |parts| ==> NoTwice(parts[t])
    requires forall r: nat :: h.IsNode(r) && h.parent[r] == r ==> h.version[r] > ver
    requires maxBatchSize >= 1 && NodesOnly(h, parts)
    requires CanRun(h, ver, Initial(h, ver, parts, maxBatchSize), run) && AllDone(Run(h, ver, Initial(h, ver, parts, maxBatchSize), run))
    ensures var s := Run(h, ver, Initial(h, ver, parts, maxBatchSize), run); var outs, sizes := Lists(s), s.assigner.sizes;
            && (forall b: nat, p: nat {:trigger Filled(outs, b, p)} :: b < |sizes| && p < sizes[b] ==> Filled(outs, b, p))
            && (forall t: nat, k: nat {:trigger InSlot(outs, sizes, t, k)} :: InSlot(outs, sizes, t, k))
            && (forall t: nat, k: nat, t': nat, k': nat {:trigger Apart(outs, t, k, t', k')} :: Apart(outs, t, k, t', k'))
            && (forall v: nat {:trigger OfVersion(h, ver, v)} :: OfVersion(h, ver, v) <==> ListedBy(outs, v))
            && (forall t: nat, k: nat, t': nat, k': nat {:trigger Named(outs, t, k, t', k')} :: Named(outs, t, k, t', k'))
            && (forall t: nat, k: nat, t': nat, k': nat {:trigger Ordered(h, outs, t, k, t', k')} :: Ordered(h, outs, t, k, t', k'))
            && (forall t: nat, k: nat {:trigger At(outs, t, k)} :: At(outs, t, k) ==> EntryFits(h, outs[t][k]))
  {
    hide Filled, InSlot, Apart, Inv, Answered, AllDone, A.Inv, Initial, CanRun, Run, AllGrouped;
    SplitStarts(h, ver, roots, parts);
    InitialInv(h, ver, parts, maxBatchSize);
    RunKeeps(h, ver, parts, Initial(h, ver, parts, maxBatchSize), run);
    var s := Run(h, ver, Initial(h, ver, parts, maxBatchSize), run);
    DoneThreads(h, ver, parts, s);
    A.SizesAtRest(s.assigner);
    var outs := Lists(s);
    EachSlotOnce(Claims(s), outs, s.assigner.ranges, s.assigner.sizes, s.assigner.maxBatchSize);
    forall v: nat ensures OfVersion(h, ver, v) <==> ListedBy(outs, v) {
      EachContractionOnce(h, ver, roots, parts, outs, v);
    }
    forall t: nat, k: nat, t': nat, k': nat ensures Named(outs, t, k, t', k') {
      if At(outs, t, k) {
        EachContractionOnce(h, ver, roots, parts, outs, outs[t][k].v);
      }
    }
    forall t: nat, k: nat, t': nat, k': nat ensures Ordered(h, outs, t, k, t', k') {
      AllOrdered(h, ver, roots, parts, outs, t, k, t', k');
    }
    forall t: nat, k: nat {:trigger At(outs, t, k)} | At(outs, t, k) ensures EntryFits(h, outs[t][k]) {
      EntryOf(h, ver, parts, outs, t, k);
    }
  }
}
