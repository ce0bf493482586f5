/** A partition that stores only its differences to a shared one. */
module DeltaPartition {
  import opened Sums
  import opened DeltaConnectivity

  // With few enough nets it cannot be told from a full copy; otherwise two pin counts share one entry.

  // ---------- The partition as a full copy ----------

  /** The hypergraph below: blocks, weights, and the nets of every node. */
  datatype Structure = Structure(k: nat, numNets: nat, nodeWeight: seq<int>, edgeWeight: seq<int>, edgeSize: seq<nat>, incident: seq<seq<nat>>) {
    ghost predicate Valid() {
      && |incident| == |nodeWeight| && |edgeWeight| == |edgeSize| == numNets
      && forall u: nat {:trigger NetsValid(u)} :: u < |incident| ==> NetsValid(u)
    }

    /** The nets of u exist, and none is listed twice. */
    ghost predicate NetsValid(u: nat)
      requires u < |incident|
    {
      && (forall i :: 0 <= i < |incident[u]| ==> incident[u][i] < numNets)
      && (forall i, j :: 0 <= i < j < |incident[u]| ==> incident[u][i] != incident[u][j])
    }
  }

  datatype Partition = Partition(part: seq<nat>, weight: seq<int>, pinCount: seq<seq<int>>)

  ghost function PinsIn(s: Structure, part: seq<nat>, e: nat, p: nat): set<nat>
    requires |part| == |s.incident|
  {
    set u: nat | u < |part| && part[u] == p && e in s.incident[u]
  }

  ghost function WeightAt(s: Structure, part: seq<nat>, p: nat, u: nat): int
    requires u < |part| == |s.nodeWeight|
  {
    if part[u] == p then s.nodeWeight[u] else 0
  }

  ghost function WeightColumn(s: Structure, part: seq<nat>, p: nat): seq<int>
    requires |part| == |s.nodeWeight|
  {
    seq(|part|, u requires 0 <= u < |part| => WeightAt(s, part, p, u))
  }

  /** Pin counts and block weights are those of the assignment. */
  ghost predicate Consistent(s: Structure, c: Partition) {
    && s.Valid() && |c.part| == |s.nodeWeight| && |c.weight| == s.k && |c.pinCount| == s.numNets
    && (forall u: nat {:trigger c.part[u]} :: u < |c.part| ==> c.part[u] < s.k)
    && (forall p: nat {:trigger c.weight[p]} :: p < s.k ==> c.weight[p] == Sum(WeightColumn(s, c.part, p)))
    && (forall e: nat {:trigger RowOk(s, c, e)} :: e < s.numNets ==> RowOk(s, c, e))
  }

  ghost predicate RowOk(s: Structure, c: Partition, e: nat)
    requires |c.part| == |s.incident| && e < |c.pinCount|
  {
    |c.pinCount[e]| == s.k && forall p: nat {:trigger c.pinCount[e][p]} :: p < s.k ==> c.pinCount[e][p] == |PinsIn(s, c.part, e, p)|
  }

  /** The pin counts of net e after a pin moved. */
  function MovedRow(row: seq<int>, from: nat, to: nat): (r: seq<int>)
    requires from < |row| && to < |row|
    ensures |r| == |row|
  {
    var out := row[from := row[from] - 1];
    out[to := out[to] + 1]
  }

  function RowAt(counts: seq<seq<int>>, nets: seq<nat>, from: nat, to: nat, e: nat): seq<int>
    requires e < |counts|
  {
    if e in nets && from < |counts[e]| && to < |counts[e]| then MovedRow(counts[e], from, to) else counts[e]
  }

  /** A pin of each of the given nets moves from one block to another. */
  function MovedCounts(counts: seq<seq<int>>, nets: seq<nat>, from: nat, to: nat): (r: seq<seq<int>>)
    ensures |r| == |counts|
  {
    seq(|counts|, e requires 0 <= e < |counts| => RowAt(counts, nets, from, to, e))
  }

  /** The move of u into block `to` on the full copy. */
  function Moved(s: Structure, c: Partition, u: nat, to: nat): Partition
    requires u < |c.part| && u < |s.nodeWeight| && u < |s.incident| && c.part[u] < |c.weight| && to < |c.weight|
  {
    var from := c.part[u];
    var w := c.weight[to := c.weight[to] + s.nodeWeight[u]];
    Partition(c.part[u := to], w[from := w[from] - s.nodeWeight[u]], MovedCounts(c.pinCount, s.incident[u], from, to))
  }

  ghost predicate CanMove(s: Structure, c: Partition, u: nat, to: nat) {
    Consistent(s, c) && u < |c.part| && to < s.k && c.part[u] != to
  }

  /** Only the pins of the nets of u change, in the two blocks of the move. */
  lemma PinsAfter(s: Structure, part: seq<nat>, u: nat, to: nat, e: nat, p: nat)
    requires |part| == |s.incident| && u < |part| && part[u] != to
    ensures PinsIn(s, part[u := to], e, p)
            == if e !in s.incident[u] then PinsIn(s, part, e, p)
               else if p == to then PinsIn(s, part, e, p) + {u}
               else PinsIn(s, part, e, p) - {u}
    ensures u in PinsIn(s, part, e, p) <==> e in s.incident[u] && p == part[u]
  {
  }

  lemma MovedPins(s: Structure, c: Partition, u: nat, to: nat, e: nat, p: nat)
    requires CanMove(s, c, u, to) && e < s.numNets && p < s.k && RowOk(s, c, e)
    ensures |PinsIn(s, c.part[u := to], e, p)| == RowAt(c.pinCount, s.incident[u], c.part[u], to, e)[p]
  {
    assert c.pinCount[e][p] == |PinsIn(s, c.part, e, p)|;
    PinsAfter(s, c.part, u, to, e, p);
    hide Consistent, PinsIn;
  }

  lemma MovedWeight(s: Structure, c: Partition, u: nat, to: nat, p: nat)
    requires CanMove(s, c, u, to) && p < s.k
    ensures Moved(s, c, u, to).weight[p] == Sum(WeightColumn(s, c.part[u := to], p))
  {
    var before, after := WeightColumn(s, c.part, p), WeightColumn(s, c.part[u := to], p);
    assert c.weight[p] == Sum(before);
    var x := WeightAt(s, c.part[u := to], p, u);
    forall v: nat | v < |before| ensures after[v] == before[u := x][v] {
      assert before[v] == WeightAt(s, c.part, p, v) && after[v] == WeightAt(s, c.part[u := to], p, v);
    }
    assert after == before[u := x];
    SumUpdate(before, u, x);
    assert before[u] == WeightAt(s, c.part, p, u);
  }

  /** The full copy keeps pin counts and block weights right. */
  lemma MovedConsistent(s: Structure, c: Partition, u: nat, to: nat)
    requires CanMove(s, c, u, to)
    ensures Consistent(s, Moved(s, c, u, to))
  {
    var c' := Moved(s, c, u, to);
    forall p: nat | p < s.k ensures c'.weight[p] == Sum(WeightColumn(s, c'.part, p)) {
      MovedWeight(s, c, u, to, p);
    }
    forall e: nat | e < s.numNets ensures RowOk(s, c', e) {
      assert RowOk(s, c, e) && c'.pinCount[e] == RowAt(c.pinCount, s.incident[u], c.part[u], to, e);
      forall p: nat | p < s.k ensures c'.pinCount[e][p] == |PinsIn(s, c'.part, e, p)| {
        MovedPins(s, c, u, to, e, p);
      }
    }
  }

  lemma CountsNonNegative(s: Structure, c: Partition, e: nat, p: nat)
    requires Consistent(s, c) && e < s.numNets && p < s.k
    ensures |c.pinCount[e]| == s.k && c.pinCount[e][p] >= 0
  {
    assert RowOk(s, c, e) && c.pinCount[e][p] == |PinsIn(s, c.part, e, p)|;
  }

  // ---------- The differences ----------

  const TWO_TO_THE_32: nat := 0x1_0000_0000

  /** Where the difference of a pin count is stored; net ids are 32 bits wide, and so is the product. */
  function Key(s: Structure, e: nat, p: nat): nat {
    (e * s.k + p) % TWO_TO_THE_32
  }

  datatype Delta = Delta(part: map<nat, nat>, weight: seq<int>, pins: map<nat, int>)

  function Stored(pins: map<nat, int>, key: nat): int {
    if key in pins then pins[key] else 0
  }

  function NoDelta(k: nat): Delta {
    Delta(map[], seq(k, p => 0), map[])
  }

  function PartOf(shared: Partition, d: Delta, u: nat): nat
    requires u < |shared.part|
  {
    if u in d.part then d.part[u] else shared.part[u]
  }

  function WeightOf(shared: Partition, d: Delta, p: nat): int
    requires p < |shared.weight| == |d.weight|
  {
    shared.weight[p] + d.weight[p]
  }

  function AtLeastZero(x: int): nat {
    if x < 0 then 0 else x
  }

  /** The pin count that the thread reads. */
  function CountOf(s: Structure, shared: Partition, pins: map<nat, int>, e: nat, p: nat): nat
    requires e < |shared.pinCount| && p < |shared.pinCount[e]|
  {
    AtLeastZero(shared.pinCount[e][p] + Stored(pins, Key(s, e, p)))
  }

  /** One pin of net e moves. */
  function PinMoved(s: Structure, pins: map<nat, int>, e: nat, from: nat, to: nat): map<nat, int> {
    var out := pins[Key(s, e, from) := Stored(pins, Key(s, e, from)) - 1];
    out[Key(s, e, to) := Stored(out, Key(s, e, to)) + 1]
  }

  function PinsMoved(s: Structure, pins: map<nat, int>, nets: seq<nat>, from: nat, to: nat): map<nat, int> {
    if nets == [] then pins
    else PinMoved(s, PinsMoved(s, pins, nets[..|nets| - 1], from, to), nets[|nets| - 1], from, to)
  }

  function DeltaMoved(s: Structure, shared: Partition, d: Delta, u: nat, to: nat): Delta
    requires u < |shared.part| && u < |s.nodeWeight| && u < |s.incident| && PartOf(shared, d, u) < |d.weight| && to < |d.weight|
  {
    var from := PartOf(shared, d, u);
    var w := d.weight[to := d.weight[to] + s.nodeWeight[u]];
    Delta(d.part[u := to], w[from := w[from] - s.nodeWeight[u]], PinsMoved(s, d.pins, s.incident[u], from, to))
  }

  /** The differences d to the shared partition give the partition c. */
  ghost predicate Refines(s: Structure, shared: Partition, d: Delta, c: Partition) {
    && Consistent(s, shared) && Consistent(s, c) && |d.weight| == s.k
    && (forall u: nat {:trigger SamePart(shared, d, c, u)} :: u < |c.part| ==> SamePart(shared, d, c, u))
    && (forall p: nat {:trigger SameWeight(shared, d, c, p)} :: p < s.k ==> SameWeight(shared, d, c, p))
    && PinsExact(s, shared.pinCount, d.pins, c.pinCount)
  }

  ghost predicate SamePart(shared: Partition, d: Delta, c: Partition, u: nat)
    requires u < |c.part| == |shared.part|
  {
    PartOf(shared, d, u) == c.part[u]
  }

  ghost predicate SameWeight(shared: Partition, d: Delta, c: Partition, p: nat)
    requires p < |c.weight| == |shared.weight| == |d.weight|
  {
    WeightOf(shared, d, p) == c.weight[p]
  }

  ghost predicate PinsExact(s: Structure, shared: seq<seq<int>>, pins: map<nat, int>, counts: seq<seq<int>>) {
    && |shared| == |counts| == s.numNets
    && forall e: nat, p: nat {:trigger PinExact(s, shared, pins, counts, e, p)} :: e < s.numNets && p < s.k ==> PinExact(s, shared, pins, counts, e, p)
  }

  ghost predicate PinExact(s: Structure, shared: seq<seq<int>>, pins: map<nat, int>, counts: seq<seq<int>>, e: nat, p: nat)
    requires |shared| == |counts| == s.numNets && e < s.numNets && p < s.k
  {
    |shared[e]| == |counts[e]| == s.k && Stored(pins, Key(s, e, p)) == counts[e][p] - shared[e][p]
  }

  lemma NoDeltaRefines(s: Structure, shared: Partition)
    requires Consistent(s, shared)
    ensures Refines(s, shared, NoDelta(s.k), shared)
  {
    var d := NoDelta(s.k);
    forall e: nat, p: nat | e < s.numNets && p < s.k ensures PinExact(s, shared.pinCount, d.pins, shared.pinCount, e, p) {
      assert RowOk(s, shared, e);
    }
  }

  // ---------- Keys ----------

  /** Every pair of a net and a block has an entry of its own. */
  ghost predicate KeysFit(s: Structure) {
    s.numNets * s.k <= TWO_TO_THE_32
  }

  lemma KeyBelow(s: Structure, e: nat, p: nat)
    requires KeysFit(s) && e < s.numNets && p < s.k
    ensures Key(s, e, p) == e * s.k + p
  {
    var rest := s.numNets - e - 1;
    assert s.numNets * s.k == e * s.k + s.k + rest * s.k;
    assert rest * s.k >= 0;
  }

  lemma SmallerProduct(e: nat, p: nat, f: nat, q: nat, k: nat)
    requires p < k && e < f
    ensures e * k + p < f * k + q
  {
    assert f * k == e * k + k + (f - e - 1) * k;
    assert (f - e - 1) * k >= 0;
  }

  lemma KeysDiffer(s: Structure, e: nat, p: nat, f: nat, q: nat)
    requires KeysFit(s) && e < s.numNets && p < s.k && f < s.numNets && q < s.k && (e != f || p != q)
    ensures Key(s, e, p) != Key(s, f, q)
  {
    KeyBelow(s, e, p);
    KeyBelow(s, f, q);
    if e < f {
      SmallerProduct(e, p, f, q, s.k);
    } else if f < e {
      SmallerProduct(f, q, e, p, s.k);
    }
  }

  // ---------- A move ----------

  /** Moving one more pin is exact as long as the keys fit. */
  lemma PinMovedExact(s: Structure, shared: seq<seq<int>>, pins: map<nat, int>, counts: seq<seq<int>>, e: nat, from: nat, to: nat)
    requires KeysFit(s) && PinsExact(s, shared, pins, counts) && e < s.numNets && from < s.k && to < s.k && from != to
    ensures |counts[e]| == s.k
    ensures PinsExact(s, shared, PinMoved(s, pins, e, from, to), counts[e := MovedRow(counts[e], from, to)])
  {
    assert PinExact(s, shared, pins, counts, e, from);
    var pins', counts' := PinMoved(s, pins, e, from, to), counts[e := MovedRow(counts[e], from, to)];
    KeysDiffer(s, e, from, e, to);
    forall f: nat, q: nat | f < s.numNets && q < s.k ensures PinExact(s, shared, pins', counts', f, q) {
      assert PinExact(s, shared, pins, counts, f, q);
      if f != e || q != from { KeysDiffer(s, f, q, e, from); }
      if f != e || q != to { KeysDiffer(s, f, q, e, to); }
    }
  }

  lemma MovedCountsStep(counts: seq<seq<int>>, nets: seq<nat>, i: nat, from: nat, to: nat)
    requires i < |nets| && nets[i] < |counts| && nets[i] !in nets[..i] && from < |counts[nets[i]]| && to < |counts[nets[i]]|
    ensures MovedCounts(counts, nets[..i], from, to)[nets[i]] == counts[nets[i]]
    ensures MovedCounts(counts, nets[..i + 1], from, to)
            == MovedCounts(counts, nets[..i], from, to)[nets[i] := MovedRow(counts[nets[i]], from, to)]
  {
    var x, y := MovedCounts(counts, nets[..i], from, to), MovedCounts(counts, nets[..i + 1], from, to);
    assert nets[..i + 1] == nets[..i] + [nets[i]];
    forall e: nat | e < |counts| ensures y[e] == x[nets[i] := MovedRow(counts[nets[i]], from, to)][e] {
      assert x[e] == RowAt(counts, nets[..i], from, to, e) && y[e] == RowAt(counts, nets[..i + 1], from, to, e);
    }
  }

  lemma NothingMoved(counts: seq<seq<int>>, from: nat, to: nat)
    ensures MovedCounts(counts, [], from, to) == counts
  {
    forall e: nat | e < |counts| ensures MovedCounts(counts, [], from, to)[e] == counts[e] {
      assert MovedCounts(counts, [], from, to)[e] == RowAt(counts, [], from, to, e);
    }
  }

  lemma {:induction false} PinsMovedExact(s: Structure, shared: seq<seq<int>>, pins: map<nat, int>, c: Partition, u: nat, to: nat, i: nat)
    requires KeysFit(s) && PinsExact(s, shared, pins, c.pinCount) && CanMove(s, c, u, to) && i <= |s.incident[u]|
    ensures PinsExact(s, shared, PinsMoved(s, pins, s.incident[u][..i], c.part[u], to), MovedCounts(c.pinCount, s.incident[u][..i], c.part[u], to))
    decreases i
  {
    var nets, from := s.incident[u], c.part[u];
    if i == 0 {
      NothingMoved(c.pinCount, from, to);
      assert nets[..0] == [];
    } else {
      PinsMovedExact(s, shared, pins, c, u, to, i - 1);
      NextNet(s, c, u, to, i - 1);
      MovedCountsStep(c.pinCount, nets, i - 1, from, to);
      assert nets[..i][..i - 1] == nets[..i - 1];
      hide PinsExact, MovedCounts, MovedRow, PinMoved;
      PinMovedExact(s, shared, PinsMoved(s, pins, nets[..i - 1], from, to), MovedCounts(c.pinCount, nets[..i - 1], from, to), nets[i - 1], from, to);
    }
  }

  lemma NextNet(s: Structure, c: Partition, u: nat, to: nat, i: nat)
    requires CanMove(s, c, u, to) && i < |s.incident[u]|
    ensures s.incident[u][i] < s.numNets && s.incident[u][i] !in s.incident[u][..i]
    ensures |c.pinCount[s.incident[u][i]]| == s.k && RowOk(s, c, s.incident[u][i])
  {
    assert s.NetsValid(u) && RowOk(s, c, s.incident[u][i]);
  }

  /** The move on the differences is the move on the full copy. */
  lemma MoveRefines(s: Structure, shared: Partition, d: Delta, c: Partition, u: nat, to: nat)
    requires KeysFit(s) && Refines(s, shared, d, c) && CanMove(s, c, u, to)
    ensures PartOf(shared, d, u) == c.part[u] && Refines(s, shared, DeltaMoved(s, shared, d, u, to), Moved(s, c, u, to))
  {
    assert SamePart(shared, d, c, u);
    MovedConsistent(s, c, u, to);
    PinsMovedExact(s, shared.pinCount, d.pins, c, u, to, |s.incident[u]|);
    assert s.incident[u][..|s.incident[u]|] == s.incident[u];
    hide Consistent, PinsExact;
    var d', c' := DeltaMoved(s, shared, d, u, to), Moved(s, c, u, to);
    forall v: nat | v < |c.part| ensures SamePart(shared, d', c', v) {
      assert SamePart(shared, d, c, v);
    }
    forall p: nat | p < s.k ensures SameWeight(shared, d', c', p) {
      assert SameWeight(shared, d, c, p);
    }
  }

  // ---------- Runs ----------

  datatype Move = Move(u: nat, to: nat, maxWeight: int)

  ghost predicate DeltaOk(s: Structure, shared: Partition, d: Delta) {
    && Consistent(s, shared) && |d.weight| == s.k
    && forall u: nat {:trigger PartOf(shared, d, u)} :: u < |shared.part| ==> PartOf(shared, d, u) < s.k
  }

  /** A thread-local move is made if the block stays within the given weight. */
  ghost function DeltaStep(s: Structure, shared: Partition, d: Delta, m: Move): (r: Delta)
    requires DeltaOk(s, shared, d)
    ensures DeltaOk(s, shared, r)
  {
    if m.u < |shared.part| && m.to < s.k && m.to != PartOf(shared, d, m.u) && WeightOf(shared, d, m.to) + s.nodeWeight[m.u] <= m.maxWeight then
      var r := DeltaMoved(s, shared, d, m.u, m.to);
      assert forall u: nat :: u < |shared.part| ==> PartOf(shared, r, u) == if u == m.u then m.to else PartOf(shared, d, u);
      r
    else d
  }

  ghost function CopyStep(s: Structure, c: Partition, m: Move): (r: Partition)
    requires Consistent(s, c)
    ensures Consistent(s, r)
  {
    if m.u < |c.part| && m.to < s.k && m.to != c.part[m.u] && c.weight[m.to] + s.nodeWeight[m.u] <= m.maxWeight then
      MovedConsistent(s, c, m.u, m.to);
      Moved(s, c, m.u, m.to)
    else c
  }

  ghost function RunDelta(s: Structure, shared: Partition, moves: seq<Move>): (r: Delta)
    requires Consistent(s, shared)
    ensures DeltaOk(s, shared, r)
  {
    if moves == [] then
      assert forall u: nat :: u < |shared.part| ==> PartOf(shared, NoDelta(s.k), u) == shared.part[u];
      NoDelta(s.k)
    else DeltaStep(s, shared, RunDelta(s, shared, moves[..|moves| - 1]), moves[|moves| - 1])
  }

  ghost function RunCopy(s: Structure, shared: Partition, moves: seq<Move>): (r: Partition)
    requires Consistent(s, shared)
    ensures Consistent(s, r)
  {
    if moves == [] then shared else CopyStep(s, RunCopy(s, shared, moves[..|moves| - 1]), moves[|moves| - 1])
  }

  /** After the moves the thread reads the blocks, weights and pin counts of the full copy. */
  ghost predicate ReadsCopy(s: Structure, shared: Partition, moves: seq<Move>)
    requires Consistent(s, shared)
  {
    var d, c := RunDelta(s, shared, moves), RunCopy(s, shared, moves);
    && |c.part| == |shared.part|
    && (forall u: nat {:trigger SamePart(shared, d, c, u)} :: u < |c.part| ==> SamePart(shared, d, c, u))
    && (forall p: nat {:trigger SameWeight(shared, d, c, p)} :: p < s.k ==> SameWeight(shared, d, c, p))
    && (forall e: nat, p: nat {:trigger SameCount(s, shared, d, c, e, p)} :: e < s.numNets && p < s.k ==> SameCount(s, shared, d, c, e, p))
  }

  ghost predicate SameCount(s: Structure, shared: Partition, d: Delta, c: Partition, e: nat, p: nat)
    requires e < |shared.pinCount| == |c.pinCount| && p < s.k
  {
    |shared.pinCount[e]| == |c.pinCount[e]| == s.k && CountOf(s, shared, d.pins, e, p) == c.pinCount[e][p]
  }

  lemma {:induction false} RunRefines(s: Structure, shared: Partition, moves: seq<Move>)
    requires Consistent(s, shared) && KeysFit(s)
    ensures Refines(s, shared, RunDelta(s, shared, moves), RunCopy(s, shared, moves))
  {
    if moves == [] {
      NoDeltaRefines(s, shared);
    } else {
      var front, m := moves[..|moves| - 1], moves[|moves| - 1];
      RunRefines(s, shared, front);
      StepRefines(s, shared, RunDelta(s, shared, front), RunCopy(s, shared, front), m);
    }
  }

  lemma StepRefines(s: Structure, shared: Partition, d: Delta, c: Partition, m: Move)
    requires KeysFit(s) && Refines(s, shared, d, c) && DeltaOk(s, shared, d)
    ensures Refines(s, shared, DeltaStep(s, shared, d, m), CopyStep(s, c, m))
  {
    if m.u < |c.part| && m.to < s.k {
      assert SamePart(shared, d, c, m.u) && SameWeight(shared, d, c, m.to);
      if m.to != c.part[m.u] {
        MoveRefines(s, shared, d, c, m.u, m.to);
      }
    }
  }

  lemma RefinedIsRead(s: Structure, shared: Partition, moves: seq<Move>)
    requires Consistent(s, shared) && KeysFit(s)
    ensures ReadsCopy(s, shared, moves)
  {
    RunRefines(s, shared, moves);
    var d, c := RunDelta(s, shared, moves), RunCopy(s, shared, moves);
    forall e: nat, p: nat | e < s.numNets && p < s.k ensures SameCount(s, shared, d, c, e, p) {
      assert PinExact(s, shared.pinCount, d.pins, c.pinCount, e, p);
      CountsNonNegative(s, c, e, p);
    }
  }

  // ---------- Too many nets ----------

  ghost function CountRow(s: Structure, part: seq<nat>, e: nat): seq<int>
    requires |part| == |s.incident|
  {
    seq(s.k, p requires 0 <= p < s.k => |PinsIn(s, part, e, p)|)
  }

  ghost function WeightIn(s: Structure, part: seq<nat>, p: nat): int
    requires |part| == |s.nodeWeight|
  {
    Sum(WeightColumn(s, part, p))
  }

  /** The partition with the given blocks. */
  ghost function PartitionOf(s: Structure, part: seq<nat>): (c: Partition)
    requires s.Valid() && |part| == |s.nodeWeight| && forall u: nat {:trigger part[u]} :: u < |part| ==> part[u] < s.k
    ensures Consistent(s, c) && c.part == part
  {
    var c := Partition(part, seq(s.k, p requires 0 <= p < s.k => WeightIn(s, part, p)), seq(s.numNets, e requires 0 <= e < s.numNets => CountRow(s, part, e)));
    assert forall p: nat :: p < s.k ==> c.weight[p] == WeightIn(s, part, p);
    assert forall e: nat {:trigger RowOk(s, c, e)} :: e < s.numNets ==> c.pinCount[e] == CountRow(s, part, e) && RowOk(s, c, e);
    c
  }

  /** Node 0 has net 0 only, node 1 has all others. */
  ghost function TwoNodes(n: nat, k: nat): (s: Structure)
    requires n > 0
    ensures s.Valid()
  {
    var others := seq(n - 1, i requires 0 <= i < n - 1 => i + 1);
    var s := Structure(k, n, [1, 1], seq(n, e => 1), seq(n, e => 1), [[0], others]);
    assert s.NetsValid(0) && s.NetsValid(1);
    s
  }

  /** With more pairs than keys, moving one node makes the thread read a wrong pin count of a net that the
      node does not belong to. */
  lemma WrongCount(n: nat, k: nat) returns (s: Structure, shared: Partition, moves: seq<Move>)
    requires 2 <= k < TWO_TO_THE_32 && n * k > TWO_TO_THE_32
    ensures Consistent(s, shared) && s.numNets == n && s.k == k && !ReadsCopy(s, shared, moves)
  {
    s := TwoNodes(n, k);
    var e, p := Collision(n, k);
    shared := PartitionOf(s, [0, p]);
    var m := Move(0, 1, shared.weight[1] + 1);
    moves := [m];
    var d0 := NoDelta(k);
    assert moves[..0] == [];
    assert RunDelta(s, shared, []) == d0 && RunCopy(s, shared, []) == shared;
    var d, c := RunDelta(s, shared, moves), RunCopy(s, shared, moves);
    assert d == DeltaMoved(s, shared, d0, 0, 1) && c == Moved(s, shared, 0, 1);
    WrongRead(s, shared, n, k, e, p);
    assert !SameCount(s, shared, d, c, e, p);
  }

  /** A net and a block whose key is that of net 0 and block 0. */
  lemma Collision(n: nat, k: nat) returns (e: nat, p: nat)
    requires 2 <= k < TWO_TO_THE_32 && n * k > TWO_TO_THE_32
    ensures 0 < e < n && p < k && e * k + p == TWO_TO_THE_32
  {
    e, p := TWO_TO_THE_32 / k, TWO_TO_THE_32 % k;
    assert e * k + p == TWO_TO_THE_32;
    assert e * k == n * k + (e - n) * k;
    assert e >= n ==> (e - n) * k >= 0;
    assert e == 0 ==> e * k == 0;
  }

  lemma WrongRead(s: Structure, shared: Partition, n: nat, k: nat, e: nat, p: nat)
    requires 2 <= k && 0 < e < n && p < k && e * k + p == TWO_TO_THE_32 && k < TWO_TO_THE_32
    requires s == TwoNodes(n, k) && Consistent(s, shared) && shared.part == [0, p]
    ensures var d, c := DeltaMoved(s, shared, NoDelta(k), 0, 1), Moved(s, shared, 0, 1);
            |shared.pinCount[e]| == k && |c.pinCount[e]| == k && CountOf(s, shared, d.pins, e, p) == 0 && c.pinCount[e][p] == 1
  {
    assert RowOk(s, shared, e) && shared.pinCount[e][p] == |PinsIn(s, shared.part, e, p)|;
    assert s.incident[1][e - 1] == e;
    assert PinsIn(s, shared.part, e, p) == {1};
    assert Key(s, e, p) == 0 && Key(s, 0, 0) == 0 && Key(s, 0, 1) == 1;
    var pins := PinsMoved(s, map[], [0], 0, 1);
    assert [0][..0] == [];
    assert PinsMoved(s, map[], [], 0, 1) == map[];
    assert pins == PinMoved(s, map[], 0, 0, 1);
    var c := Moved(s, shared, 0, 1);
    assert c.pinCount[e] == RowAt(shared.pinCount, [0], 0, 1, e);
  }

  /** Every run of local moves over n nets and k blocks reads what a full copy would hold. */
  ghost predicate AlwaysReadsCopy(n: nat, k: nat) {
    forall s: Structure, shared: Partition, moves: seq<Move> {:trigger RunReads(s, shared, moves)} ::
      Consistent(s, shared) && s.numNets == n && s.k == k ==> RunReads(s, shared, moves)
  }

  ghost predicate RunReads(s: Structure, shared: Partition, moves: seq<Move>) {
    Consistent(s, shared) ==> ReadsCopy(s, shared, moves)
  }

  /** Local moves are exact exactly if the product of nets and blocks fits into a net id. */
  lemma ExactExactlyIfKeysFit(n: nat, k: nat)
    requires 2 <= k < TWO_TO_THE_32
    ensures AlwaysReadsCopy(n, k) <==> n * k <= TWO_TO_THE_32
  {
    if n * k <= TWO_TO_THE_32 {
      forall s: Structure, shared: Partition, moves: seq<Move> | Consistent(s, shared) && s.numNets == n && s.k == k ensures RunReads(s, shared, moves) {
        RefinedIsRead(s, shared, moves);
      }
    } else {
      var s, shared, moves := WrongCount(n, k);
      assert !RunReads(s, shared, moves);
    }
  }

  // ---------- The thread-local partition ----------

  /** What is reported about a net of the moved node. */
  datatype SyncUpdate = SyncUpdate(net: nat, from: nat, to: nat, edgeWeight: int, edgeSize: nat, pinsInFromAfter: nat, pinsInToAfter: nat, blocksAfter: seq<Word>)

  ghost function Connected(row: seq<int>): set<nat> {
    set p: nat | p < |row| && row[p] > 0
  }

  /** The report for net e whose pin counts are `row` after the move. */
  ghost predicate UpdateOk(s: Structure, row: seq<int>, e: nat, from: nat, to: nat, a: SyncUpdate)
    requires from < |row| && to < |row| && e < |s.edgeWeight| == |s.edgeSize|
  {
    && a.net == e && a.from == from && a.to == to && a.edgeWeight == s.edgeWeight[e] && a.edgeSize == s.edgeSize[e]
    && a.pinsInFromAfter == row[from] && a.pinsInToAfter == row[to] && Blocks(a.blocksAfter) == Connected(row)
  }

  /** The connectivity sets of the shared partition are the blocks with at least one pin. */
  ghost predicate SetsOk(s: Structure, shared: Partition, sets: seq<seq<Word>>) {
    && |sets| == |shared.pinCount| == s.numNets
    && forall e: nat {:trigger sets[e]} :: e < |sets| ==> |sets[e]| == Words(s.k) && WordsOk(sets[e]) && Blocks(sets[e]) == Connected(shared.pinCount[e])
  }

  ghost predicate SetExact(sets: seq<seq<Word>>, toggled: set<nat>, row: seq<int>, e: nat)
    requires e < |sets|
  {
    Xor(Blocks(sets[e]), toggled) == Connected(row)
  }

  lemma RowMoved(row: seq<int>, from: nat, to: nat)
    requires from < |row| && to < |row| && from != to && row[from] >= 1 && row[to] >= 0
    ensures var row' := MovedRow(row, from, to);
            Connected(row') == (if row'[from] == 0 then Connected(row) - {from} else Connected(row)) + {to}
    ensures from in Connected(row) && (to in Connected(row) <==> MovedRow(row, from, to)[to] != 1)
  {
  }

  lemma PinsIrrelevant(s: Structure, shared: Partition, d: Delta, pins: map<nat, int>)
    requires DeltaOk(s, shared, d)
    ensures DeltaOk(s, shared, d.(pins := pins))
  {
    forall u: nat | u < |shared.part| ensures PartOf(shared, d.(pins := pins), u) < s.k {
      assert PartOf(shared, d, u) < s.k;
    }
  }

  function TogglesAfter(toggled: set<nat>, from: nat, to: nat, fromAfter: nat, toAfter: nat): set<nat> {
    var t := if fromAfter == 0 then Xor(toggled, {from}) else toggled;
    if toAfter == 1 then Xor(t, {to}) else t
  }

  /** The set stays exact if a block is toggled when its last pin leaves or its first pin comes. */
  lemma SetMoved(sets: seq<seq<Word>>, toggled: set<nat>, row: seq<int>, e: nat, from: nat, to: nat)
    requires e < |sets| && from < |row| && to < |row| && from != to && row[from] >= 1 && row[to] >= 0 && SetExact(sets, toggled, row, e)
    ensures var row' := MovedRow(row, from, to);
            row'[from] >= 0 && row'[to] >= 0 && SetExact(sets, TogglesAfter(toggled, from, to, row'[from], row'[to]), row', e)
  {
    var row' := MovedRow(row, from, to);
    RowMoved(row, from, to);
    var b, t := Blocks(sets[e]), TogglesAfter(toggled, from, to, row'[from], row'[to]);
    hide Blocks, Connected;
    forall p: nat ensures p in Xor(b, t) <==> p in Connected(row') {
      assert p in Xor(b, toggled) <==> p in Connected(row);
      assert from in Xor(b, toggled);
    }
  }

  lemma SetIs(sets: seq<seq<Word>>, toggled: set<nat>, row: seq<int>, e: nat)
    requires e < |sets| && SetExact(sets, toggled, row, e)
    ensures Xor(Blocks(sets[e]), toggled) == Connected(row)
  {
  }

  lemma NetInRange(s: Structure, shared: Partition, sets: seq<seq<Word>>, e: nat)
    requires Consistent(s, shared) && SetsOk(s, shared, sets) && e < s.numNets
    ensures |shared.pinCount| == s.numNets == |sets| == |s.edgeWeight| == |s.edgeSize| && |shared.pinCount[e]| == s.k
    ensures |sets[e]| == Words(s.k) && WordsOk(sets[e])
  {
    assert RowOk(s, shared, e);
  }

  lemma KeysOfNet(s: Structure, e: nat, from: nat, to: nat)
    requires from < s.k && to < s.k && from != to && s.k < TWO_TO_THE_32
    ensures Key(s, e, from) != Key(s, e, to)
  {
  }

  lemma CountsAfter(s: Structure, shared: Partition, pins: map<nat, int>, counts: seq<seq<int>>, e: nat, from: nat, to: nat)
    requires KeysFit(s) && PinsExact(s, shared.pinCount, pins, counts) && e < s.numNets && from < s.k && to < s.k && from != to
    requires |counts[e]| == s.k && counts[e][from] >= 1 && counts[e][to] >= 0
    ensures PinsExact(s, shared.pinCount, PinMoved(s, pins, e, from, to), counts[e := MovedRow(counts[e], from, to)])
    ensures |shared.pinCount[e]| == s.k
    ensures CountOf(s, shared, PinMoved(s, pins, e, from, to), e, from) == MovedRow(counts[e], from, to)[from]
    ensures CountOf(s, shared, PinMoved(s, pins, e, from, to), e, to) == MovedRow(counts[e], from, to)[to]
  {
    assert PinExact(s, shared.pinCount, pins, counts, e, from) && PinExact(s, shared.pinCount, pins, counts, e, to);
    KeysDiffer(s, e, from, e, to);
    PinMovedExact(s, shared.pinCount, pins, counts, e, from, to);
  }

  /** The report about the j-th net. */
  ghost predicate ReportOk(s: Structure, counts: seq<seq<int>>, nets: seq<nat>, from: nat, to: nat, updates: seq<SyncUpdate>, j: nat) {
    && j < |nets| && j < |updates| && nets[j] < |counts| && nets[j] < |s.edgeWeight| == |s.edgeSize|
    && from < |counts[nets[j]]| && to < |counts[nets[j]]|
    && UpdateOk(s, MovedRow(counts[nets[j]], from, to), nets[j], from, to, updates[j])
  }

  ghost predicate ReportedUpTo(s: Structure, counts: seq<seq<int>>, nets: seq<nat>, from: nat, to: nat, updates: seq<SyncUpdate>, i: nat) {
    forall j: nat {:trigger ReportOk(s, counts, nets, from, to, updates, j)} :: j < i ==> ReportOk(s, counts, nets, from, to, updates, j)
  }

  /** Every net is reported once, with its pin counts and blocks after the move. */
  ghost predicate Reported(s: Structure, counts: seq<seq<int>>, nets: seq<nat>, from: nat, to: nat, updates: seq<SyncUpdate>) {
    |updates| == |nets| && ReportedUpTo(s, counts, nets, from, to, updates, |nets|)
  }

  lemma OneMoreReport(s: Structure, counts: seq<seq<int>>, nets: seq<nat>, from: nat, to: nat, updates: seq<SyncUpdate>, i: nat, update: SyncUpdate)
    requires ReportedUpTo(s, counts, nets, from, to, updates, i) && |updates| == i < |nets|
    requires nets[i] < |counts| && nets[i] < |s.edgeWeight| == |s.edgeSize| && from < |counts[nets[i]]| && to < |counts[nets[i]]|
    requires UpdateOk(s, MovedRow(counts[nets[i]], from, to), nets[i], from, to, update)
    ensures ReportedUpTo(s, counts, nets, from, to, updates + [update], i + 1)
  {
    hide UpdateOk;
    forall j: nat | j < i + 1 ensures ReportOk(s, counts, nets, from, to, updates + [update], j) {
      if j < i { assert ReportOk(s, counts, nets, from, to, updates, j); }
    }
  }

  /** The stored pin counts are those of c, in which u can move. */
  ghost predicate PinsFollow(s: Structure, shared: seq<seq<int>>, pins: map<nat, int>, c: Partition, u: nat, from: nat, to: nat) {
    KeysFit(s) && CanMove(s, c, u, to) && c.part[u] == from && PinsExact(s, shared, pins, c.pinCount)
  }

  lemma NetReady(s: Structure, shared: seq<seq<int>>, pins: map<nat, int>, c: Partition, u: nat, from: nat, to: nat, i: nat)
    requires PinsFollow(s, shared, pins, c, u, from, to) && i < |s.incident[u]|
    ensures var nets := s.incident[u]; var e := nets[i];
            && KeysFit(s) && e < s.numNets == |c.pinCount| == |s.edgeWeight| == |s.edgeSize| && |c.pinCount[e]| == s.k && from < s.k && to < s.k
            && PinsExact(s, shared, PinsMoved(s, pins, nets[..i], from, to), MovedCounts(c.pinCount, nets[..i], from, to))
            && MovedCounts(c.pinCount, nets[..i], from, to)[e] == c.pinCount[e] && c.pinCount[e][from] >= 1 && c.pinCount[e][to] >= 0
            && MovedCounts(c.pinCount, nets[..i + 1], from, to) == MovedCounts(c.pinCount, nets[..i], from, to)[e := MovedRow(c.pinCount[e], from, to)]
  {
    var e := s.incident[u][i];
    PinsMovedExact(s, shared, pins, c, u, to, i);
    NextNet(s, c, u, to, i);
    MovedCountsStep(c.pinCount, s.incident[u], i, from, to);
    CountsNonNegative(s, c, e, to);
    MoverIsPin(s, c, u, e);
  }

  lemma MoverIsPin(s: Structure, c: Partition, u: nat, e: nat)
    requires Consistent(s, c) && u < |c.part| && e in s.incident[u] && e < s.numNets && c.part[u] < s.k && RowOk(s, c, e)
    ensures c.pinCount[e][c.part[u]] >= 1
  {
    var pins := PinsIn(s, c.part, e, c.part[u]);
    assert c.pinCount[e][c.part[u]] == |pins|;
    assert |pins| == 0 ==> pins == {};
    assert u in pins;
  }

  lemma MoveStays(s: Structure, shared: Partition, d: Delta, u: nat, to: nat)
    requires DeltaOk(s, shared, d) && u < |shared.part| && to < s.k
    ensures DeltaOk(s, shared, DeltaMoved(s, shared, d, u, to)) && DeltaOk(s, shared, DeltaMoved(s, shared, d, u, to).(pins := d.pins))
  {
    var r := DeltaMoved(s, shared, d, u, to);
    forall v: nat | v < |shared.part| ensures PartOf(shared, r, v) < s.k {
      assert PartOf(shared, d, v) < s.k;
    }
    PinsIrrelevant(s, shared, r, d.pins);
  }

  lemma MoveFollows(s: Structure, shared: Partition, d: Delta, c: Partition, u: nat, to: nat)
    requires KeysFit(s) && Refines(s, shared, d, c) && u < |c.part| && to < s.k && PartOf(shared, d, u) != to
    ensures CanMove(s, c, u, to) && c.part[u] == PartOf(shared, d, u) && PinsFollow(s, shared.pinCount, d.pins, c, u, c.part[u], to)
    ensures Refines(s, shared, DeltaMoved(s, shared, d, u, to), Moved(s, c, u, to))
    ensures Moved(s, c, u, to).pinCount == MovedCounts(c.pinCount, s.incident[u], c.part[u], to)
  {
    assert SamePart(shared, d, c, u);
    MoveRefines(s, shared, d, c, u, to);
  }

  class DeltaPartitionedHypergraph {
    const s: Structure
    const shared: Partition
    const sharedSets: seq<seq<Word>>
    var partIds: map<nat, nat>
    var weights: seq<int>
    var pins: map<nat, int>
    const connectivity: DeltaConnectivitySet

    constructor (s: Structure, shared: Partition, sharedSets: seq<seq<Word>>)
      requires Consistent(s, shared) && SetsOk(s, shared, sharedSets) && s.k < TWO_TO_THE_32
      ensures Valid() && fresh(connectivity) && this.s == s && this.shared == shared && this.sharedSets == sharedSets
      ensures D() == NoDelta(s.k) && SetsExact(shared.pinCount)
    {
      this.s, this.shared, this.sharedSets := s, shared, sharedSets;
      partIds, weights, pins := map[], seq(s.k, p => 0), map[];
      connectivity := new DeltaConnectivitySet(s.k);
      new;
      NothingToggled();
    }

    ghost function D(): Delta
      reads this
    {
      Delta(partIds, weights, pins)
    }

    ghost predicate Valid()
      reads this, connectivity
    {
      DeltaOk(s, shared, D()) && SetsOk(s, shared, sharedSets) && connectivity.Valid() && connectivity.k == s.k < TWO_TO_THE_32
    }

    /** The connectivity sets that the thread reads are the blocks with at least one pin. */
    ghost predicate SetsExact(counts: seq<seq<int>>)
      reads connectivity
    {
      && connectivity.Valid() && |counts| == |sharedSets|
      && forall e: nat {:trigger NetExact(counts, e)} :: e < |counts| ==> NetExact(counts, e)
    }

    ghost predicate NetExact(counts: seq<seq<int>>, e: nat)
      reads connectivity
      requires connectivity.Valid() && e < |counts| == |sharedSets|
    {
      SetExact(sharedSets, connectivity.Toggled(e), counts[e], e)
    }

    lemma NothingToggled()
      requires connectivity.Valid() && |shared.pinCount| == |sharedSets|
      requires forall e: nat :: e < |sharedSets| ==> connectivity.Toggled(e) == {} && Blocks(sharedSets[e]) == Connected(shared.pinCount[e])
      ensures SetsExact(shared.pinCount)
    {
      forall e: nat | e < |sharedSets| ensures NetExact(shared.pinCount, e) {
        assert Xor(Blocks(sharedSets[e]), {}) == Blocks(sharedSets[e]);
      }
    }

    method PinCountInPart(e: nat, p: nat) returns (n: nat)
      requires Valid() && e < s.numNets && p < s.k
      ensures |shared.pinCount[e]| == s.k && n == CountOf(s, shared, pins, e, p)
    {
      assert RowOk(s, shared, e);
      n := AtLeastZero(shared.pinCount[e][p] + Stored(pins, Key(s, e, p)));
    }

    /** Counts the pin of net e that moves; the results are the pin counts afterwards. */
    method CountPin(e: nat, from: nat, to: nat) returns (fromAfter: nat, toAfter: nat)
      requires e < |shared.pinCount| && from < |shared.pinCount[e]| && to < |shared.pinCount[e]| && Key(s, e, from) != Key(s, e, to)
      modifies `pins
      ensures pins == PinMoved(s, old(pins), e, from, to)
      ensures fromAfter == CountOf(s, shared, pins, e, from) && toAfter == CountOf(s, shared, pins, e, to)
    {
      pins := pins[Key(s, e, from) := Stored(pins, Key(s, e, from)) - 1];
      fromAfter := AtLeastZero(shared.pinCount[e][from] + Stored(pins, Key(s, e, from)));
      pins := pins[Key(s, e, to) := Stored(pins, Key(s, e, to)) + 1];
      toAfter := AtLeastZero(shared.pinCount[e][to] + Stored(pins, Key(s, e, to)));
    }

    method UpdateConnectivitySet(e: nat, from: nat, to: nat, fromAfter: nat, toAfter: nat)
      requires connectivity.Valid() && from < connectivity.k && to < connectivity.k
      modifies connectivity
      ensures connectivity.Valid() && connectivity.Toggled(e) == TogglesAfter(old(connectivity.Toggled(e)), from, to, fromAfter, toAfter)
      ensures forall f: nat :: f != e ==> connectivity.Toggled(f) == old(connectivity.Toggled(f))
    {
      if fromAfter == 0 {
        connectivity.Toggle(e, from);
      }
      if toAfter == 1 {
        connectivity.Toggle(e, to);
      }
    }

    /** Moves one pin of net e and reports it. */
    method MovePin(e: nat, from: nat, to: nat, ghost exact: bool, ghost counts: seq<seq<int>>) returns (update: SyncUpdate)
      requires Valid() && e < s.numNets && from < s.k && to < s.k && from != to
      requires exact ==> KeysFit(s) && PinsExact(s, shared.pinCount, pins, counts) && SetsExact(counts)
      requires exact ==> |counts[e]| == s.k && counts[e][from] >= 1 && counts[e][to] >= 0
      modifies `pins, connectivity
      ensures Valid() && pins == PinMoved(s, old(pins), e, from, to)
      ensures exact ==> PinsExact(s, shared.pinCount, pins, counts[e := MovedRow(counts[e], from, to)])
      ensures exact ==> SetsExact(counts[e := MovedRow(counts[e], from, to)]) && UpdateOk(s, MovedRow(counts[e], from, to), e, from, to, update)
    {
      NetInRange(s, shared, sharedSets, e);
      KeysOfNet(s, e, from, to);
      ghost var row := if exact then MovedRow(counts[e], from, to) else [];
      ghost var counts' := if exact then counts[e := row] else counts;
      if exact { assert NetExact(counts, e); }
      PinsIrrelevant(s, shared, D(), PinMoved(s, pins, e, from, to));
      hide Consistent, DeltaOk, SetsOk, PinsExact, KeysFit, DeltaConnectivitySet.Valid, Key, PinMoved, CountOf, SetExact, TogglesAfter, Connected, MovedRow, Blocks, Xor;
      var fromAfter, toAfter := CountPin(e, from, to);
      if exact { CountsAfter(s, shared, old(pins), counts, e, from, to); }
      UpdateConnectivitySet(e, from, to, fromAfter, toAfter);
      var blocks := connectivity.DeepCopy(e, sharedSets[e]);
      update := SyncUpdate(e, from, to, s.edgeWeight[e], s.edgeSize[e], fromAfter, toAfter, blocks);
      if exact {
        SetMoved(sharedSets, old(connectivity.Toggled(e)), counts[e], e, from, to);
        SetIs(sharedSets, connectivity.Toggled(e), row, e);
        forall f: nat | f < |counts'| ensures NetExact(counts', f) {
          assert old(NetExact(counts, f));
        }
      }
    }

    /** Moves one pin of each net of u. */
    method MovePins(u: nat, from: nat, to: nat, ghost exact: bool, ghost c: Partition) returns (updates: seq<SyncUpdate>)
      requires Valid() && u < |shared.part| && from < s.k && to < s.k && from != to
      requires exact ==> PinsFollow(s, shared.pinCount, pins, c, u, from, to) && SetsExact(c.pinCount)
      modifies `pins, connectivity
      ensures Valid() && pins == PinsMoved(s, old(pins), s.incident[u], from, to)
      ensures exact ==> SetsExact(MovedCounts(c.pinCount, s.incident[u], from, to)) && Reported(s, c.pinCount, s.incident[u], from, to, updates)
    {
      var nets := s.incident[u];
      ghost var pins0 := pins;
      ghost var counts := if exact then c.pinCount else [];
      updates := [];
      assert nets[..0] == [];
      NothingMoved(counts, from, to);
      assert s.NetsValid(u);
      hide PinsFollow, PinsExact, DeltaPartitionedHypergraph.SetsExact, Consistent, KeysFit, MovedCounts, MovedRow, PinMoved, DeltaPartitionedHypergraph.Valid;
      for i := 0 to |nets|
        invariant Valid() && pins == PinsMoved(s, pins0, nets[..i], from, to) && |updates| == i
        invariant exact ==> SetsExact(MovedCounts(counts, nets[..i], from, to)) && ReportedUpTo(s, counts, nets, from, to, updates, i)
      {
        assert nets[..i + 1] == nets[..i] + [nets[i]] && nets[..i + 1][..i] == nets[..i];
        if exact { NetReady(s, shared.pinCount, pins0, c, u, from, to, i); }
        ghost var before := MovedCounts(counts, nets[..i], from, to);
        var update := MovePin(nets[i], from, to, exact, before);
        if exact { OneMoreReport(s, counts, nets, from, to, updates, i, update); }
        updates := updates + [update];
      }
      assert nets[..|nets|] == nets;
    }

    /** The move itself. */
    method ApplyMove(u: nat, from: nat, to: nat, ghost exact: bool, ghost c: Partition) returns (updates: seq<SyncUpdate>)
      requires Valid() && u < |shared.part| && to < s.k && from == PartOf(shared, D(), u) && from != to
      requires exact ==> PinsFollow(s, shared.pinCount, pins, c, u, from, to) && SetsExact(c.pinCount)
      modifies this, connectivity
      ensures Valid() && D() == old(DeltaMoved(s, shared, D(), u, to))
      ensures exact ==> SetsExact(MovedCounts(c.pinCount, s.incident[u], from, to)) && Reported(s, c.pinCount, s.incident[u], from, to, updates)
    {
      assert from < s.k;
      MoveStays(s, shared, D(), u, to);
      var wu := s.nodeWeight[u];
      hide PinsFollow, DeltaPartitionedHypergraph.SetsExact, Consistent, MovedCounts, PinsMoved, DeltaOk, SetsOk, Reported;
      partIds := partIds[u := to];
      weights := weights[to := weights[to] + wu];
      weights := weights[from := weights[from] - wu];
      updates := MovePins(u, from, to, exact, c);
    }

    /** Moves u into block `to` for this thread only, if the block stays within the given weight. */
    method ChangeNodePart(u: nat, from: nat, to: nat, maxWeightTo: int, ghost c: Partition) returns (moved: bool, updates: seq<SyncUpdate>)
      requires Valid() && u < |shared.part| && to < s.k && from == PartOf(shared, D(), u) && from != to
      modifies this, connectivity
      ensures Valid() && moved == old(WeightOf(shared, D(), to) + s.nodeWeight[u] <= maxWeightTo)
      ensures D() == if moved then DeltaMoved(s, shared, old(D()), u, to) else old(D())
      ensures !moved ==> updates == [] && forall e: nat :: connectivity.Toggled(e) == old(connectivity.Toggled(e))
      ensures moved && old(KeysFit(s) && Refines(s, shared, D(), c) && SetsExact(c.pinCount)) ==>
                && CanMove(s, c, u, to) && Refines(s, shared, D(), Moved(s, c, u, to)) && SetsExact(Moved(s, c, u, to).pinCount)
                && Reported(s, c.pinCount, s.incident[u], from, to, updates)
    {
      ghost var exact := KeysFit(s) && Refines(s, shared, D(), c) && SetsExact(c.pinCount);
      updates := [];
      moved := shared.weight[to] + weights[to] + s.nodeWeight[u] <= maxWeightTo;
      if moved {
        if exact { MoveFollows(s, shared, D(), c, u, to); }
        hide *;
        updates := ApplyMove(u, from, to, exact, c);
      }
    }

    /** Back to the shared partition. */
    method Clear()
      requires Valid()
      modifies this, connectivity
      ensures Valid() && D() == NoDelta(s.k) && SetsExact(shared.pinCount)
    {
      weights := seq(s.k, p => 0);
      partIds, pins := map[], map[];
      connectivity.Reset();
      NothingToggled();
      assert forall u: nat :: u < |shared.part| ==> PartOf(shared, NoDelta(s.k), u) == shared.part[u];
    }
  }
}
