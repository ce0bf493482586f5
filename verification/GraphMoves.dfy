/** Concurrent node moves on a partitioned graph. */
module GraphMoves {
  import opened Sums

  // Any number of threads move nodes between blocks. A move first books the node's weight in the target
  // block and gives up if the limit is exceeded; otherwise it walks over the incident edges, synchronizing
  // with moves of the other endpoint through one record per edge, and only then stores the new block of the
  // node. Every atomic access of the source is one action here.

  const VERSIONS: nat := 0x1_0000_0000
  const INVALID_PARTITION: int := -1

  /** An undirected edge, addressed by its unique id; both directed copies share the record. */
  datatype Edge = Edge(smaller: nat, larger: nat, weight: int) {
    predicate SinglePin() {
      smaller == larger
    }

    predicate Joins(u: nat) {
      u == smaller || u == larger
    }

    function Other(u: nat): nat {
      if u == smaller then larger else smaller
    }
  }

  /** `limit[p]` is the weight limit every move into block p is checked against. */
  datatype Graph = Graph(nodeWeight: seq<nat>, edges: seq<Edge>, incident: seq<seq<nat>>, limit: seq<int>) {
    ghost predicate Valid() {
      && |incident| == |nodeWeight|
      && (forall e {:trigger edges[e]} :: 0 <= e < |edges| ==>
            edges[e].smaller <= edges[e].larger < |nodeWeight|
            && (!edges[e].SinglePin() ==> e in incident[edges[e].smaller] && e in incident[edges[e].larger]))
      && (forall u, i {:trigger incident[u][i]} :: 0 <= u < |incident| && 0 <= i < |incident[u]| ==>
            incident[u][i] < |edges| && edges[incident[u][i]].Joins(u))
      && (forall u, i, j {:trigger incident[u][i], incident[u][j]} ::
            0 <= u < |incident| && 0 <= i < j < |incident[u]| && incident[u][i] == incident[u][j] ==>
              edges[incident[u][i]].SinglePin())
    }

    predicate IsBlock(p: int) {
      0 <= p < |limit|
    }
  }

  /** The per-edge record: the blocks both endpoints were last moved to, and the version they belong to. */
  datatype EdgeMove = EdgeMove(blockOfSmaller: int, blockOfLarger: int, version: nat) {
    function Block(ofSmaller: bool): int {
      if ofSmaller then blockOfSmaller else blockOfLarger
    }
  }

  /** Where a thread is inside a move of node u. */
  datatype Thread =
    | Idle
    | Booked(u: nat, from: int, to: int, weightAfter: int)
    | Syncing(u: nat, from: int, to: int, i: nat)
    | Locking(u: nat, from: int, to: int, i: nat, other: int)
  {
    predicate Moves(x: nat) {
      !Idle? && u == x
    }

    predicate InEdgeLoop() {
      Syncing? || Locking?
    }
  }

  /** `reported[e]` adds up the cut changes computed from the pin counts reported for edge e, and
      `base` holds the blocks at the last change of the version. `bumps` counts version changes. */
  datatype State = State(partIds: seq<int>, partWeights: seq<int>, sync: seq<EdgeMove>, version: nat,
                         threads: seq<Thread>, reported: seq<int>, base: seq<int>, bumps: nat)

  datatype Action =
    | Book(t: nat, u: nat, to: int)
    | Reject(t: nat)
    | Accept(t: nat)
    | SkipSinglePin(t: nat)
    | ReadOther(t: nat)
    | Synchronize(t: nat)
    | Store(t: nat)
    | Rephase(partIds: seq<int>)

  // ---------- The actions ----------

  /** The cut change computed from the two reported pin counts of an edge of size two. */
  function AttributedGain(pinCountInFromAfter: int, pinCountInToAfter: int, weight: int): int {
    (if pinCountInFromAfter == 1 then weight else 0) - (if pinCountInToAfter == 2 then weight else 0)
  }

  function PinCountInFromAfter(other: int, from: int): int {
    if other == from then 1 else 0
  }

  function PinCountInToAfter(other: int, to: int): int {
    if other == to then 2 else 1
  }

  /** The critical section: settles the block of the other endpoint and overwrites the record. */
  function SynchronizeMove(m: EdgeMove, uIsSmaller: bool, to: int, preread: int, version: nat): (r: (EdgeMove, int)) {
    var recorded := m.Block(!uIsSmaller);
    var blockOfV := if recorded != INVALID_PARTITION && m.version == version then recorded else preread;
    var keptV := if m.version != version then INVALID_PARTITION else recorded;
    (if uIsSmaller then EdgeMove(to, keptV, version) else EdgeMove(keptV, to, version), blockOfV)
  }

  predicate AtEdge(g: Graph, s: State, t: nat) {
    && t < |s.threads|
    && s.threads[t].InEdgeLoop()
    && s.threads[t].u < |g.incident|
    && s.threads[t].i < |g.incident[s.threads[t].u]|
    && g.incident[s.threads[t].u][s.threads[t].i] < |g.edges| == |s.sync| == |s.reported|
    && g.edges[g.incident[s.threads[t].u][s.threads[t].i]].Joins(s.threads[t].u)
  }

  function EdgeAt(g: Graph, s: State, t: nat): nat
    requires AtEdge(g, s, t)
  {
    g.incident[s.threads[t].u][s.threads[t].i]
  }

  ghost predicate Quiescent(s: State) {
    forall t :: 0 <= t < |s.threads| ==> s.threads[t].Idle?
  }

  /** What the source demands before each action: no node is moved by two threads at once, a move
      names the node's current block, and versions change only while no move runs. */
  ghost predicate Enabled(g: Graph, s: State, a: Action) {
    && |s.partIds| == |g.nodeWeight| == |g.incident|
    && |s.partWeights| == |g.limit|
    && match a
       case Book(t, u, to) =>
         && t < |s.threads| && s.threads[t].Idle?
         && u < |g.nodeWeight| && g.IsBlock(to) && g.IsBlock(s.partIds[u]) && to != s.partIds[u]
         && (forall t' :: 0 <= t' < |s.threads| ==> !s.threads[t'].Moves(u))
       case Reject(t) =>
         && t < |s.threads| && s.threads[t].Booked? && s.threads[t].u < |g.nodeWeight| && g.IsBlock(s.threads[t].to)
         && s.threads[t].weightAfter > g.limit[s.threads[t].to]
       case Accept(t) =>
         && t < |s.threads| && s.threads[t].Booked? && s.threads[t].u < |g.nodeWeight| && g.IsBlock(s.threads[t].to)
         && g.IsBlock(s.threads[t].from)
         && s.threads[t].weightAfter <= g.limit[s.threads[t].to]
       case SkipSinglePin(t) =>
         AtEdge(g, s, t) && s.threads[t].Syncing? && g.edges[EdgeAt(g, s, t)].SinglePin()
       case ReadOther(t) =>
         && AtEdge(g, s, t) && s.threads[t].Syncing? && !g.edges[EdgeAt(g, s, t)].SinglePin()
         && g.edges[EdgeAt(g, s, t)].Other(s.threads[t].u) < |s.partIds|
       case Synchronize(t) =>
         AtEdge(g, s, t) && s.threads[t].Locking?
       case Store(t) =>
         && t < |s.threads| && s.threads[t].Syncing? && s.threads[t].u < |g.incident|
         && s.threads[t].i == |g.incident[s.threads[t].u]|
       case Rephase(partIds) =>
         Quiescent(s) && |partIds| == |g.nodeWeight| && (forall u :: 0 <= u < |partIds| ==> g.IsBlock(partIds[u]))
  }

  ghost function Apply(g: Graph, s: State, a: Action): State
    requires Enabled(g, s, a)
  {
    match a
    case Book(t, u, to) =>
      var after := s.partWeights[to] + g.nodeWeight[u];
      s.(partWeights := s.partWeights[to := after], threads := s.threads[t := Booked(u, s.partIds[u], to, after)])
    case Reject(t) =>
      var th := s.threads[t];
      s.(partWeights := s.partWeights[th.to := s.partWeights[th.to] - g.nodeWeight[th.u]], threads := s.threads[t := Idle])
    case Accept(t) =>
      var th := s.threads[t];
      s.(partWeights := s.partWeights[th.from := s.partWeights[th.from] - g.nodeWeight[th.u]],
         threads := s.threads[t := Syncing(th.u, th.from, th.to, 0)])
    case SkipSinglePin(t) =>
      var th := s.threads[t];
      s.(threads := s.threads[t := Syncing(th.u, th.from, th.to, th.i + 1)])
    case ReadOther(t) =>
      var th := s.threads[t];
      s.(threads := s.threads[t := Locking(th.u, th.from, th.to, th.i, s.partIds[g.edges[EdgeAt(g, s, t)].Other(th.u)])])
    case Synchronize(t) =>
      var th := s.threads[t];
      var e := EdgeAt(g, s, t);
      var (m, other) := SynchronizeMove(s.sync[e], th.u == g.edges[e].smaller, th.to, th.other, s.version);
      var gain := AttributedGain(PinCountInFromAfter(other, th.from), PinCountInToAfter(other, th.to), g.edges[e].weight);
      s.(sync := s.sync[e := m], reported := s.reported[e := s.reported[e] + gain],
         threads := s.threads[t := Syncing(th.u, th.from, th.to, th.i + 1)])
    case Store(t) =>
      var th := s.threads[t];
      if th.u < |s.partIds| then s.(partIds := s.partIds[th.u := th.to], threads := s.threads[t := Idle]) else s
    case Rephase(partIds) =>
      // Nodes may be placed in any way between two versions; the edge records stay as they are.
      s.(partIds := partIds, base := partIds, version := (s.version + 1) % VERSIONS, bumps := s.bumps + 1,
         reported := seq(|s.reported|, i => 0),
         partWeights := seq(|s.partWeights|, p => Sum(BlockColumn(g, partIds, p))))
  }

  /** The state before the first move: all records are unused. */
  ghost function Initial(g: Graph, partIds: seq<int>, numThreads: nat): State {
    State(partIds, seq(|g.limit|, p => Sum(BlockColumn(g, partIds, p))),
          seq(|g.edges|, e => EdgeMove(INVALID_PARTITION, INVALID_PARTITION, 0)), 0,
          seq(numThreads, t => Idle), seq(|g.edges|, e => 0), partIds, 0)
  }

  ghost predicate CanRun(g: Graph, s: State, run: seq<Action>)
    decreases |run|
  {
    run == [] || (Enabled(g, s, run[0]) && CanRun(g, Apply(g, s, run[0]), run[1..]))
  }

  ghost function Run(g: Graph, s: State, run: seq<Action>): State
    requires CanRun(g, s, run)
    decreases |run|
  {
    if run == [] then s else Run(g, Apply(g, s, run[0]), run[1..])
  }

  // ---------- What the records mean ----------

  /** A record entry is believed by the critical section. */
  predicate Believed(s: State, m: EdgeMove, ofSmaller: bool) {
    m.Block(ofSmaller) != INVALID_PARTITION && m.version == s.version
  }

  /** The block of one endpoint of edge e in the serial order that the locks of e define. */
  function SerialBlock(g: Graph, s: State, e: nat, ofSmaller: bool): int
    requires e < |g.edges| && e < |s.sync|
    requires g.edges[e].smaller < |s.partIds| && g.edges[e].larger < |s.partIds|
  {
    if Believed(s, s.sync[e], ofSmaller) then s.sync[e].Block(ofSmaller)
    else s.partIds[if ofSmaller then g.edges[e].smaller else g.edges[e].larger]
  }

  function CutOfEdge(weight: int, blockA: int, blockB: int): int {
    if blockA != blockB then weight else 0
  }

  ghost function CutColumn(g: Graph, partIds: seq<int>): seq<int>
    requires g.Valid() && |partIds| == |g.nodeWeight|
  {
    seq(|g.edges|, e requires 0 <= e < |g.edges| =>
      CutOfEdge(g.edges[e].weight, partIds[g.edges[e].smaller], partIds[g.edges[e].larger]))
  }

  /** The weight of all edges between different blocks. */
  ghost function Cut(g: Graph, partIds: seq<int>): int
    requires g.Valid() && |partIds| == |g.nodeWeight|
  {
    Sum(CutColumn(g, partIds))
  }

  function BlockColumn(g: Graph, partIds: seq<int>, p: int): seq<int> {
    seq(|g.nodeWeight|, u requires 0 <= u < |g.nodeWeight| =>
      if u < |partIds| && partIds[u] == p then g.nodeWeight[u] else 0)
  }

  // ---------- The invariant ----------

  ghost predicate Shape(g: Graph, s: State) {
    && |s.partIds| == |g.nodeWeight| == |s.base|
    && |s.partWeights| == |g.limit|
    && |s.sync| == |g.edges| == |s.reported|
    && (forall u :: 0 <= u < |s.partIds| ==> g.IsBlock(s.partIds[u]))
  }

  ghost predicate ThreadsOk(g: Graph, s: State)
    requires Shape(g, s) && g.Valid()
  {
    && (forall t {:trigger s.threads[t]} :: 0 <= t < |s.threads| && !s.threads[t].Idle? ==>
          var th := s.threads[t];
          && th.u < |g.nodeWeight| && g.IsBlock(th.from) && g.IsBlock(th.to) && th.from != th.to
          && s.partIds[th.u] == th.from
          && (th.InEdgeLoop() ==> th.i <= |g.incident[th.u]|)
          && (th.Locking? ==> th.i < |g.incident[th.u]| && !g.edges[g.incident[th.u][th.i]].SinglePin()))
    && (forall t, t' {:trigger s.threads[t], s.threads[t']} :: 0 <= t < t' < |s.threads| && !s.threads[t].Idle? && !s.threads[t'].Idle? ==>
          s.threads[t].u != s.threads[t'].u)
  }

  /** The entry a move of u leaves behind on its i-th edge. */
  ghost predicate EntryOf(g: Graph, s: State, u: nat, i: nat, block: int)
    requires g.Valid() && Shape(g, s) && u < |g.incident| && i < |g.incident[u]|
  {
    var e := g.incident[u][i];
    Believed(s, s.sync[e], u == g.edges[e].smaller) && s.sync[e].Block(u == g.edges[e].smaller) == block
  }

  ghost predicate Untouched(g: Graph, s: State, u: nat, i: nat)
    requires g.Valid() && Shape(g, s) && u < |g.incident| && i < |g.incident[u]|
  {
    var e := g.incident[u][i];
    Believed(s, s.sync[e], u == g.edges[e].smaller) ==> s.sync[e].Block(u == g.edges[e].smaller) == s.partIds[u]
  }

  /** For node u: how far the records of its edges agree with `to` and how far with its stored block. */
  ghost predicate RecordsOf(g: Graph, s: State, u: nat, done: nat, to: int)
    requires g.Valid() && Shape(g, s) && u < |g.incident|
  {
    && (forall i :: 0 <= i < |g.incident[u]| && i < done && !g.edges[g.incident[u][i]].SinglePin() ==> EntryOf(g, s, u, i, to))
    && (forall i :: 0 <= i < |g.incident[u]| && done <= i && !g.edges[g.incident[u][i]].SinglePin() ==> Untouched(g, s, u, i))
  }

  ghost predicate AtRest(s: State, u: nat) {
    forall t :: 0 <= t < |s.threads| ==> !s.threads[t].Moves(u)
  }

  /** What the records owe a thread in the middle of a move. */
  ghost predicate Claim(g: Graph, s: State, th: Thread)
    requires g.Valid() && Shape(g, s)
  {
    !th.Idle? ==>
      && th.u < |g.incident|
      && RecordsOf(g, s, th.u, if th.InEdgeLoop() then th.i else 0, th.to)
      && (th.Locking? ==> th.i < |g.incident[th.u]| && PrereadOk(g, s, th))
  }

  /** A block read before taking the lock is out of date only if the record overrides it. */
  ghost predicate PrereadOk(g: Graph, s: State, th: Thread)
    requires g.Valid() && Shape(g, s) && th.Locking? && th.u < |g.incident| && th.i < |g.incident[th.u]|
  {
    var e := g.incident[th.u][th.i];
    Believed(s, s.sync[e], th.u != g.edges[e].smaller) || th.other == s.partIds[g.edges[e].Other(th.u)]
  }

  ghost predicate RecordsOk(g: Graph, s: State)
    requires g.Valid() && Shape(g, s)
  {
    && (forall e :: 0 <= e < |s.sync| ==> s.sync[e].version <= s.version)
    && (forall u: nat :: u < |g.nodeWeight| && AtRest(s, u) ==> RecordsOf(g, s, u, 0, 0))
    && (forall t :: 0 <= t < |s.threads| ==> Claim(g, s, s.threads[t]))
  }

  ghost predicate ReportOk(g: Graph, s: State, e: nat)
    requires g.Valid() && Shape(g, s) && e < |g.edges|
  {
    s.reported[e] == CutOfEdge(g.edges[e].weight, SerialBlock(g, s, e, true), SerialBlock(g, s, e, false))
                     - CutOfEdge(g.edges[e].weight, s.base[g.edges[e].smaller], s.base[g.edges[e].larger])
  }

  ghost predicate SyncInv(g: Graph, s: State) {
    && g.Valid() && Shape(g, s) && ThreadsOk(g, s)
    && s.version == s.bumps
    && RecordsOk(g, s)
    && (forall e: nat :: e < |g.edges| && !g.edges[e].SinglePin() ==> ReportOk(g, s, e))
    && (forall e: nat :: e < |g.edges| && g.edges[e].SinglePin() ==> s.reported[e] == 0)
  }

  // ---------- The invariant is kept by every action ----------

  lemma ClaimFrame(g: Graph, s: State, s': State, th: Thread)
    requires g.Valid() && Shape(g, s) && Shape(g, s')
    requires s'.sync == s.sync && s'.partIds == s.partIds && s'.version == s.version
    ensures Claim(g, s, th) ==> Claim(g, s', th)
    ensures forall u: nat, done: nat, to :: u < |g.incident| && RecordsOf(g, s, u, done, to) ==> RecordsOf(g, s', u, done, to)
  {
    forall u: nat, done: nat, to | u < |g.incident| && RecordsOf(g, s, u, done, to) ensures RecordsOf(g, s', u, done, to) {
      forall i | 0 <= i < |g.incident[u]| && i < done && !g.edges[g.incident[u][i]].SinglePin() ensures EntryOf(g, s', u, i, to) {
        assert EntryOf(g, s, u, i, to);
      }
      forall i | 0 <= i < |g.incident[u]| && done <= i && !g.edges[g.incident[u][i]].SinglePin() ensures Untouched(g, s', u, i) {
        assert Untouched(g, s, u, i);
      }
    }
  }

  /** A step of thread t that touches neither records nor blocks only has to justify its own claim. */
  lemma SilentStep(g: Graph, s: State, s': State, t: nat)
    requires SyncInv(g, s) && t < |s.threads| == |s'.threads|
    requires s' == s.(threads := s.threads[t := s'.threads[t]], partWeights := s'.partWeights)
    requires |s'.partWeights| == |s.partWeights| && ThreadsOk(g, s')
    requires Claim(g, s, s'.threads[t])
    requires !s.threads[t].Idle? ==> s.threads[t].u < |g.nodeWeight| && (s'.threads[t].Idle? ==> RecordsOf(g, s, s.threads[t].u, 0, 0))
    requires !s.threads[t].Idle? && !s'.threads[t].Idle? ==> s.threads[t].u == s'.threads[t].u
    ensures SyncInv(g, s')
  {
    forall u: nat | u < |g.nodeWeight| && AtRest(s', u)
      ensures RecordsOf(g, s', u, 0, 0)
    {
      ClaimFrame(g, s, s', Idle);
      if s.threads[t].Moves(u) {
        assert !s'.threads[t].Moves(u);
      } else {
        forall t' | 0 <= t' < |s.threads| ensures !s.threads[t'].Moves(u) {
          assert !s'.threads[t'].Moves(u);
        }
        assert AtRest(s, u);
      }
    }
    forall t' | 0 <= t' < |s'.threads| ensures Claim(g, s', s'.threads[t']) {
      assert Claim(g, s, s.threads[t']);
      ClaimFrame(g, s, s', s'.threads[t']);
    }
    forall e: nat | e < |g.edges| && !g.edges[e].SinglePin() ensures ReportOk(g, s', e) {
      assert ReportOk(g, s, e);
    }
  }

  lemma BookKeeps(g: Graph, s: State, a: Action)
    requires SyncInv(g, s) && a.Book? && Enabled(g, s, a)
    ensures SyncInv(g, Apply(g, s, a))
  {
    assert AtRest(s, a.u);
    assert RecordsOf(g, s, a.u, 0, 0);
    assert RecordsOf(g, s, a.u, 0, a.to);
    SilentStep(g, s, Apply(g, s, a), a.t);
  }

  lemma WeightStepKeeps(g: Graph, s: State, a: Action)
    requires SyncInv(g, s) && (a.Reject? || a.Accept?) && Enabled(g, s, a)
    ensures SyncInv(g, Apply(g, s, a))
  {
    var th := s.threads[a.t];
    assert Claim(g, s, th);
    assert RecordsOf(g, s, th.u, 0, 0);
    SilentStep(g, s, Apply(g, s, a), a.t);
  }

  /** A thread that goes on with the same move keeps all threads in order. */
  lemma ThreadGoesOn(g: Graph, s: State, t: nat, th: Thread)
    requires g.Valid() && Shape(g, s) && ThreadsOk(g, s) && t < |s.threads| && !s.threads[t].Idle? && !th.Idle?
    requires th.u == s.threads[t].u && th.from == s.threads[t].from && th.to == s.threads[t].to
    requires th.InEdgeLoop() ==> th.i <= |g.incident[th.u]|
    requires th.Locking? ==> th.i < |g.incident[th.u]| && !g.edges[g.incident[th.u][th.i]].SinglePin()
    ensures Shape(g, s.(threads := s.threads[t := th])) && ThreadsOk(g, s.(threads := s.threads[t := th]))
  {
  }

  lemma SkipKeeps(g: Graph, s: State, a: Action)
    requires SyncInv(g, s) && a.SkipSinglePin? && Enabled(g, s, a)
    ensures SyncInv(g, Apply(g, s, a))
  {
    var th := s.threads[a.t];
    var th' := Syncing(th.u, th.from, th.to, th.i + 1);
    assert Claim(g, s, th);
    assert Claim(g, s, th') by { SkippedRecords(g, s, th.u, th.i, th.to); }
    ThreadGoesOn(g, s, a.t, th');
    hide Claim, ThreadsOk, RecordsOf;
    SilentStep(g, s, Apply(g, s, a), a.t);
  }

  /** A single-pin edge has no record to agree with. */
  lemma SkippedRecords(g: Graph, s: State, u: nat, i: nat, to: int)
    requires g.Valid() && Shape(g, s) && u < |g.incident| && i < |g.incident[u]| && g.edges[g.incident[u][i]].SinglePin()
    requires RecordsOf(g, s, u, i, to)
    ensures RecordsOf(g, s, u, i + 1, to)
  {
  }

  lemma ReadKeeps(g: Graph, s: State, a: Action)
    requires SyncInv(g, s) && a.ReadOther? && Enabled(g, s, a)
    ensures SyncInv(g, Apply(g, s, a))
  {
    var th := s.threads[a.t];
    var th' := Locking(th.u, th.from, th.to, th.i, s.partIds[g.edges[EdgeAt(g, s, a.t)].Other(th.u)]);
    assert Claim(g, s, th);
    assert Claim(g, s, th');
    ThreadGoesOn(g, s, a.t, th');
    hide Claim, ThreadsOk, RecordsOf;
    SilentStep(g, s, Apply(g, s, a), a.t);
  }

  /** Storing the new block changes no serial block: every edge of the node already carries it. */
  lemma StoreEffect(g: Graph, s: State, a: Action, e: nat)
    requires SyncInv(g, s) && a.Store? && Enabled(g, s, a)
    requires e < |g.edges| && !g.edges[e].SinglePin()
    ensures SerialBlock(g, Apply(g, s, a), e, true) == SerialBlock(g, s, e, true)
    ensures SerialBlock(g, Apply(g, s, a), e, false) == SerialBlock(g, s, e, false)
    ensures g.edges[e].Joins(s.threads[a.t].u) ==> Believed(s, s.sync[e], s.threads[a.t].u == g.edges[e].smaller)
  {
    var x := s.threads[a.t].u;
    assert Claim(g, s, s.threads[a.t]);
    if g.edges[e].Joins(x) {
      var i :| 0 <= i < |g.incident[x]| && g.incident[x][i] == e;
      assert EntryOf(g, s, x, i, s.threads[a.t].to);
    }
  }

  lemma RecordsAfterStore(g: Graph, s: State, a: Action, u: nat, done: nat, to: int)
    requires SyncInv(g, s) && a.Store? && Enabled(g, s, a) && u < |g.incident|
    requires Shape(g, Apply(g, s, a))
    ensures u != s.threads[a.t].u && RecordsOf(g, s, u, done, to) ==> RecordsOf(g, Apply(g, s, a), u, done, to)
    ensures RecordsOf(g, Apply(g, s, a), s.threads[a.t].u, 0, 0)
  {
    var s' := Apply(g, s, a);
    var x := s.threads[a.t].u;
    assert Claim(g, s, s.threads[a.t]);
    forall i | 0 <= i < |g.incident[x]| && !g.edges[g.incident[x][i]].SinglePin() ensures Untouched(g, s', x, i) {
      assert EntryOf(g, s, x, i, s.threads[a.t].to);
    }
    if u != x && RecordsOf(g, s, u, done, to) {
      forall i | 0 <= i < |g.incident[u]| && !g.edges[g.incident[u][i]].SinglePin()
        ensures i < done ==> EntryOf(g, s', u, i, to)
        ensures done <= i ==> Untouched(g, s', u, i)
      {
        assert i < done ==> EntryOf(g, s, u, i, to);
        assert done <= i ==> Untouched(g, s, u, i);
      }
    }
  }

  lemma StoreKeeps(g: Graph, s: State, a: Action)
    requires SyncInv(g, s) && a.Store? && Enabled(g, s, a)
    ensures SyncInv(g, Apply(g, s, a))
  {
    var s' := Apply(g, s, a);
    var x := s.threads[a.t].u;
    assert ThreadsOk(g, s');
    forall u: nat | u < |g.nodeWeight| && AtRest(s', u)
      ensures RecordsOf(g, s', u, 0, 0)
    {
      RecordsAfterStore(g, s, a, u, 0, 0);
      if u != x {
        forall t | 0 <= t < |s.threads| ensures !s.threads[t].Moves(u) {
          assert t == a.t || s'.threads[t] == s.threads[t];
          assert !s'.threads[t].Moves(u);
        }
        assert AtRest(s, u);
      }
    }
    forall t | 0 <= t < |s'.threads| ensures Claim(g, s', s'.threads[t]) {
      var th := s'.threads[t];
      if !th.Idle? {
        assert th == s.threads[t] && Claim(g, s, th) && th.u != x;
        RecordsAfterStore(g, s, a, th.u, if th.InEdgeLoop() then th.i else 0, th.to);
        if th.Locking? {
          StoreEffect(g, s, a, g.incident[th.u][th.i]);
        }
      }
    }
    forall e: nat | e < |g.edges| && !g.edges[e].SinglePin() ensures ReportOk(g, s', e) {
      assert ReportOk(g, s, e);
      StoreEffect(g, s, a, e);
    }
  }

  /** The block of the other endpoint that the critical section settles on is its serial block, and
      the section changes the serial block of the moving node only. */
  lemma SynchronizeEffect(g: Graph, s: State, a: Action)
    requires SyncInv(g, s) && a.Synchronize? && Enabled(g, s, a)
    ensures var s' := Apply(g, s, a); var th := s.threads[a.t]; var e := EdgeAt(g, s, a.t);
            var uSmall := th.u == g.edges[e].smaller;
            && SynchronizeMove(s.sync[e], uSmall, th.to, th.other, s.version).1 == SerialBlock(g, s, e, !uSmall)
            && SerialBlock(g, s', e, !uSmall) == SerialBlock(g, s, e, !uSmall)
            && Believed(s', s'.sync[e], !uSmall) == Believed(s, s.sync[e], !uSmall)
            && SerialBlock(g, s, e, uSmall) == th.from && SerialBlock(g, s', e, uSmall) == th.to
            && Believed(s', s'.sync[e], uSmall)
  {
    var th := s.threads[a.t];
    assert Claim(g, s, th);
    assert Untouched(g, s, th.u, th.i);
  }

  /** The entry of any other node, or of another edge, survives a critical section. */
  lemma EntryFrame(g: Graph, s: State, a: Action, u: nat, i: nat)
    requires SyncInv(g, s) && a.Synchronize? && Enabled(g, s, a)
    requires u < |g.incident| && i < |g.incident[u]| && !g.edges[g.incident[u][i]].SinglePin()
    requires u != s.threads[a.t].u || i != s.threads[a.t].i
    requires Shape(g, Apply(g, s, a))
    ensures Untouched(g, s, u, i) ==> Untouched(g, Apply(g, s, a), u, i)
    ensures forall b :: EntryOf(g, s, u, i, b) ==> EntryOf(g, Apply(g, s, a), u, i, b)
  {
    SynchronizeEffect(g, s, a);
    var th := s.threads[a.t];
    if u == th.u {
      assert g.incident[u][i] != g.incident[u][th.i];
    }
  }

  /** The records of a moving node after a critical section, apart from the entry the section writes. */
  lemma RecordAfterSynchronize(g: Graph, s: State, a: Action, t: nat, i: nat)
    requires SyncInv(g, s) && a.Synchronize? && Enabled(g, s, a) && t < |s.threads| && !s.threads[t].Idle?
    requires Shape(g, Apply(g, s, a)) && s.threads[t].u < |g.incident| && i < |g.incident[s.threads[t].u]|
    requires !g.edges[g.incident[s.threads[t].u][i]].SinglePin() && !(t == a.t && i == s.threads[t].i)
    ensures var th := s.threads[t]; var done := if th.InEdgeLoop() then th.i else 0;
            && (i < done ==> EntryOf(g, Apply(g, s, a), th.u, i, th.to))
            && (done <= i ==> Untouched(g, Apply(g, s, a), th.u, i))
  {
    var th := s.threads[t];
    var done := if th.InEdgeLoop() then th.i else 0;
    assert Claim(g, s, th);
    assert i < done ==> EntryOf(g, s, th.u, i, th.to);
    assert done <= i ==> Untouched(g, s, th.u, i);
    assert t != a.t ==> th.u != s.threads[a.t].u;
    EntryFrame(g, s, a, th.u, i);
  }

  /** A preread block is still good after a critical section of another thread. */
  lemma PrereadAfterSynchronize(g: Graph, s: State, a: Action, t: nat)
    requires SyncInv(g, s) && a.Synchronize? && Enabled(g, s, a) && t < |s.threads| && t != a.t && s.threads[t].Locking?
    requires Shape(g, Apply(g, s, a)) && s.threads[t].u < |g.incident| && s.threads[t].i < |g.incident[s.threads[t].u]|
    ensures PrereadOk(g, Apply(g, s, a), s.threads[t])
  {
    SynchronizeEffect(g, s, a);
    assert Claim(g, s, s.threads[t]);
    assert s.threads[t].u != s.threads[a.t].u;
  }

  lemma OwnEntryAfterSynchronize(g: Graph, s: State, a: Action)
    requires SyncInv(g, s) && a.Synchronize? && Enabled(g, s, a) && Shape(g, Apply(g, s, a))
    ensures EntryOf(g, Apply(g, s, a), s.threads[a.t].u, s.threads[a.t].i, s.threads[a.t].to)
  {
    SynchronizeEffect(g, s, a);
  }

  lemma ClaimAfterSynchronize(g: Graph, s: State, a: Action, t: nat)
    requires SyncInv(g, s) && a.Synchronize? && Enabled(g, s, a) && t < |s.threads|
    requires Shape(g, Apply(g, s, a))
    ensures Claim(g, Apply(g, s, a), Apply(g, s, a).threads[t])
  {
    var s' := Apply(g, s, a);
    var th := s.threads[t];
    assert Claim(g, s, th);
    if !th.Idle? {
      var done := if th.InEdgeLoop() then th.i else 0;
      forall i: nat | i < |g.incident[th.u]| && !g.edges[g.incident[th.u][i]].SinglePin() && !(t == a.t && i == th.i)
        ensures i < done ==> EntryOf(g, s', th.u, i, th.to)
        ensures done <= i ==> Untouched(g, s', th.u, i)
      {
        RecordAfterSynchronize(g, s, a, t, i);
      }
      if t == a.t {
        OwnEntryAfterSynchronize(g, s, a);
      } else if th.Locking? {
        PrereadAfterSynchronize(g, s, a, t);
      }
      hide EntryOf, Untouched, PrereadOk, SyncInv, ThreadsOk;
    }
  }

  lemma SynchronizeKeeps(g: Graph, s: State, a: Action)
    requires SyncInv(g, s) && a.Synchronize? && Enabled(g, s, a)
    ensures SyncInv(g, Apply(g, s, a))
  {
    var s' := Apply(g, s, a);
    var mover := s.threads[a.t];
    var edge := EdgeAt(g, s, a.t);
    SynchronizeEffect(g, s, a);
    assert ThreadsOk(g, s');
    forall u: nat | u < |g.nodeWeight| && AtRest(s', u)
      ensures RecordsOf(g, s', u, 0, 0)
    {
      forall t | 0 <= t < |s.threads| ensures !s.threads[t].Moves(u) {
        assert !s'.threads[t].Moves(u);
      }
      assert AtRest(s, u);
      assert RecordsOf(g, s, u, 0, 0);
      forall i | 0 <= i < |g.incident[u]| && !g.edges[g.incident[u][i]].SinglePin() ensures Untouched(g, s', u, i) {
        assert Untouched(g, s, u, i);
        EntryFrame(g, s, a, u, i);
      }
    }
    forall t | 0 <= t < |s'.threads| ensures Claim(g, s', s'.threads[t]) {
      ClaimAfterSynchronize(g, s, a, t);
    }
    forall e: nat | e < |g.edges| && !g.edges[e].SinglePin() ensures ReportOk(g, s', e) {
      assert ReportOk(g, s, e);
    }
  }

  lemma RephaseKeeps(g: Graph, s: State, a: Action)
    requires SyncInv(g, s) && a.Rephase? && Enabled(g, s, a) && s.bumps + 1 < VERSIONS
    ensures SyncInv(g, Apply(g, s, a))
  {
  }

  lemma StepKeeps(g: Graph, s: State, a: Action)
    requires SyncInv(g, s) && Enabled(g, s, a) && Apply(g, s, a).bumps < VERSIONS
    ensures SyncInv(g, Apply(g, s, a))
  {
    match a
    case Book(_, _, _) => BookKeeps(g, s, a);
    case Reject(_) => WeightStepKeeps(g, s, a);
    case Accept(_) => WeightStepKeeps(g, s, a);
    case SkipSinglePin(_) => SkipKeeps(g, s, a);
    case ReadOther(_) => ReadKeeps(g, s, a);
    case Synchronize(_) => SynchronizeKeeps(g, s, a);
    case Store(_) => StoreKeeps(g, s, a);
    case Rephase(_) => RephaseKeeps(g, s, a);
  }

  // ---------- Runs ----------

  lemma BumpsGrow(g: Graph, s: State, run: seq<Action>)
    requires CanRun(g, s, run)
    ensures s.bumps <= Run(g, s, run).bumps
    decreases |run|
  {
    if run != [] { BumpsGrow(g, Apply(g, s, run[0]), run[1..]); }
  }

  lemma {:induction false} RunKeeps(g: Graph, s: State, run: seq<Action>)
    requires SyncInv(g, s) && CanRun(g, s, run) && Run(g, s, run).bumps < VERSIONS
    ensures SyncInv(g, Run(g, s, run))
    decreases |run|
  {
    if run != [] {
      BumpsGrow(g, Apply(g, s, run[0]), run[1..]);
      StepKeeps(g, s, run[0]);
      RunKeeps(g, Apply(g, s, run[0]), run[1..]);
    }
  }

  ghost predicate GoodStart(g: Graph, partIds: seq<int>) {
    g.Valid() && |partIds| == |g.nodeWeight| && forall u :: 0 <= u < |partIds| ==> g.IsBlock(partIds[u])
  }

  lemma InitialInv(g: Graph, partIds: seq<int>, numThreads: nat)
    requires GoodStart(g, partIds)
    ensures SyncInv(g, Initial(g, partIds, numThreads))
  {
  }

  /** At quiescence the serial order of every edge ends in the stored blocks. */
  lemma SerialBlocksAtRest(g: Graph, s: State, e: nat)
    requires SyncInv(g, s) && Quiescent(s) && e < |g.edges| && !g.edges[e].SinglePin()
    ensures SerialBlock(g, s, e, true) == s.partIds[g.edges[e].smaller]
    ensures SerialBlock(g, s, e, false) == s.partIds[g.edges[e].larger]
  {
    var a, b := g.edges[e].smaller, g.edges[e].larger;
    assert AtRest(s, a) && AtRest(s, b);
    assert RecordsOf(g, s, a, 0, 0) && RecordsOf(g, s, b, 0, 0);
    var i :| 0 <= i < |g.incident[a]| && g.incident[a][i] == e;
    var j :| 0 <= j < |g.incident[b]| && g.incident[b][j] == e;
    assert Untouched(g, s, a, i) && Untouched(g, s, b, j);
  }

  /** For any number of threads and any interleaving: once no move is running, the cut changes
      implied by the reported pin counts add up to the real change of the cut since the last version. */
  lemma ReportedCutIsExact(g: Graph, partIds: seq<int>, numThreads: nat, run: seq<Action>)
    requires GoodStart(g, partIds) && CanRun(g, Initial(g, partIds, numThreads), run)
    requires Run(g, Initial(g, partIds, numThreads), run).bumps < VERSIONS
    requires Quiescent(Run(g, Initial(g, partIds, numThreads), run))
    ensures var s := Run(g, Initial(g, partIds, numThreads), run);
            && |s.partIds| == |s.base| == |g.nodeWeight|
            && Sum(s.reported) == Cut(g, s.partIds) - Cut(g, s.base)
  {
    InitialInv(g, partIds, numThreads);
    RunKeeps(g, Initial(g, partIds, numThreads), run);
    var s := Run(g, Initial(g, partIds, numThreads), run);
    forall e: nat | e < |g.edges|
      ensures s.reported[e] == CutColumn(g, s.partIds)[e] - CutColumn(g, s.base)[e]
    {
      if !g.edges[e].SinglePin() {
        assert ReportOk(g, s, e);
        SerialBlocksAtRest(g, s, e);
      }
    }
    SumDifference(CutColumn(g, s.partIds), CutColumn(g, s.base), s.reported);
  }

  /** Both pin counts handed to the delta function are the true counts of the edge right after the
      move, in the order in which the moves took the lock of that edge. */
  lemma ReportedPinCountsAreExact(g: Graph, s: State, a: Action)
    requires SyncInv(g, s) && a.Synchronize? && Enabled(g, s, a)
    ensures var s' := Apply(g, s, a); var th := s.threads[a.t]; var e := EdgeAt(g, s, a.t);
            var other := SynchronizeMove(s.sync[e], th.u == g.edges[e].smaller, th.to, th.other, s.version).1;
            var after := multiset{SerialBlock(g, s', e, true), SerialBlock(g, s', e, false)};
            var before := multiset{SerialBlock(g, s, e, true), SerialBlock(g, s, e, false)};
            && PinCountInFromAfter(other, th.from) == after[th.from]
            && PinCountInToAfter(other, th.to) == after[th.to]
            && after == before - multiset{th.from} + multiset{th.to}
  {
    SynchronizeEffect(g, s, a);
  }

  // ---------- The version counter wraps ----------

  lemma RunAppend(g: Graph, s: State, first: seq<Action>, second: seq<Action>)
    requires CanRun(g, s, first) && CanRun(g, Run(g, s, first), second)
    ensures CanRun(g, s, first + second) && Run(g, s, first + second) == Run(g, Run(g, s, first), second)
    decreases |first|
  {
    if first == [] {
      assert first + second == second;
    } else {
      assert (first + second)[0] == first[0] && (first + second)[1..] == first[1..] + second;
      RunAppend(g, Apply(g, s, first[0]), first[1..], second);
    }
  }

  /** n version changes in a row, each leaving all nodes in `partIds`. */
  lemma {:induction false} Rephases(g: Graph, s: State, partIds: seq<int>, n: nat) returns (run: seq<Action>)
    requires Enabled(g, s, Rephase(partIds)) && GoodStart(g, partIds) && s.partIds == partIds == s.base
    requires s.version == s.bumps % VERSIONS && |s.reported| == |g.edges|
    requires (forall e :: 0 <= e < |s.reported| ==> s.reported[e] == 0)
    requires forall p :: 0 <= p < |s.partWeights| ==> s.partWeights[p] == Sum(BlockColumn(g, partIds, p))
    ensures CanRun(g, s, run)
    ensures Run(g, s, run) == s.(version := (s.bumps + n) % VERSIONS, bumps := s.bumps + n)
    decreases n
  {
    if n == 0 {
      run := [];
    } else {
      var s' := Apply(g, s, Rephase(partIds));
      assert s'.version == s'.bumps % VERSIONS;
      assert s' == s.(version := (s.bumps + 1) % VERSIONS, bumps := s.bumps + 1);
      var rest := Rephases(g, s', partIds, n - 1);
      run := [Rephase(partIds)] + rest;
      assert run[1..] == rest;
    }
  }

  ghost function PairGraph(): Graph {
    Graph([1, 1], [Edge(0, 1, 1)], [[0], [0]], [2, 2])
  }

  lemma RunCons(g: Graph, s: State, a: Action, rest: seq<Action>)
    requires Enabled(g, s, a) && CanRun(g, Apply(g, s, a), rest)
    ensures CanRun(g, s, [a] + rest) && Run(g, s, [a] + rest) == Run(g, Apply(g, s, a), rest)
  {
    assert ([a] + rest)[1..] == rest;
  }

  ghost predicate ReadyForSolo(s: State, u: nat) {
    && u < 2 && |s.threads| == 1 && s.threads == [Idle] && s.partIds == [0, 0]
    && |s.partWeights| == 2 && s.partWeights[1] == 0 && |s.sync| == |s.reported| == 1
  }

  ghost function AfterSolo(s: State, u: nat): State
    requires ReadyForSolo(s, u)
  {
    var (m, other) := SynchronizeMove(s.sync[0], u == 0, 1, 0, s.version);
    s.(partIds := [0, 0][u := 1], partWeights := [s.partWeights[0] - 1, 1], sync := [m],
       reported := [s.reported[0] + AttributedGain(PinCountInFromAfter(other, 0), PinCountInToAfter(other, 1), 1)])
  }

  lemma SoloBooking(s: State, u: nat)
    requires ReadyForSolo(s, u)
    ensures Enabled(PairGraph(), s, Book(0, u, 1))
    ensures var s1 := Apply(PairGraph(), s, Book(0, u, 1));
            && Enabled(PairGraph(), s1, Accept(0))
            && Apply(PairGraph(), s1, Accept(0)) == s.(partWeights := [s.partWeights[0] - 1, 1], threads := [Syncing(u, 0, 1, 0)])
  {
  }

  lemma SoloEdge(s: State, u: nat, s2: State)
    requires ReadyForSolo(s, u) && s2 == s.(partWeights := [s.partWeights[0] - 1, 1], threads := [Syncing(u, 0, 1, 0)])
    ensures Enabled(PairGraph(), s2, ReadOther(0))
    ensures var s3 := Apply(PairGraph(), s2, ReadOther(0));
            && Enabled(PairGraph(), s3, Synchronize(0))
            && var s4 := Apply(PairGraph(), s3, Synchronize(0));
            && Enabled(PairGraph(), s4, Store(0))
            && Apply(PairGraph(), s4, Store(0)) == AfterSolo(s, u)
  {
    var s3 := Apply(PairGraph(), s2, ReadOther(0));
    assert s3.threads == [Locking(u, 0, 1, 0, 0)];
    var s4 := Apply(PairGraph(), s3, Synchronize(0));
    assert s4.threads == [Syncing(u, 0, 1, 1)];
  }

  /** One thread moves node u of the pair graph to block 1, alone. */
  lemma SoloMove(s: State, u: nat) returns (run: seq<Action>)
    requires ReadyForSolo(s, u)
    ensures CanRun(PairGraph(), s, run) && Run(PairGraph(), s, run) == AfterSolo(s, u)
  {
    var g := PairGraph();
    SoloBooking(s, u);
    var s1 := Apply(g, s, Book(0, u, 1));
    var s2 := Apply(g, s1, Accept(0));
    SoloEdge(s, u, s2);
    var s3 := Apply(g, s2, ReadOther(0));
    var s4 := Apply(g, s3, Synchronize(0));
    RunCons(g, s4, Store(0), []);
    RunCons(g, s3, Synchronize(0), [Store(0)]);
    run := [Synchronize(0)] + ([Store(0)] + []);
    assert run == [Synchronize(0)] + [Store(0)];
    RunCons(g, s2, ReadOther(0), run);
    run := [ReadOther(0)] + run;
    RunCons(g, s1, Accept(0), run);
    run := [Accept(0)] + run;
    RunCons(g, s, Book(0, u, 1), run);
    run := [Book(0, u, 1)] + run;
  }

  /** The pair graph with node 1 moved once, n - 2^32 versions after the start. */
  ghost function MovedOnce(n: nat): State
    requires n >= VERSIONS
  {
    State([0, 1], [1, 1], [EdgeMove(INVALID_PARTITION, 1, n % VERSIONS)], n % VERSIONS, [Idle], [1], [0, 0], n - VERSIONS)
  }

  lemma MoveOnce(n: nat) returns (run: seq<Action>)
    requires n >= VERSIONS
    ensures CanRun(PairGraph(), Initial(PairGraph(), [0, 0], 1), run)
    ensures Run(PairGraph(), Initial(PairGraph(), [0, 0], 1), run) == MovedOnce(n)
  {
    var s0 := Initial(PairGraph(), [0, 0], 1);
    var wait := Wait(n);
    hide Run, CanRun, AfterSolo, ReadyForSolo, Initial, MovedOnce, PairGraph;
    var s1 := Run(PairGraph(), s0, wait);
    AfterWaiting(n, s0, s1);
    var first := SoloMove(s1, 1);
    RunAppend(PairGraph(), s0, wait, first);
    run := wait + first;
  }

  lemma Wait(n: nat) returns (run: seq<Action>)
    requires n >= VERSIONS
    ensures CanRun(PairGraph(), Initial(PairGraph(), [0, 0], 1), run)
    ensures var s0 := Initial(PairGraph(), [0, 0], 1);
            Run(PairGraph(), s0, run) == s0.(version := (n - VERSIONS) % VERSIONS, bumps := n - VERSIONS)
  {
    PairBlocks();
    run := Rephases(PairGraph(), Initial(PairGraph(), [0, 0], 1), [0, 0], n - VERSIONS);
  }

  lemma AfterWaiting(n: nat, s0: State, s1: State)
    requires n >= VERSIONS && s0 == Initial(PairGraph(), [0, 0], 1)
    requires s1 == s0.(version := (n - VERSIONS) % VERSIONS, bumps := n - VERSIONS)
    ensures ReadyForSolo(s1, 1) && AfterSolo(s1, 1) == MovedOnce(n)
  {
    PairBlocks();
    var s2 := AfterSolo(s1, 1);
    assert s2.threads == [Idle] && s2.partIds == [0, 1] && s2.partWeights == [1, 1] && s2.reported == [1];
    assert s2.sync == [EdgeMove(INVALID_PARTITION, 1, n % VERSIONS)];
  }

  /** Node 1 is placed back into block 0 while the version changes 2^32 times; the old record of its
      move into block 1 then carries the current version again. */
  ghost function Forgotten(n: nat): State
    requires n >= VERSIONS
  {
    MovedOnce(n).(partIds := [0, 0], partWeights := [2, 0], reported := [0], bumps := n)
  }

  lemma Forget(n: nat) returns (run: seq<Action>)
    requires n >= VERSIONS
    ensures CanRun(PairGraph(), MovedOnce(n), run) && Run(PairGraph(), MovedOnce(n), run) == Forgotten(n)
  {
    FirstRephase(n);
    PlacedBackReady(n);
    hide *;
    var again := Rephases(PairGraph(), PlacedBack(n), [0, 0], VERSIONS - 1);
    AllRephased(n);
    RunCons(PairGraph(), MovedOnce(n), Rephase([0, 0]), again);
    run := [Rephase([0, 0])] + again;
  }

  /** After the first of these version changes. */
  ghost function PlacedBack(n: nat): State
    requires n >= VERSIONS
  {
    MovedOnce(n).(partIds := [0, 0], partWeights := [2, 0], reported := [0], bumps := n - VERSIONS + 1, version := (n + 1) % VERSIONS)
  }

  lemma FirstRephase(n: nat)
    requires n >= VERSIONS
    ensures Enabled(PairGraph(), MovedOnce(n), Rephase([0, 0]))
    ensures Apply(PairGraph(), MovedOnce(n), Rephase([0, 0])) == PlacedBack(n)
  {
    PairBlocks();
    var s' := Apply(PairGraph(), MovedOnce(n), Rephase([0, 0]));
    assert s'.partWeights == [2, 0] && s'.reported == [0];
  }

  lemma PlacedBackReady(n: nat)
    requires n >= VERSIONS
    ensures var g, s := PairGraph(), PlacedBack(n);
            && Enabled(g, s, Rephase([0, 0])) && GoodStart(g, [0, 0]) && s.partIds == [0, 0] == s.base
            && s.version == s.bumps % VERSIONS && |s.reported| == |g.edges|
            && (forall e :: 0 <= e < |s.reported| ==> s.reported[e] == 0)
            && (forall p :: 0 <= p < |s.partWeights| ==> s.partWeights[p] == Sum(BlockColumn(g, [0, 0], p)))
  {
    PairBlocks();
  }

  lemma AllRephased(n: nat)
    requires n >= VERSIONS
    ensures var s := PlacedBack(n); var all := s.bumps + (VERSIONS - 1);
            s.(version := all % VERSIONS, bumps := all) == Forgotten(n)
  {
  }

  /** For every number n >= 2^32 of version changes some run reports a wrong cut change. */
  lemma StaleRecordBelieved(n: nat) returns (run: seq<Action>)
    requires n >= VERSIONS
    ensures var g := PairGraph(); var s0 := Initial(g, [0, 0], 1);
            && GoodStart(g, [0, 0]) && CanRun(g, s0, run)
            && var s := Run(g, s0, run);
               s.bumps == n && Quiescent(s) && |s.partIds| == |s.base| == |g.nodeWeight|
               && Sum(s.reported) != Cut(g, s.partIds) - Cut(g, s.base)
  {
    var g := PairGraph();
    ForgottenMove(n);
    var first := MoveOnce(n);
    var again := Forget(n);
    RunAppend(g, Initial(g, [0, 0], 1), first, again);
    var last := SoloMove(Forgotten(n), 0);
    RunAppend(g, Initial(g, [0, 0], 1), first + again, last);
    run := first + again + last;
    ForgottenMove(n);
  }

  /** At the end of a run with n version changes that comes to rest, the reported changes are the real one. */
  ghost predicate ReportsExactly(g: Graph, partIds: seq<int>, numThreads: nat, run: seq<Action>, n: nat) {
    GoodStart(g, partIds) && CanRun(g, Initial(g, partIds, numThreads), run) ==>
      var s := Run(g, Initial(g, partIds, numThreads), run);
      s.bumps == n && Quiescent(s) ==>
        && |s.partIds| == |s.base| == |g.nodeWeight|
        && Sum(s.reported) == Cut(g, s.partIds) - Cut(g, s.base)
  }

  ghost predicate AlwaysExact(n: nat) {
    forall g: Graph, partIds: seq<int>, numThreads: nat, run: seq<Action> {:trigger ReportsExactly(g, partIds, numThreads, run, n)} ::
      ReportsExactly(g, partIds, numThreads, run, n)
  }

  /** The reports can be relied on exactly as long as the version counter has not wrapped. */
  lemma ExactUntilVersionsWrap(n: nat)
    ensures AlwaysExact(n) <==> n < VERSIONS
  {
    if n < VERSIONS {
      forall g: Graph, partIds: seq<int>, numThreads: nat, run: seq<Action> ensures ReportsExactly(g, partIds, numThreads, run, n) {
        ExactBelowWrap(g, partIds, numThreads, run, n);
      }
    } else {
      var run := StaleRecordBelieved(n);
      hide *;
      NotExact(n, run);
    }
  }

  lemma ExactBelowWrap(g: Graph, partIds: seq<int>, numThreads: nat, run: seq<Action>, n: nat)
    requires n < VERSIONS
    ensures ReportsExactly(g, partIds, numThreads, run, n)
  {
    if GoodStart(g, partIds) && CanRun(g, Initial(g, partIds, numThreads), run) {
      var s := Run(g, Initial(g, partIds, numThreads), run);
      if s.bumps == n && Quiescent(s) {
        ReportedCutIsExact(g, partIds, numThreads, run);
      }
    }
  }

  lemma NotExact(n: nat, run: seq<Action>)
    requires var g := PairGraph(); var s0 := Initial(g, [0, 0], 1);
             && GoodStart(g, [0, 0]) && CanRun(g, s0, run)
             && var s := Run(g, s0, run);
                s.bumps == n && Quiescent(s) && |s.partIds| == |s.base| == |g.nodeWeight|
                && Sum(s.reported) != Cut(g, s.partIds) - Cut(g, s.base)
    ensures !AlwaysExact(n)
  {
    hide CanRun, Run, Cut;
    assert !ReportsExactly(PairGraph(), [0, 0], 1, run, n);
  }

  lemma ForgottenMove(n: nat)
    requires n >= VERSIONS
    ensures GoodStart(PairGraph(), [0, 0]) && ReadyForSolo(Forgotten(n), 0)
    ensures var s := AfterSolo(Forgotten(n), 0);
            && Quiescent(s) && s.partIds == [1, 0] && s.base == [0, 0] && s.bumps == n
            && Sum(s.reported) == -1 && Cut(PairGraph(), [1, 0]) == 1 && Cut(PairGraph(), [0, 0]) == 0
  {
    PairBlocks();
    var s := AfterSolo(Forgotten(n), 0);
    assert s.reported == [-1];
    assert CutColumn(PairGraph(), [1, 0]) == [1] && CutColumn(PairGraph(), [0, 0]) == [0];
  }

  lemma PairBlocks()
    ensures GoodStart(PairGraph(), [0, 0])
    ensures Sum(BlockColumn(PairGraph(), [0, 0], 0)) == 2 && Sum(BlockColumn(PairGraph(), [0, 0], 1)) == 0
  {
    assert BlockColumn(PairGraph(), [0, 0], 0) == [1, 1];
    assert BlockColumn(PairGraph(), [0, 0], 1) == [0, 0];
  }

  // ---------- Block weights ----------

  /** What a running move has added to the counter of block p beyond the stored blocks. */
  function InFlight(g: Graph, th: Thread, p: int): int {
    if th.Idle? || th.u >= |g.nodeWeight| then 0
    else
      var w: int := g.nodeWeight[th.u];
      (if th.to == p then w else 0) - (if !th.Booked? && th.from == p then w else 0)
  }

  function InFlightColumn(g: Graph, s: State, p: int): seq<int> {
    seq(|s.threads|, t requires 0 <= t < |s.threads| => InFlight(g, s.threads[t], p))
  }

  /** As InFlight, but without bookings that will be rolled back. */
  function Accepted(g: Graph, th: Thread, p: int): int {
    if th.Booked? && (!g.IsBlock(th.to) || th.weightAfter > g.limit[th.to]) then 0 else InFlight(g, th, p)
  }

  function AcceptedColumn(g: Graph, s: State, p: int): seq<int> {
    seq(|s.threads|, t requires 0 <= t < |s.threads| => Accepted(g, s.threads[t], p))
  }

  /** The weight of the nodes accepted into block p and not yet taken out of it. */
  function Occupancy(g: Graph, s: State, p: int): int {
    Sum(BlockColumn(g, s.partIds, p)) + Sum(AcceptedColumn(g, s, p))
  }

  ghost predicate WeightInv(g: Graph, s: State) {
    && g.Valid() && Shape(g, s) && ThreadsOk(g, s)
    && (forall p {:trigger s.partWeights[p]} :: 0 <= p < |g.limit| ==>
          s.partWeights[p] == Sum(BlockColumn(g, s.partIds, p)) + Sum(InFlightColumn(g, s, p)))
  }

  ghost predicate LimitInv(g: Graph, s: State) {
    forall p :: 0 <= p < |g.limit| ==> Occupancy(g, s, p) <= g.limit[p]
  }

  /** Every placement between two versions respects the block limits. */
  ghost predicate PlacementsFit(g: Graph, run: seq<Action>) {
    forall i {:trigger run[i]} :: 0 <= i < |run| && run[i].Rephase? ==>
      forall p :: 0 <= p < |g.limit| ==> Sum(BlockColumn(g, run[i].partIds, p)) <= g.limit[p]
  }

  /** A step that replaces thread t and possibly the block of one node changes the sums by the difference. */
  lemma WeightSums(g: Graph, s: State, s': State, t: nat, p: int)
    requires t < |s.threads| == |s'.threads| && s'.threads == s.threads[t := s'.threads[t]]
    ensures Sum(InFlightColumn(g, s', p)) == Sum(InFlightColumn(g, s, p)) - InFlight(g, s.threads[t], p) + InFlight(g, s'.threads[t], p)
    ensures Sum(AcceptedColumn(g, s', p)) == Sum(AcceptedColumn(g, s, p)) - Accepted(g, s.threads[t], p) + Accepted(g, s'.threads[t], p)
  {
    SumUpdate(InFlightColumn(g, s, p), t, InFlight(g, s'.threads[t], p));
    assert InFlightColumn(g, s', p) == InFlightColumn(g, s, p)[t := InFlight(g, s'.threads[t], p)];
    SumUpdate(AcceptedColumn(g, s, p), t, Accepted(g, s'.threads[t], p));
    assert AcceptedColumn(g, s', p) == AcceptedColumn(g, s, p)[t := Accepted(g, s'.threads[t], p)];
  }

  lemma BlockSums(g: Graph, partIds: seq<int>, u: nat, to: int, p: int)
    requires u < |g.nodeWeight| == |partIds|
    ensures Sum(BlockColumn(g, partIds[u := to], p)) == Sum(BlockColumn(g, partIds, p))
              - (if partIds[u] == p then g.nodeWeight[u] else 0) + (if to == p then g.nodeWeight[u] else 0)
  {
    var x := if to == p then g.nodeWeight[u] else 0;
    SumUpdate(BlockColumn(g, partIds, p), u, x);
    assert BlockColumn(g, partIds[u := to], p) == BlockColumn(g, partIds, p)[u := x];
  }

  /** Bookings that will be rolled back only ever add to a counter. */
  lemma AcceptedAtMostCounter(g: Graph, s: State, p: int)
    requires WeightInv(g, s) && 0 <= p < |g.limit|
    ensures Occupancy(g, s, p) <= s.partWeights[p]
  {
    SumMonotone(AcceptedColumn(g, s, p), InFlightColumn(g, s, p));
  }

  lemma ThreadsKept(g: Graph, s: State, a: Action)
    requires g.Valid() && Shape(g, s) && ThreadsOk(g, s) && Enabled(g, s, a)
    ensures Shape(g, Apply(g, s, a)) && ThreadsOk(g, Apply(g, s, a))
  {
  }

  lemma WeightStep(g: Graph, s: State, a: Action)
    requires WeightInv(g, s) && Enabled(g, s, a)
    ensures WeightInv(g, Apply(g, s, a))
  {
    ThreadsKept(g, s, a);
    var s' := Apply(g, s, a);
    forall p | 0 <= p < |g.limit|
      ensures s'.partWeights[p] == Sum(BlockColumn(g, s'.partIds, p)) + Sum(InFlightColumn(g, s', p))
    {
      assert s.partWeights[p] == Sum(BlockColumn(g, s.partIds, p)) + Sum(InFlightColumn(g, s, p));
      if a.Rephase? {
        SumZero(InFlightColumn(g, s', p));
      } else {
        WeightSums(g, s, s', a.t, p);
        if a.Store? {
          BlockSums(g, s.partIds, s.threads[a.t].u, s.threads[a.t].to, p);
        }
      }
    }
  }

  lemma LimitStep(g: Graph, s: State, a: Action)
    requires WeightInv(g, s) && LimitInv(g, s) && Enabled(g, s, a)
    requires a.Rephase? ==> forall p :: 0 <= p < |g.limit| ==> Sum(BlockColumn(g, a.partIds, p)) <= g.limit[p]
    ensures LimitInv(g, Apply(g, s, a))
  {
    WeightStep(g, s, a);
    var s' := Apply(g, s, a);
    forall p | 0 <= p < |g.limit| ensures Occupancy(g, s', p) <= g.limit[p] {
      assert Occupancy(g, s, p) <= g.limit[p];
      if a.Rephase? {
        SumZero(AcceptedColumn(g, s', p));
      } else {
        WeightSums(g, s, s', a.t, p);
        if a.Store? {
          BlockSums(g, s.partIds, s.threads[a.t].u, s.threads[a.t].to, p);
        } else if a.Book? {
          AcceptedAtMostCounter(g, s, p);
        }
      }
    }
  }

  lemma {:induction false} WeightRun(g: Graph, s: State, run: seq<Action>)
    requires WeightInv(g, s) && LimitInv(g, s) && CanRun(g, s, run) && PlacementsFit(g, run)
    ensures WeightInv(g, Run(g, s, run)) && LimitInv(g, Run(g, s, run))
    decreases |run|
  {
    if run != [] {
      WeightStep(g, s, run[0]);
      LimitStep(g, s, run[0]);
      forall i | 0 <= i < |run[1..]| && run[1..][i].Rephase?
        ensures forall p :: 0 <= p < |g.limit| ==> Sum(BlockColumn(g, run[1..][i].partIds, p)) <= g.limit[p]
      {
        assert run[1..][i] == run[i + 1];
      }
      WeightRun(g, Apply(g, s, run[0]), run[1..]);
    }
  }

  /** If every block starts within its limit and all moves into a block are checked against that
      limit, then in every reachable state the weight accepted into a block stays within the limit,
      whatever is booked and rolled back meanwhile; at quiescence each counter is exact. */
  lemma AcceptedWeightWithinLimit(g: Graph, partIds: seq<int>, numThreads: nat, run: seq<Action>, p: nat)
    requires GoodStart(g, partIds) && p < |g.limit|
    requires forall q :: 0 <= q < |g.limit| ==> Sum(BlockColumn(g, partIds, q)) <= g.limit[q]
    requires CanRun(g, Initial(g, partIds, numThreads), run) && PlacementsFit(g, run)
    ensures var s := Run(g, Initial(g, partIds, numThreads), run);
            && Occupancy(g, s, p) <= g.limit[p]
            && |s.partWeights| == |g.limit|
            && (Quiescent(s) ==> s.partWeights[p] == Sum(BlockColumn(g, s.partIds, p)) <= g.limit[p])
  {
    var s0 := Initial(g, partIds, numThreads);
    forall q | 0 <= q < |g.limit|
      ensures Sum(InFlightColumn(g, s0, q)) == 0 && Sum(AcceptedColumn(g, s0, q)) == 0
    {
      SumZero(InFlightColumn(g, s0, q));
      SumZero(AcceptedColumn(g, s0, q));
    }
    WeightRun(g, s0, run);
    var s := Run(g, s0, run);
    assert Occupancy(g, s, p) <= g.limit[p];
    if Quiescent(s) {
      SumZero(InFlightColumn(g, s, p));
      SumZero(AcceptedColumn(g, s, p));
    }
  }
}
