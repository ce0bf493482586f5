/** The batch index assigner: threads request places for groups of uncontractions without locks. */
module BatchAssigner {
  import opened Sums

  // Each atomic access of the source is one action. A request probes batches upwards with fetch-and-add
  // until it obtains a base position below the maximum batch size. Threads raise a shared high-water mark so
  // that later requests start their search higher up.

  /** A group of `num` uncontractions placed at positions [base, base + num) of a batch. */
  datatype Range = Range(base: nat, num: nat)

  datatype Thread =
    | Ready(requested: bool)                                 // requested: the last action was a request
    | Checked(min: nat, num: nat)                           // saw min <= high-water mark
    | Probing(min: nat, cur: nat, num: nat, raise: bool)
    | Positioned(min: nat, cur: nat, num: nat, raise: bool) // about to book the batch size
    | Marking(min: nat, target: nat, requested: bool)       // about to load the mark that it may have to raise
    | Raising(min: nat, target: nat, seen: nat, requested: bool) // compare-and-swap loop
    | Scanning(i: nat, min: nat)                            // collects the minimum of all local indices

  /** `given` and `ranges` record, for the proofs, what was handed out per batch; `frontier` is the
      number of batches in use and `remaining` what the builder may still request. */
  datatype State = State(maxBatchSize: nat, highWaterMark: nat, counter: seq<nat>, sizes: seq<nat>, local: seq<nat>,
                         threads: seq<Thread>, given: seq<nat>, ranges: seq<seq<Range>>, frontier: nat, remaining: nat)

  datatype Action =
    | Request(t: nat, num: nat)
    | LoadMark(t: nat)
    | Probe(t: nat)
    | Book(t: nat)
    | Reload(t: nat)
    | CompareAndSwap(t: nat)
    | LevelUp(t: nat)
    | ScanLocal(t: nat)

  predicate Enabled(s: State, a: Action) {
    && a.t < |s.threads| == |s.local|
    && |s.counter| == |s.sizes| == |s.given| == |s.ranges|
    && match a
       case Request(t, num) => s.threads[t].Ready? && 1 <= num <= s.remaining
       case LoadMark(t) => s.threads[t].Checked?
       case Probe(t) => s.threads[t].Probing? && s.threads[t].cur < |s.counter|
       case Book(t) => s.threads[t].Positioned? && s.threads[t].cur < |s.sizes|
       case Reload(t) => s.threads[t].Marking?
       case CompareAndSwap(t) => s.threads[t].Raising?
       case LevelUp(t) => s.threads[t] == Ready(true)
       case ScanLocal(t) => s.threads[t].Scanning?
  }

  function Apply(s: State, a: Action): State
    requires Enabled(s, a)
  {
    match a
    case Request(t, num) =>
      var min := s.local[t];
      s.(threads := s.threads[t := if min <= s.highWaterMark then Checked(min, num) else Probing(min, min, num, false)],
         remaining := s.remaining - num)
    case LoadMark(t) =>
      var th := s.threads[t];
      s.(threads := s.threads[t := Probing(th.min, s.highWaterMark, th.num, true)])
    case Probe(t) =>
      var th := s.threads[t];
      var pos := s.counter[th.cur];
      var s' := s.(counter := s.counter[th.cur := pos + th.num]);
      if pos < s.maxBatchSize then
        s'.(threads := s.threads[t := Positioned(th.min, th.cur, th.num, th.raise)],
            given := s.given[th.cur := s.given[th.cur] + th.num],
            ranges := s.ranges[th.cur := s.ranges[th.cur] + [Range(pos, th.num)]],
            frontier := if s.frontier <= th.cur then th.cur + 1 else s.frontier)
      else
        s'.(threads := s.threads[t := Probing(th.min, th.cur + 1, th.num, th.raise)])
    case Book(t) =>
      var th := s.threads[t];
      var s' := s.(sizes := s.sizes[th.cur := s.sizes[th.cur] + th.num]);
      if th.raise then s'.(threads := s.threads[t := Marking(th.min, th.cur, true)])
      else s'.(threads := s.threads[t := Ready(true)], local := s.local[t := th.cur])
    case Reload(t) =>
      var th := s.threads[t];
      s.(threads := s.threads[t := Raising(th.min, th.target, s.highWaterMark, th.requested)])
    case CompareAndSwap(t) =>
      var th := s.threads[t];
      if th.target <= th.seen then
        s.(threads := s.threads[t := Ready(th.requested)], local := if th.requested then s.local[t := th.target] else s.local)
      else if s.highWaterMark == th.seen then s.(highWaterMark := th.target)
      else s.(threads := s.threads[t := Raising(th.min, th.target, s.highWaterMark, th.requested)])
    case LevelUp(t) =>
      s.(local := s.local[t := s.local[t] + 1], threads := s.threads[t := Scanning(0, s.local[t] + 1)])
    case ScanLocal(t) =>
      var th := s.threads[t];
      if th.i < |s.local| then
        s.(threads := s.threads[t := Scanning(th.i + 1, if s.local[th.i] < th.min then s.local[th.i] else th.min)])
      else
        s.(threads := s.threads[t := Marking(0, th.min, false)])
  }

  // ---------- The invariant ----------

  /** The ranges follow each other without gap or overlap, and every base is below the batch size. */
  ghost predicate Tiles(ranges: seq<Range>, total: nat, maxBatchSize: nat)
    decreases |ranges|
  {
    if ranges == [] then total == 0
    else
      var last := ranges[|ranges| - 1];
      last.num > 0 && last.base < maxBatchSize && total == last.base + last.num
      && Tiles(ranges[..|ranges| - 1], last.base, maxBatchSize)
  }

  ghost predicate BatchOk(s: State, b: nat)
    requires |s.counter| == |s.given| == |s.ranges| && b < |s.counter|
  {
    && (s.counter[b] > 0 <==> b < s.frontier)
    && (s.given[b] > 0 <==> b < s.frontier)
    && (s.counter[b] == s.given[b] || s.given[b] >= s.maxBatchSize)
    && s.given[b] <= s.counter[b]
    && Tiles(s.ranges[b], s.given[b], s.maxBatchSize)
  }

  ghost predicate ThreadOk(s: State, t: nat)
    requires t < |s.threads| == |s.local|
  {
    && s.local[t] <= s.frontier
    && match s.threads[t]
       case Ready(requested) => requested ==> s.local[t] < s.frontier
       case Checked(min, num) => num >= 1 && min == s.local[t] <= s.highWaterMark
       case Probing(min, cur, num, _) => num >= 1 && min == s.local[t] <= cur <= s.frontier
       case Positioned(min, cur, num, _) => num >= 1 && min == s.local[t] <= cur < s.frontier
       case Marking(min, target, requested) => target <= s.frontier && (requested ==> min == s.local[t] <= target < s.frontier)
       case Raising(min, target, _, requested) => target <= s.frontier && (requested ==> min == s.local[t] <= target < s.frontier)
       case Scanning(_, min) => min <= s.frontier
  }

  function Unplaced(th: Thread): int {
    match th
    case Checked(_, num) => num
    case Probing(_, _, num, _) => num
    case _ => 0
  }

  function UnplacedColumn(s: State): seq<int> {
    seq(|s.threads|, t requires 0 <= t < |s.threads| => Unplaced(s.threads[t]))
  }

  function Unbooked(th: Thread, b: nat): int {
    if th.Positioned? && th.cur == b then th.num else 0
  }

  function UnbookedColumn(s: State, b: nat): seq<int> {
    seq(|s.threads|, t requires 0 <= t < |s.threads| => Unbooked(s.threads[t], b))
  }

  /** The number of batches is the number of nodes, and fewer than all nodes are uncontracted. */
  ghost predicate Inv(s: State) {
    && |s.counter| == |s.sizes| == |s.given| == |s.ranges|
    && |s.threads| == |s.local|
    && s.maxBatchSize >= 1
    && s.frontier <= |s.counter|
    && s.highWaterMark <= s.frontier
    && (forall b: nat :: b < |s.counter| ==> BatchOk(s, b))
    && (forall t: nat :: t < |s.threads| ==> ThreadOk(s, t))
    && (forall b: nat :: b < |s.counter| ==> s.sizes[b] + Sum(UnbookedColumn(s, b)) == s.given[b])
    && Sum(s.given) + Sum(UnplacedColumn(s)) + s.remaining < |s.counter|
  }

  /** In-use batches hold at least one uncontraction each, so probing stays inside the arrays. */
  lemma FrontierBounded(s: State)
    requires Inv(s)
    ensures s.frontier <= Sum(s.given)
  {
    var ones := seq(|s.given|, b => if b < s.frontier then 1 else 0);
    OnesBelow(|s.given|, s.frontier);
    forall b | 0 <= b < |s.given| ensures ones[b] <= s.given[b] {
      assert BatchOk(s, b);
    }
    SumMonotone(ones, s.given);
  }

  lemma {:induction false} OnesBelow(n: nat, k: nat)
    requires k <= n
    ensures Sum(seq(n, b => if b < k then 1 else 0)) == k
  {
    var ones := seq(n, b => if b < k then 1 else 0);
    if k == 0 {
      SumZero(ones);
    } else {
      assert ones[1..] == seq(n - 1, b => if b < k - 1 then 1 else 0);
      OnesBelow(n - 1, k - 1);
    }
  }

  lemma UnplacedAtLeast(s: State, t: nat)
    requires Inv(s) && t < |s.threads|
    ensures Sum(UnplacedColumn(s)) >= Unplaced(s.threads[t]) >= 0
  {
    forall j | 0 <= j < |s.threads| ensures UnplacedColumn(s)[j] >= 0 {
      assert ThreadOk(s, j);
    }
    SumAtLeast(UnplacedColumn(s), t);
  }

  /** Whoever probes finds a batch inside the arrays. */
  lemma ProbeInBounds(s: State, t: nat)
    requires Inv(s) && t < |s.threads| && s.threads[t].Probing?
    ensures s.threads[t].cur < |s.counter|
  {
    FrontierBounded(s);
    UnplacedAtLeast(s, t);
    assert ThreadOk(s, t);
  }

  lemma ColumnsAfter(s: State, s': State, t: nat, b: nat)
    requires t < |s.threads| == |s'.threads| && s'.threads == s.threads[t := s'.threads[t]]
    ensures Sum(UnplacedColumn(s')) == Sum(UnplacedColumn(s)) - Unplaced(s.threads[t]) + Unplaced(s'.threads[t])
    ensures Sum(UnbookedColumn(s', b)) == Sum(UnbookedColumn(s, b)) - Unbooked(s.threads[t], b) + Unbooked(s'.threads[t], b)
  {
    SumUpdate(UnplacedColumn(s), t, Unplaced(s'.threads[t]));
    assert UnplacedColumn(s') == UnplacedColumn(s)[t := Unplaced(s'.threads[t])];
    SumUpdate(UnbookedColumn(s, b), t, Unbooked(s'.threads[t], b));
    assert UnbookedColumn(s', b) == UnbookedColumn(s, b)[t := Unbooked(s'.threads[t], b)];
  }

  lemma BatchAfterProbe(s: State, a: Action, b: nat)
    requires Inv(s) && a.Probe? && Enabled(s, a) && b < |s.counter|
    ensures BatchOk(Apply(s, a), b)
  {
    var s' := Apply(s, a);
    assert BatchOk(s, b) && ThreadOk(s, a.t) && BatchOk(s, s.threads[a.t].cur);
    if b == s.threads[a.t].cur && s.counter[b] < s.maxBatchSize {
      assert s'.ranges[b][..|s'.ranges[b]| - 1] == s.ranges[b];
    }
  }

  /** The frontier never falls, and no thread changes the state of another. */
  lemma FrontGrows(s: State, a: Action)
    requires Inv(s) && Enabled(s, a)
    ensures var s' := Apply(s, a);
            && |s'.threads| == |s.threads| == |s'.local| && s'.frontier >= s.frontier && s'.highWaterMark >= s.highWaterMark
            && forall t :: 0 <= t < |s.threads| && t != a.t ==> s'.threads[t] == s.threads[t] && s'.local[t] == s.local[t]
  {
    hide Tiles;
    assert ThreadOk(s, a.t);
  }

  lemma ThreadAfter(s: State, a: Action, t: nat)
    requires Inv(s) && Enabled(s, a) && t < |s.threads|
    ensures |Apply(s, a).threads| == |Apply(s, a).local| == |s.threads| && ThreadOk(Apply(s, a), t)
  {
    FrontGrows(s, a);
    if t == a.t {
      OwnThreadAfter(s, a);
    } else {
      assert ThreadOk(s, t);
      hide Apply;
    }
  }

  lemma OwnThreadAfter(s: State, a: Action)
    requires Inv(s) && Enabled(s, a)
    ensures |Apply(s, a).threads| == |Apply(s, a).local| == |s.threads| && ThreadOk(Apply(s, a), a.t)
  {
    hide Tiles;
    assert ThreadOk(s, a.t);
    if a.Probe? {
      assert BatchOk(s, s.threads[a.t].cur);
    } else if a.ScanLocal? && s.threads[a.t].i < |s.local| {
      assert ThreadOk(s, s.threads[a.t].i);
    }
  }

  lemma SizesAfter(s: State, a: Action, b: nat)
    requires Inv(s) && Enabled(s, a) && b < |s.counter|
    ensures Apply(s, a).sizes[b] + Sum(UnbookedColumn(Apply(s, a), b)) == Apply(s, a).given[b]
  {
    ColumnsAfter(s, Apply(s, a), a.t, b);
    assert s.sizes[b] + Sum(UnbookedColumn(s, b)) == s.given[b];
  }

  lemma BudgetAfter(s: State, a: Action)
    requires Inv(s) && Enabled(s, a)
    ensures Sum(Apply(s, a).given) + Sum(UnplacedColumn(Apply(s, a))) + Apply(s, a).remaining < |s.counter|
  {
    var s' := Apply(s, a);
    ColumnsAfter(s, s', a.t, 0);
    if a.Probe? && s.counter[s.threads[a.t].cur] < s.maxBatchSize {
      var given: seq<int> := s.given;
      SumUpdate(given, s.threads[a.t].cur, s.given[s.threads[a.t].cur] + s.threads[a.t].num);
      assert given[s.threads[a.t].cur := s.given[s.threads[a.t].cur] + s.threads[a.t].num] == s'.given;
    }
  }

  lemma StepKeeps(s: State, a: Action)
    requires Inv(s) && Enabled(s, a)
    ensures Inv(Apply(s, a))
  {
    var s' := Apply(s, a);
    FrontAfter(s, a);
    forall b: nat | b < |s.counter| ensures BatchOk(s', b) && s'.sizes[b] + Sum(UnbookedColumn(s', b)) == s'.given[b] {
      BatchAfter(s, a, b);
      SizesAfter(s, a, b);
    }
    forall t: nat | t < |s.threads| ensures ThreadOk(s', t) {
      ThreadAfter(s, a, t);
    }
    BudgetAfter(s, a);
  }

  lemma FrontAfter(s: State, a: Action)
    requires Inv(s) && Enabled(s, a)
    ensures var s' := Apply(s, a);
            && |s'.counter| == |s'.sizes| == |s'.given| == |s'.ranges| == |s.counter| && |s'.threads| == |s'.local| == |s.threads|
            && s'.maxBatchSize == s.maxBatchSize && s'.frontier <= |s'.counter| && s'.highWaterMark <= s'.frontier
  {
    assert ThreadOk(s, a.t);
  }

  lemma BatchAfter(s: State, a: Action, b: nat)
    requires Inv(s) && Enabled(s, a) && b < |s.counter|
    ensures BatchOk(Apply(s, a), b)
  {
    assert BatchOk(s, b);
    if a.Probe? { BatchAfterProbe(s, a, b); }
  }

  // ---------- Runs ----------

  ghost predicate CanRun(s: State, run: seq<Action>)
    decreases |run|
  {
    run == [] || (Enabled(s, run[0]) && CanRun(Apply(s, run[0]), run[1..]))
  }

  ghost function Run(s: State, run: seq<Action>): State
    requires CanRun(s, run)
    decreases |run|
  {
    if run == [] then s else Run(Apply(s, run[0]), run[1..])
  }

  ghost function Initial(numNodes: nat, maxBatchSize: nat, numThreads: nat, numUncontractions: nat): State {
    State(maxBatchSize, 0, seq(numNodes, b => 0), seq(numNodes, b => 0), seq(numThreads, t => 0),
          seq(numThreads, t => Ready(false)), seq(numNodes, b => 0), seq(numNodes, b => []), 0, numUncontractions)
  }

  lemma InitialInv(numNodes: nat, maxBatchSize: nat, numThreads: nat, numUncontractions: nat)
    requires maxBatchSize >= 1 && numUncontractions < numNodes
    ensures Inv(Initial(numNodes, maxBatchSize, numThreads, numUncontractions))
  {
    var s := Initial(numNodes, maxBatchSize, numThreads, numUncontractions);
    SumZero(s.given);
    SumZero(UnplacedColumn(s));
    forall b: nat | b < numNodes ensures s.sizes[b] + Sum(UnbookedColumn(s, b)) == s.given[b] {
      SumZero(UnbookedColumn(s, b));
    }
  }

  lemma {:induction false} RunKeeps(s: State, run: seq<Action>)
    requires Inv(s) && CanRun(s, run)
    ensures Inv(Run(s, run)) && |Run(s, run).counter| == |s.counter| && Run(s, run).maxBatchSize == s.maxBatchSize
    decreases |run|
  {
    if run != [] {
      StepKeeps(s, run[0]);
      RunKeeps(Apply(s, run[0]), run[1..]);
    }
  }

  ghost predicate Quiescent(s: State) {
    forall t :: 0 <= t < |s.threads| ==> s.threads[t].Ready?
  }

  ghost predicate Assigned(ranges: seq<Range>, p: nat) {
    exists i :: 0 <= i < |ranges| && ranges[i].base <= p < ranges[i].base + ranges[i].num
  }

  /** Tiling ranges hit every position below the total exactly once. */
  lemma {:induction false} TileAt(ranges: seq<Range>, total: nat, maxBatchSize: nat, p: nat) returns (i: nat)
    requires Tiles(ranges, total, maxBatchSize) && p < total
    ensures i < |ranges| && ranges[i].base <= p < ranges[i].base + ranges[i].num
    ensures forall j :: 0 <= j < |ranges| && ranges[j].base <= p < ranges[j].base + ranges[j].num ==> j == i
    decreases |ranges|
  {
    var front, last := ranges[..|ranges| - 1], ranges[|ranges| - 1];
    if p < last.base {
      i := TileAt(front, last.base, maxBatchSize, p);
    } else {
      i := |ranges| - 1;
      TilesBelow(front, last.base, maxBatchSize);
    }
  }

  lemma {:induction false} TilesBelow(ranges: seq<Range>, total: nat, maxBatchSize: nat)
    requires Tiles(ranges, total, maxBatchSize)
    ensures forall i :: 0 <= i < |ranges| ==> ranges[i].base < maxBatchSize && ranges[i].base + ranges[i].num <= total
    decreases |ranges|
  {
    if ranges != [] {
      TilesBelow(ranges[..|ranges| - 1], ranges[|ranges| - 1].base, maxBatchSize);
    }
  }

  lemma {:induction false} TilesNonEmpty(ranges: seq<Range>, total: nat, maxBatchSize: nat)
    requires Tiles(ranges, total, maxBatchSize)
    ensures forall i :: 0 <= i < |ranges| ==> ranges[i].num > 0
    decreases |ranges|
  {
    if ranges != [] {
      TilesNonEmpty(ranges[..|ranges| - 1], ranges[|ranges| - 1].base, maxBatchSize);
    }
  }

  /** A successful probe finds the position behind all ranges of its batch. */
  lemma OpenPosition(s: State, a: Action)
    requires Inv(s) && Enabled(s, a) && a.Probe? && s.counter[s.threads[a.t].cur] < s.maxBatchSize
    ensures var b := s.threads[a.t].cur; b < |s.ranges| && Tiles(s.ranges[b], s.counter[b], s.maxBatchSize)
  {
    assert BatchOk(s, s.threads[a.t].cur);
  }

  lemma RangesAfter(s: State, a: Action)
    requires Enabled(s, a)
    ensures Apply(s, a).ranges == if a.Probe? && s.counter[s.threads[a.t].cur] < s.maxBatchSize then
              var th := s.threads[a.t]; s.ranges[th.cur := s.ranges[th.cur] + [Range(s.counter[th.cur], th.num)]]
            else s.ranges
  {
  }

  /** Whatever the interleaving of requests: the ranges of a batch are disjoint and cover exactly
      the positions below its size, every base position is below the maximum batch size, and the
      batches in use are the first ones, without a gap. */
  lemma AssignmentsTile(numNodes: nat, maxBatchSize: nat, numThreads: nat, numUncontractions: nat, run: seq<Action>, b: nat)
    requires maxBatchSize >= 1 && numUncontractions < numNodes && b < numNodes
    requires CanRun(Initial(numNodes, maxBatchSize, numThreads, numUncontractions), run)
    requires Quiescent(Run(Initial(numNodes, maxBatchSize, numThreads, numUncontractions), run))
    ensures var s := Run(Initial(numNodes, maxBatchSize, numThreads, numUncontractions), run);
            && |s.sizes| == |s.ranges| == numNodes && s.frontier < numNodes
            && (s.sizes[b] > 0 <==> b < s.frontier)
            && (forall i :: 0 <= i < |s.ranges[b]| ==> s.ranges[b][i].base < maxBatchSize)
            && (forall p: nat :: Assigned(s.ranges[b], p) <==> p < s.sizes[b])
            && (forall i, j :: 0 <= i < j < |s.ranges[b]| ==>
                  s.ranges[b][i].base + s.ranges[b][i].num <= s.ranges[b][j].base
                  || s.ranges[b][j].base + s.ranges[b][j].num <= s.ranges[b][i].base)
  {
    InitialInv(numNodes, maxBatchSize, numThreads, numUncontractions);
    RunKeeps(Initial(numNodes, maxBatchSize, numThreads, numUncontractions), run);
    var s := Run(Initial(numNodes, maxBatchSize, numThreads, numUncontractions), run);
    SumZero(UnbookedColumn(s, b));
    assert s.sizes[b] + Sum(UnbookedColumn(s, b)) == s.given[b];
    FrontierBounded(s);
    SumZero(UnplacedColumn(s));
    assert BatchOk(s, b);
    TilesBelow(s.ranges[b], s.given[b], maxBatchSize);
    forall p: nat ensures Assigned(s.ranges[b], p) <==> p < s.sizes[b] {
      if p < s.sizes[b] {
        var i := TileAt(s.ranges[b], s.given[b], maxBatchSize, p);
      }
    }
    TilesApart(s.ranges[b], s.given[b], maxBatchSize);
  }

  lemma {:induction false} TilesApart(ranges: seq<Range>, total: nat, maxBatchSize: nat)
    requires Tiles(ranges, total, maxBatchSize)
    ensures forall i, j :: 0 <= i < j < |ranges| ==> ranges[i].base + ranges[i].num <= ranges[j].base
    decreases |ranges|
  {
    if ranges != [] {
      var front, last := ranges[..|ranges| - 1], ranges[|ranges| - 1];
      TilesApart(front, last.base, maxBatchSize);
      TilesBelow(front, last.base, maxBatchSize);
      forall i, j | 0 <= i < j < |ranges| ensures ranges[i].base + ranges[i].num <= ranges[j].base {
        if j == |ranges| - 1 { assert ranges[i] == front[i]; } else { assert ranges[i] == front[i] && ranges[j] == front[j]; }
      }
    }
  }

  /** At rest the ranges of every batch tile exactly its size. */
  lemma SizesAtRest(s: State)
    requires Inv(s) && Quiescent(s)
    ensures |s.sizes| == |s.ranges| && forall b: nat :: b < |s.ranges| ==> Tiles(s.ranges[b], s.sizes[b], s.maxBatchSize)
  {
    forall b: nat | b < |s.ranges| ensures Tiles(s.ranges[b], s.sizes[b], s.maxBatchSize) {
      SumZero(UnbookedColumn(s, b));
      assert s.sizes[b] + Sum(UnbookedColumn(s, b)) == s.given[b];
      assert BatchOk(s, b);
    }
  }

  /** A request never gets a batch below the one its thread asked for. */
  lemma NeverBelowRequest(s: State, t: nat)
    requires Inv(s) && t < |s.threads|
    ensures match s.threads[t]
            case Positioned(min, cur, _, _) => min == s.local[t] <= cur
            case Marking(min, target, requested) => requested ==> min == s.local[t] <= target
            case Raising(min, target, _, requested) => requested ==> min == s.local[t] <= target
            case _ => true
  {
    assert ThreadOk(s, t);
  }

  // ---------- The assigner after the threads have joined ----------

  /** What is left in memory once all requests have returned. */
  ghost predicate AtRest(highWaterMark: nat, counter: seq<nat>, sizes: seq<nat>, maxBatchSize: nat, frontier: nat) {
    && |counter| == |sizes| && maxBatchSize >= 1
    && highWaterMark <= frontier < |counter|
    && (forall b :: 0 <= b < |counter| ==> (sizes[b] > 0 <==> b < frontier) && (counter[b] > 0 <==> b < frontier))
    && (forall b :: 0 <= b < |counter| ==> counter[b] == sizes[b] || (counter[b] > sizes[b] >= maxBatchSize))
  }

  lemma QuiescentAtRest(s: State)
    requires Inv(s) && Quiescent(s)
    ensures AtRest(s.highWaterMark, s.counter, s.sizes, s.maxBatchSize, s.frontier)
  {
    FrontierBounded(s);
    SumZero(UnplacedColumn(s));
    forall b: nat | b < |s.counter|
      ensures (s.sizes[b] > 0 <==> b < s.frontier) && (s.counter[b] > 0 <==> b < s.frontier)
      ensures s.counter[b] == s.sizes[b] || (s.counter[b] > s.sizes[b] >= s.maxBatchSize)
    {
      SumZero(UnbookedColumn(s, b));
      assert s.sizes[b] + Sum(UnbookedColumn(s, b)) == s.given[b];
      assert BatchOk(s, b);
    }
  }

  /** A search from below has come to batch b; it left its mark on full batches only. */
  ghost predicate Probed(counter: seq<nat>, counter': seq<nat>, b: nat, num: nat, maxBatchSize: nat) {
    && |counter'| == |counter| && b < |counter| && counter'[b] == counter[b] + num
    && forall c :: 0 <= c < |counter| && c != b ==>
         counter'[c] == counter[c] || (c < b && counter'[c] > counter[c] >= maxBatchSize)
  }

  lemma ProbedFurther(counter: seq<nat>, counter': seq<nat>, b: nat, num: nat, maxBatchSize: nat)
    requires b > 0 && Probed(counter, counter', b - 1, num, maxBatchSize) && counter[b - 1] >= maxBatchSize && b < |counter| && num > 0
    ensures counter'[b] == counter[b] && Probed(counter, counter'[b := counter[b] + num], b, num, maxBatchSize)
  {
  }

  /** Full batches lie below the frontier. */
  lemma StillInUse(highWaterMark: nat, counter: seq<nat>, sizes: seq<nat>, maxBatchSize: nat, frontier: nat, b: nat)
    requires AtRest(highWaterMark, counter, sizes, maxBatchSize, frontier) && b < |counter| && counter[b] >= maxBatchSize
    ensures b < frontier && sizes[b] >= maxBatchSize
  {
  }

  /** The search ends at the first free position of an open batch. */
  lemma FreshRange(highWaterMark: nat, counter: seq<nat>, counter': seq<nat>, sizes: seq<nat>, maxBatchSize: nat, frontier: nat, b: nat, num: nat)
    requires AtRest(highWaterMark, counter, sizes, maxBatchSize, frontier) && Probed(counter, counter', b, num, maxBatchSize)
    requires b <= frontier && frontier + 1 < |counter| && counter[b] < maxBatchSize && num > 0
    ensures sizes[b] == counter[b]
    ensures AtRest(highWaterMark, counter', sizes[b := sizes[b] + num], maxBatchSize, if b == frontier then frontier + 1 else frontier)
  {
  }

  /** The assigner object, as one thread alone sees it. */
  class BatchIndexAssigner {
    const maxBatchSize: nat
    var highWaterMark: nat
    const currentBatchCounter: array<nat>
    const currentBatchSizes: array<nat>
    ghost var frontier: nat

    ghost predicate Valid()
      reads this, currentBatchCounter, currentBatchSizes
    {
      && currentBatchCounter != currentBatchSizes
      && AtRest(highWaterMark, currentBatchCounter[..], currentBatchSizes[..], maxBatchSize, frontier)
    }

    /** The object holds the memory that the threads left behind. */
    ghost predicate Holds(s: State)
      reads this, currentBatchCounter, currentBatchSizes
    {
      && currentBatchCounter != currentBatchSizes && maxBatchSize == s.maxBatchSize && highWaterMark == s.highWaterMark
      && currentBatchCounter[..] == s.counter && currentBatchSizes[..] == s.sizes && frontier == s.frontier
    }

    /** Once all requests have returned, the object may be read and reset, whatever their interleaving was. */
    lemma ValidAfterThreads(s: State)
      requires Inv(s) && Quiescent(s) && Holds(s)
      ensures Valid()
    {
      QuiescentAtRest(s);
    }

    constructor (numNodes: nat, maxBatchSize: nat)
      requires numNodes > 0 && maxBatchSize > 0
      ensures Valid() && fresh(currentBatchCounter) && fresh(currentBatchSizes)
      ensures highWaterMark == frontier == 0 && this.maxBatchSize == maxBatchSize
      ensures currentBatchSizes[..] == currentBatchCounter[..] == seq(numNodes, b => 0)
    {
      this.maxBatchSize := maxBatchSize;
      highWaterMark := 0;
      currentBatchCounter := new nat[numNodes](b => 0);
      currentBatchSizes := new nat[numNodes](b => 0);
      frontier := 0;
    }

    method IncreaseHighWaterMark(newHighWaterMark: nat)
      requires Valid() && newHighWaterMark <= frontier
      modifies this`highWaterMark
      ensures Valid() && highWaterMark == if newHighWaterMark > old(highWaterMark) then newHighWaterMark else old(highWaterMark)
    {
      if newHighWaterMark > highWaterMark {
        highWaterMark := newHighWaterMark;
      }
    }

    /** Places a group of uncontractions in the first open batch that is not below the request. */
    method GetBatchIndex(minRequiredBatch: nat, numUncontractions: nat) returns (batchIndex: nat, batchPos: nat)
      requires Valid() && minRequiredBatch <= frontier && numUncontractions >= 1
      requires frontier + 1 < currentBatchCounter.Length
      modifies this, currentBatchCounter, currentBatchSizes
      ensures Valid()
      ensures minRequiredBatch <= batchIndex <= old(frontier)
      ensures frontier == if batchIndex == old(frontier) then batchIndex + 1 else old(frontier)
      ensures batchIndex < currentBatchSizes.Length && batchPos == old(currentBatchSizes[..])[batchIndex] < maxBatchSize
      ensures currentBatchSizes[..] == old(currentBatchSizes[..])[batchIndex := batchPos + numUncontractions]
      ensures var start := if minRequiredBatch <= old(highWaterMark) then old(highWaterMark) else minRequiredBatch;
              && start <= batchIndex
              && forall b :: start <= b < batchIndex ==> old(currentBatchSizes[..])[b] >= maxBatchSize
      ensures highWaterMark == if minRequiredBatch <= old(highWaterMark) then batchIndex else old(highWaterMark)
    {
      ghost var counter: seq<nat>, sizes: seq<nat> := currentBatchCounter[..], currentBatchSizes[..];
      var fromMark := minRequiredBatch <= highWaterMark;
      batchIndex := if fromMark then highWaterMark else minRequiredBatch;
      batchIndex, batchPos := Search(batchIndex, numUncontractions);
      FreshRange(highWaterMark, counter, currentBatchCounter[..], sizes, maxBatchSize, frontier, batchIndex, numUncontractions);
      currentBatchSizes[batchIndex] := currentBatchSizes[batchIndex] + numUncontractions;
      assert currentBatchSizes[..] == sizes[batchIndex := batchPos + numUncontractions];
      if batchIndex == frontier {
        frontier := frontier + 1;
      }
      if fromMark {
        IncreaseHighWaterMark(batchIndex);
      }
    }

    /** Probes batches upwards until one is open. */
    method Search(from: nat, num: nat) returns (batchIndex: nat, batchPos: nat)
      requires Valid() && from <= frontier && num >= 1 && frontier + 1 < currentBatchCounter.Length
      modifies currentBatchCounter
      ensures from <= batchIndex <= frontier && batchPos == old(currentBatchCounter[..])[batchIndex] < maxBatchSize
      ensures Probed(old(currentBatchCounter[..]), currentBatchCounter[..], batchIndex, num, maxBatchSize)
      ensures forall b :: from <= b < batchIndex ==> currentBatchSizes[b] >= maxBatchSize
    {
      ghost var counter: seq<nat>, sizes: seq<nat> := currentBatchCounter[..], currentBatchSizes[..];
      batchIndex := from;
      batchPos := FetchAndAdd(batchIndex, num);
      assert AtRest(highWaterMark, counter, sizes, maxBatchSize, frontier) && |sizes| == |counter|;
      hide AtRest;
      while batchPos >= maxBatchSize
        invariant from <= batchIndex <= frontier && batchIndex < |counter| && batchPos == counter[batchIndex]
        invariant |counter| == currentBatchCounter.Length && Probed(counter, currentBatchCounter[..], batchIndex, num, maxBatchSize)
        invariant |sizes| == |counter| && forall b :: from <= b < batchIndex ==> sizes[b] >= maxBatchSize
        decreases frontier - batchIndex
      {
        StillInUse(highWaterMark, counter, sizes, maxBatchSize, frontier, batchIndex);
        batchIndex := batchIndex + 1;
        ghost var before: seq<nat> := currentBatchCounter[..];
        ProbedFurther(counter, before, batchIndex, num, maxBatchSize);
        batchPos := FetchAndAdd(batchIndex, num);
      }
    }

    method FetchAndAdd(b: nat, num: nat) returns (pos: nat)
      requires b < currentBatchCounter.Length
      modifies currentBatchCounter
      ensures pos == old(currentBatchCounter[..])[b]
      ensures currentBatchCounter[..] == old(currentBatchCounter[..])[b := pos + num]
    {
      pos := currentBatchCounter[b];
      currentBatchCounter[b] := pos + num;
    }

    /** Finds the number of batches in use from the high-water mark, downwards or upwards. */
    method NumberOfNonEmptyBatches() returns (n: nat)
      requires Valid()
      ensures n == frontier
      ensures forall b :: 0 <= b < currentBatchSizes.Length ==> (currentBatchSizes[b] > 0 <==> b < n)
    {
      n := highWaterMark;
      if currentBatchSizes[highWaterMark] == 0 {
        while n > 0 && currentBatchSizes[n] == 0
          invariant n <= highWaterMark && (n < highWaterMark ==> n + 1 >= frontier)
        {
          n := n - 1;
        }
        if currentBatchSizes[n] > 0 {
          n := n + 1;
        }
      } else {
        while currentBatchSizes[n] > 0
          invariant n <= frontier
          decreases frontier - n
        {
          n := n + 1;
        }
      }
    }

    /** Clearing the batches in use makes the assigner indistinguishable from a new one. */
    method Reset(numBatches: nat)
      requires Valid() && numBatches == frontier
      modifies this, currentBatchCounter, currentBatchSizes
      ensures Valid() && highWaterMark == frontier == 0
      ensures currentBatchSizes[..] == currentBatchCounter[..] == seq(currentBatchCounter.Length, b => 0)
    {
      highWaterMark := 0;
      var i := 0;
      while i < numBatches
        invariant i <= numBatches == frontier == old(frontier) && highWaterMark == 0
        invariant forall b :: 0 <= b < currentBatchCounter.Length && (b < i || b >= frontier) ==>
                    currentBatchCounter[b] == currentBatchSizes[b] == 0
      {
        currentBatchCounter[i] := 0;
        currentBatchSizes[i] := 0;
        i := i + 1;
      }
      frontier := 0;
    }
  }
}
