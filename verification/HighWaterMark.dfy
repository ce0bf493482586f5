/** The high-water mark saves probes and nothing else: it never makes a request miss an open batch. */
module HighWaterMark {
  import opened BatchAssigner
  import opened FirstOpenBatch
  import B = BatchThreads
  import S = BatchSchedule

  // The mark is raised to a batch that a search from the mark reached, or to the smallest batch any thread is at.
  // So an open batch below it is one that every thread has left behind.

  /** Batch b is full, or every thread is beyond it. */
  ghost predicate Covered(s: State, b: nat) {
    Full(s, b) || forall t :: 0 <= t < |s.local| ==> s.local[t] > b
  }

  ghost predicate CoveredBelow(s: State, b: nat) {
    forall c: nat {:trigger Covered(s, c)} :: c < b ==> Covered(s, c)
  }

  ghost predicate FullBetween(s: State, a: nat, b: nat) {
    forall c: nat {:trigger Full(s, c)} :: a <= c < b ==> Full(s, c)
  }

  ghost predicate AtLeast(s: State, n: nat, min: nat) {
    forall t :: 0 <= t < n && t < |s.local| ==> s.local[t] >= min
  }

  ghost predicate ThreadCovers(s: State, t: nat)
    requires t < |s.threads| == |s.local|
  {
    match s.threads[t]
    case Probing(min, cur, _, raise) => if raise then CoveredBelow(s, cur) else FullBetween(s, min, cur)
    case Positioned(min, cur, _, raise) => if raise then CoveredBelow(s, cur) else FullBetween(s, min, cur)
    case Marking(_, target, _) => CoveredBelow(s, target)
    case Raising(_, target, _, _) => CoveredBelow(s, target)
    case Scanning(i, min) => min <= s.local[t] && AtLeast(s, i, min)
    case _ => true
  }

  ghost predicate MarkInv(s: State) {
    && Inv(s) && CoveredBelow(s, s.highWaterMark)
    && forall t: nat {:trigger ThreadCovers(s, t)} :: t < |s.threads| ==> ThreadCovers(s, t)
  }

  // ---------- Every step keeps this ----------

  /** Nothing that was covered is uncovered. */
  ghost predicate Later(s: State, s': State) {
    && |s'.local| == |s.local| && (forall t :: 0 <= t < |s.local| ==> s'.local[t] >= s.local[t])
    && (forall b: nat {:trigger Full(s', b)} :: Full(s, b) ==> Full(s', b))
  }

  lemma LaterStep(s: State, a: Action)
    requires Inv(s) && Enabled(s, a)
    ensures Later(s, Apply(s, a)) && |Apply(s, a).threads| == |s.threads|
    ensures forall t :: 0 <= t < |s.threads| && t != a.t ==> Apply(s, a).threads[t] == s.threads[t]
  {
    OnlyGrows(s, a);
    assert ThreadOk(s, a.t);
  }

  lemma StaysCovered(s: State, s': State, b: nat)
    requires Later(s, s') && CoveredBelow(s, b)
    ensures CoveredBelow(s', b)
  {
    forall c: nat | c < b ensures Covered(s', c) {
      assert Covered(s, c);
    }
  }

  lemma OtherCovers(s: State, s': State, t: nat)
    requires Later(s, s') && t < |s.threads| == |s.local| && |s'.threads| == |s.threads| && s'.threads[t] == s.threads[t] && ThreadCovers(s, t)
    ensures ThreadCovers(s', t)
  {
    match s.threads[t]
    case Probing(min, cur, _, raise) => if raise { StaysCovered(s, s', cur); } else { StaysFull(s, s', min, cur); }
    case Positioned(min, cur, _, raise) => if raise { StaysCovered(s, s', cur); } else { StaysFull(s, s', min, cur); }
    case Marking(_, target, _) => StaysCovered(s, s', target);
    case Raising(_, target, _, _) => StaysCovered(s, s', target);
    case _ =>
  }

  lemma StaysFull(s: State, s': State, a: nat, b: nat)
    requires Later(s, s') && FullBetween(s, a, b)
    ensures FullBetween(s', a, b)
  {
    forall c: nat | a <= c < b ensures Full(s', c) {
      assert Full(s, c);
    }
  }

  lemma OneMoreCovered(s: State, b: nat)
    requires CoveredBelow(s, b) && Full(s, b)
    ensures CoveredBelow(s, b + 1)
  {
    assert Covered(s, b);
  }

  /** A scan that has seen all threads knows that none is at a smaller batch. */
  lemma AllBeyond(s: State, min: nat)
    requires AtLeast(s, |s.local|, min)
    ensures CoveredBelow(s, min)
  {
    forall c: nat | c < min ensures Covered(s, c) {
    }
  }

  lemma ProbeCovers(s: State, t: nat)
    requires MarkInv(s) && Enabled(s, Probe(t))
    ensures ThreadCovers(Apply(s, Probe(t)), t)
  {
    var s', th := Apply(s, Probe(t)), s.threads[t];
    LaterStep(s, Probe(t));
    assert ThreadCovers(s, t);
    hide Inv;
    if th.raise {
      StaysCovered(s, s', th.cur);
    } else {
      StaysFull(s, s', th.min, th.cur);
    }
    if s'.threads[t].Probing? {
      assert Full(s', th.cur);
      if th.raise {
        OneMoreCovered(s', th.cur);
      } else {
        forall c: nat | th.min <= c < th.cur + 1 ensures Full(s', c) {}
      }
    }
  }

  lemma ScanCovers(s: State, t: nat)
    requires MarkInv(s) && Enabled(s, ScanLocal(t))
    ensures ThreadCovers(Apply(s, ScanLocal(t)), t)
  {
    var s', th := Apply(s, ScanLocal(t)), s.threads[t];
    assert ThreadCovers(s, t);
    hide Inv;
    if th.i >= |s.local| {
      assert AtLeast(s', |s'.local|, th.min);
      AllBeyond(s', th.min);
    }
  }

  lemma OwnCovers(s: State, a: Action)
    requires MarkInv(s) && Enabled(s, a)
    ensures ThreadCovers(Apply(s, a), a.t)
  {
    var s' := Apply(s, a);
    LaterStep(s, a);
    assert ThreadCovers(s, a.t);
    match a
    case Probe(t) => ProbeCovers(s, t);
    case ScanLocal(t) => ScanCovers(s, t);
    case LoadMark(_) => StaysCovered(s, s', s.highWaterMark);
    case Book(t) => if s.threads[t].raise { StaysCovered(s, s', s.threads[t].cur); }
    case Reload(t) => StaysCovered(s, s', s.threads[t].target);
    case CompareAndSwap(t) => StaysCovered(s, s', s.threads[t].target);
    case _ =>
  }

  lemma MarkStep(s: State, a: Action)
    requires MarkInv(s) && Enabled(s, a)
    ensures MarkInv(Apply(s, a))
  {
    var s' := Apply(s, a);
    StepKeeps(s, a);
    LaterStep(s, a);
    OwnCovers(s, a);
    MarkCovers(s, a);
    hide Inv, Apply, Enabled, ThreadCovers;
    forall t: nat | t < |s'.threads| ensures ThreadCovers(s', t) {
      assert ThreadCovers(s, t);
      if t != a.t { OtherCovers(s, s', t); }
    }
  }

  lemma MarkCovers(s: State, a: Action)
    requires MarkInv(s) && Enabled(s, a)
    ensures CoveredBelow(Apply(s, a), Apply(s, a).highWaterMark)
  {
    var s' := Apply(s, a);
    LaterStep(s, a);
    assert ThreadCovers(s, a.t);
    hide Inv;
    StaysCovered(s, s', s.highWaterMark);
    if s'.highWaterMark != s.highWaterMark {
      StaysCovered(s, s', s.threads[a.t].target);
    }
  }

  // ---------- What a request gets ----------

  /** Between the requested batch and the one that is being probed all batches are full. */
  lemma NothingMissed(s: State, t: nat, b: nat)
    requires MarkInv(s) && t < |s.threads| && (s.threads[t].Probing? || s.threads[t].Positioned?)
    requires s.threads[t].min <= b < s.threads[t].cur
    ensures b < |s.counter| && s.counter[b] >= s.maxBatchSize
  {
    assert ThreadOk(s, t) && ThreadCovers(s, t);
    hide Inv;
    if s.threads[t].raise {
      assert Covered(s, b);
    }
    assert Full(s, b);
  }

  lemma {:induction false} MarkRun(s: State, run: seq<Action>)
    requires MarkInv(s) && CanRun(s, run)
    ensures MarkInv(Run(s, run))
    decreases |run|
  {
    hide MarkInv, Apply, Enabled;
    if run != [] {
      MarkStep(s, run[0]);
      MarkRun(Apply(s, run[0]), run[1..]);
    }
  }

  lemma MarkStarts(numNodes: nat, maxBatchSize: nat, numThreads: nat, numUncontractions: nat)
    requires maxBatchSize >= 1 && numUncontractions < numNodes
    ensures MarkInv(Initial(numNodes, maxBatchSize, numThreads, numUncontractions))
  {
    InitialInv(numNodes, maxBatchSize, numThreads, numUncontractions);
  }

  /** In every run of any number of threads: who gets a place asked for batch `min` or a later one, and every batch
      from there up to the one with the place was full. What is open below the mark lies behind all threads. */
  lemma NoOpenBatchMissed(numNodes: nat, maxBatchSize: nat, numThreads: nat, numUncontractions: nat, run: seq<Action>)
    requires maxBatchSize >= 1 && numUncontractions < numNodes
    requires CanRun(Initial(numNodes, maxBatchSize, numThreads, numUncontractions), run)
    ensures var s := Run(Initial(numNodes, maxBatchSize, numThreads, numUncontractions), run);
            && (forall t: nat, b: nat :: t < |s.threads| && b < |s.counter| && s.threads[t].Positioned? && s.threads[t].min <= b < s.threads[t].cur ==>
                  s.counter[b] >= maxBatchSize)
            && (forall t: nat, b: nat :: t < |s.local| && b < |s.counter| && b < s.highWaterMark && s.counter[b] < maxBatchSize ==> s.local[t] > b)
  {
    var s0 := Initial(numNodes, maxBatchSize, numThreads, numUncontractions);
    MarkStarts(numNodes, maxBatchSize, numThreads, numUncontractions);
    RunKeeps(s0, run);
    MarkRun(s0, run);
    BehindAll(Run(s0, run));
  }

  lemma BehindAll(s: State)
    requires MarkInv(s)
    ensures forall t: nat, b: nat :: t < |s.threads| && b < |s.counter| && s.threads[t].Positioned? && s.threads[t].min <= b < s.threads[t].cur ==>
              s.counter[b] >= s.maxBatchSize
    ensures forall t: nat, b: nat :: t < |s.local| && b < |s.counter| && b < s.highWaterMark && s.counter[b] < s.maxBatchSize ==> s.local[t] > b
  {
    hide Inv, ThreadCovers;
    forall t: nat, b: nat | t < |s.threads| && b < |s.counter| && s.threads[t].Positioned? && s.threads[t].min <= b < s.threads[t].cur
      ensures s.counter[b] >= s.maxBatchSize
    {
      NothingMissed(s, t, b);
    }
    forall t: nat, b: nat | t < |s.local| && b < |s.counter| && b < s.highWaterMark && s.counter[b] < s.maxBatchSize ensures s.local[t] > b {
      assert Covered(s, b) && !Full(s, b);
    }
  }

  // ---------- In the runs of the scheduling threads ----------

  lemma {:induction false} MarkInJointRun(h: S.Hierarchy, ver: nat, s: B.State, run: seq<B.Action>)
    requires MarkInv(s.assigner) && B.CanRun(h, ver, s, run)
    ensures MarkInv(B.Run(h, ver, s, run).assigner)
    decreases |run|
  {
    hide MarkInv;
    if run != [] {
      JointStep(h, ver, s, run[0]);
      hide B.Apply, B.Enabled;
      MarkInJointRun(h, ver, B.Apply(h, ver, s, run[0]), run[1..]);
    }
  }

  lemma JointStep(h: S.Hierarchy, ver: nat, s: B.State, a: B.Action)
    requires MarkInv(s.assigner) && B.Enabled(h, ver, s, a)
    ensures MarkInv(B.Apply(h, ver, s, a).assigner)
  {
    hide MarkInv, Apply, Enabled, S.Turned;
    match a
    case Ask(t, k, until, _) => MarkStep(s.assigner, Request(t, until - s.work[t].pq[k].pos));
    case Inner(i) => MarkStep(s.assigner, i);
    case Answer(t) => MarkStep(s.assigner, LevelUp(t));
  }

  /** The same for the threads that schedule a version: a group gets its place in the first batch, from the current
      batch of its thread on, that is not full. */
  lemma GroupsFillBatches(h: S.Hierarchy, ver: nat, parts: seq<seq<nat>>, maxBatchSize: nat, run: seq<B.Action>, t: nat, b: nat)
    requires B.CanStart(h, ver, parts) && maxBatchSize >= 1 && B.CanRun(h, ver, B.Initial(h, ver, parts, maxBatchSize), run)
    requires var s := B.Run(h, ver, B.Initial(h, ver, parts, maxBatchSize), run).assigner;
             t < |s.threads| && s.threads[t].Positioned? && s.threads[t].min <= b < s.threads[t].cur
    ensures var s := B.Run(h, ver, B.Initial(h, ver, parts, maxBatchSize), run).assigner; b < |s.counter| && s.counter[b] >= s.maxBatchSize
  {
    hide MarkInv, B.Apply, B.Enabled;
    B.FewerThanNodes(h, ver);
    MarkStarts(|h.parent|, maxBatchSize, |parts|, |B.VersionNodes(h, ver)|);
    MarkInJointRun(h, ver, B.Initial(h, ver, parts, maxBatchSize), run);
    NothingMissed(B.Run(h, ver, B.Initial(h, ver, parts, maxBatchSize), run).assigner, t, b);
  }
}
