/** Requests of any number of threads get the first open batch that their search meets. */
module FirstOpenBatch {
  import opened BatchAssigner

  /** Thread t takes steps of its search only. */
  ghost predicate SearchesOnly(run: seq<Action>, t: nat) {
    forall i :: 0 <= i < |run| && run[i].t == t ==> run[i].LoadMark? || run[i].Probe?
  }

  ghost predicate Full(s: State, b: nat) {
    b < |s.counter| && s.counter[b] >= s.maxBatchSize
  }

  /** All batches from m up to where thread t is are full. */
  ghost predicate Passed(s: State, t: nat, m: nat) {
    && t < |s.threads| && (s.threads[t].Probing? || s.threads[t].Positioned?) && m <= s.threads[t].cur
    && forall b: nat {:trigger Full(s, b)} :: m <= b < s.threads[t].cur ==> Full(s, b)
  }

  /** Counters and the mark never fall. */
  lemma OnlyGrows(s: State, a: Action)
    requires Enabled(s, a)
    ensures var s' := Apply(s, a);
            && s'.highWaterMark >= s.highWaterMark && s'.maxBatchSize == s.maxBatchSize && |s'.threads| == |s.threads|
            && (forall b: nat {:trigger Full(s', b)} :: Full(s, b) ==> Full(s', b))
            && (forall t: nat :: t < |s.threads| && t != a.t ==> s'.threads[t] == s.threads[t])
  {
  }

  lemma OwnProbe(s: State, t: nat, m: nat)
    requires Enabled(s, Probe(t)) && Passed(s, t, m)
    ensures Passed(Apply(s, Probe(t)), t, m)
  {
    var s' := Apply(s, Probe(t));
    OnlyGrows(s, Probe(t));
    forall b: nat | m <= b < s'.threads[t].cur ensures Full(s', b) {
      if b < s.threads[t].cur { assert Full(s, b); }
    }
  }

  lemma {:induction false} StaysPassed(s: State, t: nat, m: nat, run: seq<Action>)
    requires Passed(s, t, m) && CanRun(s, run) && SearchesOnly(run, t)
    ensures Passed(Run(s, run), t, m) && Run(s, run).highWaterMark >= s.highWaterMark
    decreases |run|
  {
    if run != [] {
      var s' := Apply(s, run[0]);
      OnlyGrows(s, run[0]);
      if run[0].t == t {
        OwnProbe(s, t, m);
      } else {
        forall b: nat | m <= b < s'.threads[t].cur ensures Full(s', b) {
          assert Full(s, b);
        }
      }
      StaysPassed(s', t, m, run[1..]);
    }
  }

  /** A thread that has compared its request with the mark starts at the mark as it is when it is loaded. */
  lemma {:induction false} StartsAtMark(s: State, t: nat, run: seq<Action>) returns (m: nat)
    requires t < |s.threads| && s.threads[t].Checked? && CanRun(s, run) && SearchesOnly(run, t)
    requires t < |Run(s, run).threads| && Run(s, run).threads[t].Positioned?
    ensures s.highWaterMark <= m <= Run(s, run).highWaterMark && Passed(Run(s, run), t, m)
    decreases |run|
  {
    var s' := Apply(s, run[0]);
    OnlyGrows(s, run[0]);
    if run[0].t == t {
      m := s.highWaterMark;
      StaysPassed(s', t, m, run[1..]);
    } else {
      m := StartsAtMark(s', t, run[1..]);
    }
  }

  lemma AllFull(s: State, t: nat, m: nat)
    requires Passed(s, t, m)
    ensures s.threads[t].cur > m ==> s.threads[t].cur <= |s.counter|
    ensures forall b: nat :: m <= b < s.threads[t].cur && b < |s.counter| ==> s.counter[b] >= s.maxBatchSize
  {
    forall b: nat | m <= b < s.threads[t].cur && b < |s.counter| ensures s.counter[b] >= s.maxBatchSize {
      assert Full(s, b);
    }
    assert s.threads[t].cur > m ==> Full(s, s.threads[t].cur - 1);
  }

  /** Whatever other threads do during the search: from its start, which is the mark if the request is not above
      it and the requested batch otherwise, up to the batch it gets a place in, all batches are full. */
  lemma FirstOpen(s: State, t: nat, num: nat, run: seq<Action>) returns (m: nat)
    requires Enabled(s, Request(t, num)) && CanRun(Apply(s, Request(t, num)), run) && SearchesOnly(run, t)
    requires var s' := Run(Apply(s, Request(t, num)), run); t < |s'.threads| && s'.threads[t].Positioned?
    ensures var s' := Run(Apply(s, Request(t, num)), run);
            && (if s.local[t] <= s.highWaterMark then s.highWaterMark <= m <= s'.highWaterMark else m == s.local[t])
            && m <= s'.threads[t].cur && (m < s'.threads[t].cur ==> s'.threads[t].cur <= |s'.counter|)
            && forall b: nat :: m <= b < s'.threads[t].cur && b < |s'.counter| ==> s'.counter[b] >= s'.maxBatchSize
  {
    var s1 := Apply(s, Request(t, num));
    if s.local[t] <= s.highWaterMark {
      m := StartsAtMark(s1, t, run);
    } else {
      m := s.local[t];
      StaysPassed(s1, t, m, run);
    }
    AllFull(Run(s1, run), t, m);
  }

  /** The place that a successful probe takes is below the batch size. */
  lemma PlaceIsOpen(s: State, t: nat)
    requires Enabled(s, Probe(t)) && Apply(s, Probe(t)).threads[t].Positioned?
    ensures var b := s.threads[t].cur; s.counter[b] < s.maxBatchSize && Apply(s, Probe(t)).counter == s.counter[b := s.counter[b] + s.threads[t].num]
  {
  }
}
