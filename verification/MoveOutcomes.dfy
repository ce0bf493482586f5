/** Which moves are carried out: exactly those whose node fits into the target block. */
module MoveOutcomes {
  import opened GraphMoves

  predicate ActsFor(a: Action, t: nat) {
    !a.Rephase? && a.t == t
  }

  /** Thread t alone finishes the move that it is in. */
  ghost predicate Finishes(g: Graph, s: State, t: nat, run: seq<Action>)
    decreases |run|
  {
    t < |s.threads| &&
    if s.threads[t].Idle? then run == []
    else run != [] && ActsFor(run[0], t) && Enabled(g, s, run[0]) && Finishes(g, Apply(g, s, run[0]), t, run[1..])
  }

  ghost function After(g: Graph, s: State, t: nat, run: seq<Action>): State
    requires Finishes(g, s, t, run)
    decreases |run|
  {
    if run == [] then s else After(g, Apply(g, s, run[0]), t, run[1..])
  }

  /** A move of u to another block may be asked for. */
  ghost predicate MayAsk(g: Graph, s: State, t: nat, u: nat, to: int) {
    && g.Valid() && Shape(g, s) && t < |s.threads| && s.threads[t].Idle? && u < |g.nodeWeight| && AtRest(s, u)
    && 0 <= to < |g.limit| && to != s.partIds[u]
  }

  // ---------- Thread t alone ----------

  /** Thread t is in the edge loop of its move, and apart from records and reports the state is s0 with the
      weight moved. */
  ghost predicate InLoop(g: Graph, s0: State, s: State, t: nat, u: nat, to: int) {
    && MayAsk(g, s0, t, u, to) && t < |s.threads| == |s0.threads|
    && s.threads[t].InEdgeLoop() && s.threads[t].u == u && s.threads[t].from == s0.partIds[u] && s.threads[t].to == to
    && s.threads[t].i <= |g.incident[u]| && (s.threads[t].Locking? ==> s.threads[t].i < |g.incident[u]|)
    && s.threads == s0.threads[t := s.threads[t]]
    && |s.sync| == |g.edges| == |s.reported|
    && s.partIds == s0.partIds && s.partWeights == WeightsMoved(g, s0, u, to)
    && s.version == s0.version && s.base == s0.base && s.bumps == s0.bumps
  }

  ghost function WeightsMoved(g: Graph, s: State, u: nat, to: int): seq<int>
    requires Shape(g, s) && u < |g.nodeWeight| && 0 <= to < |g.limit|
  {
    var from := s.partIds[u];
    var booked := s.partWeights[to := s.partWeights[to] + g.nodeWeight[u]];
    booked[from := booked[from] - g.nodeWeight[u]]
  }

  /** The state after a move that was carried out, up to records and reports. */
  ghost predicate CarriedOut(g: Graph, s0: State, s: State, u: nat, to: int)
    requires Shape(g, s0) && u < |g.nodeWeight| && 0 <= to < |g.limit|
  {
    && s.partIds == s0.partIds[u := to] && s.threads == s0.threads
    && |s.partWeights| == |s0.partWeights|
    && (forall p :: 0 <= p < |s.partWeights| ==>
          s.partWeights[p] == s0.partWeights[p] + (if p == to then g.nodeWeight[u] else 0) - (if p == s0.partIds[u] then g.nodeWeight[u] else 0))
    && s.version == s0.version && s.base == s0.base && s.bumps == s0.bumps
  }

  lemma BookedState(g: Graph, s: State, t: nat, u: nat, to: int)
    requires MayAsk(g, s, t, u, to)
    ensures Enabled(g, s, Book(t, u, to))
    ensures var s1 := Apply(g, s, Book(t, u, to));
            s1 == s.(partWeights := s.partWeights[to := s.partWeights[to] + g.nodeWeight[u]],
                     threads := s.threads[t := Booked(u, s.partIds[u], to, s.partWeights[to] + g.nodeWeight[u])])
  {
  }

  /** The only action of a thread that has booked. */
  lemma Decision(g: Graph, s: State, t: nat, u: nat, to: int)
    requires MayAsk(g, s, t, u, to) && Enabled(g, s, Book(t, u, to))
    ensures var s1, fits := Apply(g, s, Book(t, u, to)), s.partWeights[to] + g.nodeWeight[u] <= g.limit[to];
            && (forall a :: ActsFor(a, t) && Enabled(g, s1, a) ==> a == if fits then Accept(t) else Reject(t))
            && (fits ==> Enabled(g, s1, Accept(t)) && InLoop(g, s, Apply(g, s1, Accept(t)), t, u, to))
            && (!fits ==> Enabled(g, s1, Reject(t)) && Apply(g, s1, Reject(t)) == s)
  {
    BookedState(g, s, t, u, to);
    var s1, w := Apply(g, s, Book(t, u, to)), s.partWeights;
    assert w[to := w[to] + g.nodeWeight[u]][to := w[to]] == w;
    assert s.threads[t := s1.threads[t]][t := Idle] == s.threads;
  }

  /** In the edge loop every action of t leads further, and the last one stores the block. */
  lemma LoopStep(g: Graph, s0: State, s: State, t: nat, u: nat, to: int, a: Action)
    requires InLoop(g, s0, s, t, u, to) && ActsFor(a, t) && Enabled(g, s, a)
    ensures if a.Store? then CarriedOut(g, s0, Apply(g, s, a), u, to) else InLoop(g, s0, Apply(g, s, a), t, u, to)
  {
    if a.Store? {
      assert s0.threads[t := s.threads[t]][t := Idle] == s0.threads;
    }
  }

  /** There is always such an action. */
  lemma LoopGoesOn(g: Graph, s0: State, s: State, t: nat, u: nat, to: int) returns (a: Action)
    requires InLoop(g, s0, s, t, u, to)
    ensures ActsFor(a, t) && Enabled(g, s, a)
    ensures a.Store? || (var th, th' := s.threads[t], Apply(g, s, a).threads[t]; th'.i == th.i + 1 || (th'.i == th.i && th.Syncing? && th'.Locking?))
  {
    var th := s.threads[t];
    if th.Locking? {
      a := Synchronize(t);
    } else if th.i == |g.incident[u]| {
      a := Store(t);
    } else if g.edges[g.incident[u][th.i]].SinglePin() {
      a := SkipSinglePin(t);
    } else {
      a := ReadOther(t);
    }
  }

  function StepsLeft(g: Graph, th: Thread, u: nat): int
    requires u < |g.incident|
  {
    if th.InEdgeLoop() then 2 * (|g.incident[u]| - th.i) + (if th.Locking? then 0 else 1) else 0
  }

  lemma {:induction false} LoopFinishes(g: Graph, s0: State, s: State, t: nat, u: nat, to: int) returns (run: seq<Action>)
    requires InLoop(g, s0, s, t, u, to)
    ensures Finishes(g, s, t, run)
    decreases StepsLeft(g, s.threads[t], u)
  {
    var a := LoopGoesOn(g, s0, s, t, u, to);
    LoopStep(g, s0, s, t, u, to, a);
    var s' := Apply(g, s, a);
    if a.Store? {
      run := [a];
      assert Finishes(g, s', t, []);
    } else {
      var rest := LoopFinishes(g, s0, s', t, u, to);
      run := [a] + rest;
      assert run[1..] == rest;
    }
  }

  lemma {:induction false} LoopEnds(g: Graph, s0: State, s: State, t: nat, u: nat, to: int, run: seq<Action>)
    requires InLoop(g, s0, s, t, u, to) && Finishes(g, s, t, run)
    ensures CarriedOut(g, s0, After(g, s, t, run), u, to)
    decreases |run|
  {
    LoopStep(g, s0, s, t, u, to, run[0]);
    if !run[0].Store? {
      LoopEnds(g, s0, Apply(g, s, run[0]), t, u, to, run[1..]);
    }
  }

  /** However thread t finishes a move alone: the move is carried out if and only if the node fits into the
      target block, and otherwise the state is the one before. */
  lemma AloneExactlyIfFits(g: Graph, s: State, t: nat, u: nat, to: int, run: seq<Action>)
    requires MayAsk(g, s, t, u, to) && Enabled(g, s, Book(t, u, to)) && Finishes(g, Apply(g, s, Book(t, u, to)), t, run)
    ensures var s' := After(g, Apply(g, s, Book(t, u, to)), t, run);
            if s.partWeights[to] + g.nodeWeight[u] <= g.limit[to] then CarriedOut(g, s, s', u, to) else s' == s
  {
    var s1 := Apply(g, s, Book(t, u, to));
    Decision(g, s, t, u, to);
    BookedState(g, s, t, u, to);
    assert run[0] == if s.partWeights[to] + g.nodeWeight[u] <= g.limit[to] then Accept(t) else Reject(t);
    var s2 := Apply(g, s1, run[0]);
    if run[0].Accept? {
      LoopEnds(g, s, s2, t, u, to, run[1..]);
    }
  }

  /** A thread alone can always ask, and always finishes. */
  lemma AloneFinishes(g: Graph, s: State, t: nat, u: nat, to: int) returns (run: seq<Action>)
    requires MayAsk(g, s, t, u, to)
    ensures Enabled(g, s, Book(t, u, to)) && Finishes(g, Apply(g, s, Book(t, u, to)), t, run)
  {
    BookedState(g, s, t, u, to);
    Decision(g, s, t, u, to);
    var s1 := Apply(g, s, Book(t, u, to));
    if s.partWeights[to] + g.nodeWeight[u] <= g.limit[to] {
      var rest := LoopFinishes(g, s, Apply(g, s1, Accept(t)), t, u, to);
      run := [Accept(t)] + rest;
      assert run[1..] == rest;
    } else {
      run := [Reject(t)];
      assert Finishes(g, s, t, []);
    }
  }

  // ---------- Among other threads ----------

  ghost predicate OthersOnly(run: seq<Action>, t: nat) {
    forall i :: 0 <= i < |run| ==> run[i].Rephase? || run[i].t != t
  }

  ghost predicate Sized(g: Graph, s: State) {
    |s.partIds| == |g.nodeWeight| == |g.incident| && |s.partWeights| == |g.limit|
  }

  lemma OtherStep(g: Graph, s: State, t: nat, a: Action)
    requires Sized(g, s) && t < |s.threads| && s.threads[t].Booked? && !ActsFor(a, t) && Enabled(g, s, a)
    ensures Sized(g, Apply(g, s, a)) && |Apply(g, s, a).threads| == |s.threads| && Apply(g, s, a).threads[t] == s.threads[t]
  {
  }

  /** Whatever other threads do in between: a thread that has booked goes on if and only if the counter was
      within the limit right after its own booking, and gives up otherwise. */
  lemma {:induction false} DecidedByBooking(g: Graph, s: State, t: nat, u: nat, to: int, run: seq<Action>)
    requires MayAsk(g, s, t, u, to) && Enabled(g, s, Book(t, u, to)) && CanRun(g, Apply(g, s, Book(t, u, to)), run) && OthersOnly(run, t)
    ensures var s', fits := Run(g, Apply(g, s, Book(t, u, to)), run), s.partWeights[to] + g.nodeWeight[u] <= g.limit[to];
            forall a :: ActsFor(a, t) ==> (Enabled(g, s', a) <==> a == if fits then Accept(t) else Reject(t))
  {
    BookedState(g, s, t, u, to);
    var s1 := Apply(g, s, Book(t, u, to));
    StillBooked(g, s1, t, run);
  }

  lemma {:induction false} StillBooked(g: Graph, s: State, t: nat, run: seq<Action>)
    requires Sized(g, s) && t < |s.threads| && s.threads[t].Booked? && CanRun(g, s, run) && OthersOnly(run, t)
    ensures var s' := Run(g, s, run); Sized(g, s') && t < |s'.threads| && s'.threads[t] == s.threads[t]
    decreases |run|
  {
    if run != [] {
      assert !ActsFor(run[0], t);
      OtherStep(g, s, t, run[0]);
      StillBooked(g, Apply(g, s, run[0]), t, run[1..]);
    }
  }
}
