/** What registrations, requests and version changes do, stated on parents, weights, counts and blocks. */
module ContractionOutcomes {
  import opened ContractionForest
  import opened ContractionRuns

  // ---------- Decisions ----------

  /** The outcome of a decision about contracting y onto x, in any state of any run. */
  lemma DecisionOnValues(c: Config, s: State, t: nat)
    requires Enabled(c, s, Decide(t))
    ensures var (x, y, f, tr) := (s.threads[t].x, s.threads[t].y, s.fixed, s.tree);
            var (p, q) := (f.block[x], f.block[y]);
            var tooHeavy := || (p != F.NO_BLOCK && q == F.NO_BLOCK && f.blockWeight[p] + tr.weight[y] > c.limit[p])
                            || (p == F.NO_BLOCK && q != F.NO_BLOCK && f.blockWeight[q] + tr.weight[x] > c.limit[q]);
            var different := p != F.NO_BLOCK && q != F.NO_BLOCK && p != q;
            var (fits, ready) := (tr.weight[x] + tr.weight[y] <= c.maxNodeWeight, tr.enabled[y] && tr.pending[y] == 0);
            var th := Apply(c, s, Decide(t)).threads[t];
            && (th.Merging? <==> fits && ready && (f.total <= 0 || (!tooHeavy && !different)))
            && (th.Rejecting? <==> fits && ready && f.total > 0 && tooHeavy)
            && (th.Reading? <==> tr.enabled[y] && tr.parent[y] == x && (!fits || (ready && f.total > 0 && different)))
            && (th.Idle? <==> !th.Merging? && !th.Rejecting? && !th.Reading?)
  {
    F.AcceptedExactly(s.fixed, c.limit, s.tree.weight, s.threads[t].x, s.threads[t].y, true);
  }

  /** What is different afterwards. */
  lemma DecisionEffect(c: Config, s: State, t: nat)
    requires Enabled(c, s, Decide(t))
    ensures var (x, y, tr, s') := (s.threads[t].x, s.threads[t].y, s.tree, Apply(c, s, Decide(t)));
            var th := s'.threads[t];
            && s'.todo == s.todo && s'.threads == s.threads[t := th]
            && (th.Merging? ==>
                  && th == Merging(x, y)
                  && s'.tree == tr.(weight := tr.weight[x := tr.weight[x] + tr.weight[y]], enabled := tr.enabled[y := false]))
            && (th.Reading? ==>
                  && th == Reading(x) && s'.fixed == s.fixed && s'.tree.parent == tr.parent[y := y] && s'.tree.version == tr.version[y := INVALID_VERSION]
                  && s'.tree.pending == tr.pending[x := tr.pending[x] - 1] && s'.tree.weight == tr.weight && s'.tree.enabled == tr.enabled)
            && (th.Rejecting? || th.Idle? ==> s'.tree == tr)
            && (th.Idle? ==> s'.fixed == s.fixed)
  {
  }

  // ---------- Registrations ----------

  /** A registration of v onto u is entered below the nearest ancestor of u that is a root or waits, unless v has
      a parent or is an ancestor of u. */
  lemma RegistrationOnValues(c: Config, s: State, u: nat, v: nat)
    requires Enabled(c, s, Register(u, v))
    ensures var (tr, s') := (s.tree, Apply(c, s, Register(u, v)));
            if tr.parent[v] == v && v !in tr.up[u] then
              var w := s'.tree.parent[v];
              && w < |tr.parent| && w in tr.up[u] && (tr.parent[w] == w || tr.pending[w] != 0)
              && (forall x: nat :: x in tr.up[u] && x !in tr.up[w] ==> tr.IsNode(x) && tr.parent[x] != x && tr.pending[x] == 0)
              && s'.tree.parent == tr.parent[v := w] && s'.tree.pending == tr.pending[w := tr.pending[w] + 1]
              && s'.tree.version == tr.version[v := tr.current] && s'.todo == s.todo + {v} && s'.threads == s.threads
            else s' == s
  {
    NothingWaitsBelow(s.tree, u);
  }

  // ---------- Versions ----------

  function VersionChanges(run: seq<Action>): nat {
    if run == [] then 0 else (if run[0].NextVersion? then 1 else 0) + VersionChanges(run[1..])
  }

  /** The version counts the version changes. */
  lemma {:induction false} VersionsCountUp(c: Config, s: State, run: seq<Action>)
    requires CanRun(c, s, run)
    ensures Run(c, s, run).tree.current == s.tree.current + VersionChanges(run)
    decreases |run|
  {
    if run != [] {
      VersionsCountUp(c, Apply(c, s, run[0]), run[1..]);
    }
  }

  /** Contractions that are registered before and after a change of version carry different versions. */
  lemma VersionsTellApart(c: Config, s: State, u: nat, v: nat, between: seq<Action>, u': nat, v': nat)
    requires Enabled(c, s, Register(u, v)) && s.tree.parent[v] == v && v !in s.tree.up[u]
    requires CanRun(c, Apply(c, s, Register(u, v)), between)
    requires var s1 := Run(c, Apply(c, s, Register(u, v)), between);
             Enabled(c, s1, Register(u', v')) && s1.tree.parent[v'] == v' && v' !in s1.tree.up[u']
    ensures var (s0, s2) := (Apply(c, s, Register(u, v)), Apply(c, Run(c, Apply(c, s, Register(u, v)), between), Register(u', v')));
            s2.tree.version[v'] == s0.tree.version[v] + VersionChanges(between)
  {
    RegistrationOnValues(c, s, u, v);
    var s0 := Apply(c, s, Register(u, v));
    RegistrationOnValues(c, Run(c, s0, between), u', v');
    VersionsCountUp(c, s0, between);
  }

  // ---------- Progress ----------

  ghost predicate ThreadFits(c: Config, s: State, th: Thread)
    requires InRange(c, s)
  {
    match th
    case Idle => true
    case Reading(y) => s.tree.IsNode(y)
    case Climbing(x, y) => s.tree.IsNode(x) && s.tree.IsNode(y) && x != y
    case Rejecting(x, y, block, _) => s.tree.IsNode(x) && s.tree.IsNode(y) && x != y && block < |s.fixed.blockWeight|
    case Merging(x, y) => s.tree.IsNode(x)
  }

  ghost predicate Fits(c: Config, s: State) {
    && InRange(c, s) && (forall v: nat :: v in s.todo ==> s.tree.IsNode(v))
    && forall t :: 0 <= t < |s.threads| ==> ThreadFits(c, s, s.threads[t])
  }

  lemma TreeStaysForest(c: Config, s: State, a: Action)
    requires Fits(c, s) && Enabled(c, s, a)
    ensures Apply(c, s, a).tree.Forest() && |Apply(c, s, a).tree.parent| == |s.tree.parent|
  {
    hide FixedTest, F.Fixed.Shape, ThreadFits;
    var s' := Apply(c, s, a);
    if a.Register? {
      if Registrable(s.tree, a.u, a.v) {
        NothingWaitsBelow(s.tree, a.u);
        UpClosed(s.tree, a.u, Representative(s.tree, a.u));
        RegisteredForest(s.tree, Representative(s.tree, a.u), a.v);
      }
    } else if a.Decide? || a.TakeBack? {
      var y := s.threads[a.t].y;
      if !s.tree.IsRoot(y) { UnregisteredForest(s.tree, y); }
      if s'.tree.parent == s.tree.parent && s'.tree.up == s.tree.up { SameForest(s.tree, s'.tree); }
    } else {
      SameForest(s.tree, s'.tree);
    }
  }

  lemma BooksKeepShape(c: Config, s: State, a: Action)
    requires Fits(c, s) && Enabled(c, s, a)
    ensures Apply(c, s, a).fixed.Shape(Apply(c, s, a).tree.weight, c.limit)
  {
    hide ThreadFits;
    if a.Decide? && FixedTest(c, s, s.threads[a.t].x, s.threads[a.t].y).Accepted? && s.fixed.total > 0 {
      F.AcceptedShape(s.fixed, c.limit, s.tree.weight, s.tree.weight, s.threads[a.t].x, s.threads[a.t].y);
    }
  }

  lemma SameForest(tr: Tree, tr': Tree)
    requires tr.Forest() && tr'.Shape() && tr'.parent == tr.parent && tr'.up == tr.up
    ensures tr'.Forest()
  {
    forall v: nat | tr'.IsNode(v) ensures tr'.ForestAt(v) {
      assert tr.ForestAt(v);
    }
  }

  lemma StepFits(c: Config, s: State, a: Action)
    requires Fits(c, s) && Enabled(c, s, a)
    ensures Fits(c, Apply(c, s, a))
  {
    TreeStaysForest(c, s, a);
    BooksKeepShape(c, s, a);
  }

  lemma {:induction false} RunFits(c: Config, s: State, run: seq<Action>)
    requires Fits(c, s) && CanRun(c, s, run)
    ensures Fits(c, Run(c, s, run))
    decreases |run|
  {
    if run != [] {
      StepFits(c, s, run[0]);
      RunFits(c, Apply(c, s, run[0]), run[1..]);
    }
  }

  /** In every reachable state, whatever the limits: a thread in the middle of a call can take its next step, or
      another thread that holds one of its nodes can. */
  lemma CallsGoOn(c: Config, weights: seq<nat>, fixed: F.Fixed, numThreads: nat, run: seq<Action>, t: nat) returns (a: Action)
    requires GoodStart(c, weights, fixed) && CanRun(c, Fresh(weights, fixed, numThreads), run)
    requires var s := Run(c, Fresh(weights, fixed, numThreads), run); t < |s.threads| && !s.threads[t].Idle?
    ensures var s := Run(c, Fresh(weights, fixed, numThreads), run);
            && Enabled(c, s, a) && (a.Read? || a.Decide? || a.TakeBack? || a.Unregister?)
            && (a.t == t || (a.TakeBack? && a.t < |s.threads|))
  {
    var s0 := Fresh(weights, fixed, numThreads);
    FreshFits(c, weights, fixed, numThreads);
    RunFits(c, s0, run);
    a := NextStep(c, Run(c, s0, run), t);
  }

  /** Whoever keeps node v locked can go on. */
  lemma HolderGoesOn(c: Config, s: State, v: nat) returns (a: Action)
    requires Fits(c, s) && !Free(s, v)
    ensures a.TakeBack? && a.t < |s.threads| && Enabled(c, s, a)
  {
    var t: nat :| t < |s.threads| && Holds(s.threads[t], v);
    assert ThreadFits(c, s, s.threads[t]);
    a := TakeBack(t);
  }

  lemma NextStep(c: Config, s: State, t: nat) returns (a: Action)
    requires Fits(c, s) && t < |s.threads| && !s.threads[t].Idle?
    ensures Enabled(c, s, a) && (a.Read? || a.Decide? || a.TakeBack? || a.Unregister?)
    ensures a.t == t || (a.TakeBack? && a.t < |s.threads|)
  {
    hide Tree.Forest, F.Fixed.Shape;
    assert ThreadFits(c, s, s.threads[t]);
    match s.threads[t]
    case Reading(y) => a := Read(t);
    case Climbing(x, y) =>
      if !Free(s, x) {
        a := HolderGoesOn(c, s, x);
      } else if !Free(s, y) {
        a := HolderGoesOn(c, s, y);
      } else {
        a := Decide(t);
      }
    case Rejecting(_, _, _, _) => a := TakeBack(t);
    case Merging(x, _) =>
      if !Free(s, x) {
        a := HolderGoesOn(c, s, x);
      } else {
        a := Unregister(t);
      }
  }

  lemma FreshFits(c: Config, weights: seq<nat>, fixed: F.Fixed, numThreads: nat)
    requires GoodStart(c, weights, fixed)
    ensures Fits(c, Fresh(weights, fixed, numThreads))
  {
    FreshTreeOk(weights, fixed, numThreads);
  }
}
