/** Concurrent registration and execution of contractions. */
module ContractionRuns {
  import opened Sums
  import opened FiniteSets
  import opened ContractionForest
  import F = FixedVertices

  // Threads register contractions, execute them, and climb the contraction tree as soon as the last pending
  // contraction of a node is done. A registration is one atomic action. Executing a contraction takes
  // several critical sections: deciding, taking back a block weight that turned out too large, and
  // unregistering after the nets have been merged. The parent of a node is read without any lock.

  /** `limit[p]` bounds the weight of the nodes fixed to block p. */
  datatype Config = Config(maxNodeWeight: int, limit: seq<int>)

  datatype Thread =
    | Idle
    | Reading(y: nat)                                     // about to read the parent of y
    | Climbing(x: nat, y: nat)                            // about to contract y onto x
    | Rejecting(x: nat, y: nat, block: nat, delta: nat)   // holds x and y, and added delta to a block that is now too heavy
    | Merging(x: nat, y: nat)                             // y is disabled, its nets are being merged into x

  /** `todo` holds the nodes that were registered and whose contraction was not yet requested. */
  datatype State = State(tree: Tree, fixed: F.Fixed, threads: seq<Thread>, todo: set<nat>)

  datatype Action =
    | Register(u: nat, v: nat)
    | Begin(t: nat, v: nat)
    | Read(t: nat)
    | Decide(t: nat)
    | TakeBack(t: nat)
    | Unregister(t: nat)
    | NextVersion

  /** What a thread does with the contraction it holds: carry it out, give its registration up, leave it
      to others, or take back the weight it added. */
  datatype Verdict = Contract(fixed: F.Fixed) | GiveUp | Leave | Overflow(block: nat, delta: nat)

  // ---------- The actions ----------

  predicate PartnerValid(tr: Tree, v: nat)
    requires v < |tr.enabled| && v < |tr.pending|
  {
    tr.enabled[v] && tr.pending[v] == 0
  }

  predicate WeightFits(c: Config, tr: Tree, u: nat, v: nat)
    requires u < |tr.weight| && v < |tr.weight|
  {
    tr.weight[u] + tr.weight[v] <= c.maxNodeWeight
  }

  /** The fixed vertices are asked only if there are any. */
  function FixedTest(c: Config, s: State, u: nat, v: nat): F.Outcome
    requires s.fixed.Shape(s.tree.weight, c.limit) && u < |s.tree.weight| && v < |s.tree.weight|
  {
    if s.fixed.total <= 0 then F.Accepted(s.fixed) else F.Test(s.fixed, c.limit, s.tree.weight, u, v, true)
  }

  function Judge(c: Config, s: State, u: nat, v: nat): Verdict
    requires s.fixed.Shape(s.tree.weight, c.limit) && u < |s.tree.weight|
    requires v < |s.tree.weight| == |s.tree.enabled| == |s.tree.pending| == |s.tree.parent|
  {
    var failed := if s.tree.enabled[v] && s.tree.parent[v] == u then GiveUp else Leave;
    if !WeightFits(c, s.tree, u, v) then failed
    else if !PartnerValid(s.tree, v) then Leave
    else
      match FixedTest(c, s, u, v)
      case Accepted(fixed) => Contract(fixed)
      case Refused => failed
      case Overflowed(block, delta) => Overflow(block, delta)
  }

  ghost function Merged(tr: Tree, u: nat, v: nat): Tree
    requires u < |tr.weight| && v < |tr.weight| == |tr.enabled|
  {
    tr.(weight := tr.weight[u := tr.weight[u] + tr.weight[v]], enabled := tr.enabled[v := false])
  }

  ghost predicate Quiescent(s: State) {
    forall t :: 0 <= t < |s.threads| ==> s.threads[t].Idle?
  }

  predicate Holds(th: Thread, v: nat) {
    th.Rejecting? && (th.x == v || th.y == v)
  }

  /** No thread keeps node v locked between two actions. */
  ghost predicate Free(s: State, v: nat) {
    forall t :: 0 <= t < |s.threads| ==> !Holds(s.threads[t], v)
  }

  ghost predicate InRange(c: Config, s: State) {
    s.tree.Forest() && s.fixed.Shape(s.tree.weight, c.limit)
  }

  ghost predicate Enabled(c: Config, s: State, a: Action) {
    && InRange(c, s)
    && match a
       case Register(u, v) =>
         && s.tree.IsNode(u) && s.tree.IsNode(v) && u != v && Free(s, v) && Free(s, Representative(s.tree, u))
       case Begin(t, v) => t < |s.threads| && s.threads[t].Idle? && v in s.todo
       case Read(t) => t < |s.threads| && s.threads[t].Reading? && s.tree.IsNode(s.threads[t].y)
       case Decide(t) =>
         && t < |s.threads| && s.threads[t].Climbing?
         && s.tree.IsNode(s.threads[t].x) && s.tree.IsNode(s.threads[t].y) && s.threads[t].x != s.threads[t].y
         && Free(s, s.threads[t].x) && Free(s, s.threads[t].y)
       case TakeBack(t) =>
         && t < |s.threads| && s.threads[t].Rejecting? && s.threads[t].block < |s.fixed.blockWeight|
         && s.tree.IsNode(s.threads[t].x) && s.tree.IsNode(s.threads[t].y) && s.threads[t].x != s.threads[t].y
       case Unregister(t) =>
         t < |s.threads| && s.threads[t].Merging? && s.tree.IsNode(s.threads[t].x) && Free(s, s.threads[t].x)
       case NextVersion =>
         && Quiescent(s) && s.tree.current + 1 < INVALID_VERSION
         && (forall u :: 0 <= u < |s.tree.pending| ==> s.tree.pending[u] == 0)
  }

  ghost function Changed(f: F.Fixed, p: nat, delta: int): F.Fixed
    requires p < |f.blockWeight|
  {
    f.(blockWeight := f.blockWeight[p := f.blockWeight[p] + delta])
  }

  /** The registration of y onto x is given up, and the thread climbs on. */
  ghost function GivenUp(s: State, t: nat, x: nat, y: nat): State
    requires s.tree.Forest() && s.tree.IsNode(y) && !s.tree.IsRoot(y) && t < |s.threads|
  {
    s.(tree := Unregistered(s.tree, y), threads := s.threads[t := Reading(x)])
  }

  ghost function Decided(c: Config, s: State, t: nat): State
    requires Enabled(c, s, Decide(t))
  {
    var (x, y) := (s.threads[t].x, s.threads[t].y);
    match Judge(c, s, x, y)
    case Contract(fixed) => s.(tree := Merged(s.tree, x, y), fixed := fixed, threads := s.threads[t := Merging(x, y)])
    case GiveUp => GivenUp(s, t, x, y)
    case Leave => s.(threads := s.threads[t := Idle])
    case Overflow(p, delta) => s.(fixed := Changed(s.fixed, p, delta), threads := s.threads[t := Rejecting(x, y, p, delta)])
  }

  ghost function TakenBack(c: Config, s: State, t: nat): State
    requires Enabled(c, s, TakeBack(t))
  {
    var th := s.threads[t];
    var s' := s.(fixed := Changed(s.fixed, th.block, -(th.delta as int)));
    if s.tree.enabled[th.y] && s.tree.parent[th.y] == th.x then GivenUp(s', t, th.x, th.y)
    else s'.(threads := s.threads[t := Idle])
  }

  ghost function Apply(c: Config, s: State, a: Action): State
    requires Enabled(c, s, a)
  {
    match a
    case Register(u, v) =>
      if Registrable(s.tree, u, v)
      then s.(tree := Registered(s.tree, Representative(s.tree, u), v), todo := s.todo + {v})
      else s
    case Begin(t, v) =>
      s.(threads := s.threads[t := Reading(v)], todo := s.todo - {v})
    case Read(t) =>
      var y := s.threads[t].y;
      var x := s.tree.parent[y];
      s.(threads := s.threads[t := if x == y then Idle else Climbing(x, y)])
    case Decide(t) => Decided(c, s, t)
    case TakeBack(t) => TakenBack(c, s, t)
    case Unregister(t) =>
      var x := s.threads[t].x;
      s.(tree := s.tree.(pending := s.tree.pending[x := s.tree.pending[x] - 1]), threads := s.threads[t := Reading(x)])
    case NextVersion =>
      s.(tree := s.tree.(current := s.tree.current + 1))
  }

  // ---------- The invariant ----------

  function ChildColumn(tr: Tree, u: nat): seq<int>
    requires |tr.enabled| == |tr.parent|
  {
    seq(|tr.parent|, v requires 0 <= v < |tr.parent| => if tr.enabled[v] && tr.parent[v] == u && v != u then 1 else 0)
  }

  function MergeColumn(threads: seq<Thread>, u: nat): seq<int> {
    seq(|threads|, t requires 0 <= t < |threads| => if threads[t].Merging? && threads[t].x == u then 1 else 0)
  }

  function WeightColumn(tr: Tree): seq<int>
    requires |tr.enabled| == |tr.weight|
  {
    seq(|tr.weight|, v requires 0 <= v < |tr.weight| => if tr.enabled[v] then tr.weight[v] else 0)
  }

  /** pending(u) counts the enabled nodes registered on u and the merges onto u still running. */
  ghost predicate PendingExact(s: State, u: nat)
    requires s.tree.Shape() && s.tree.IsNode(u)
  {
    s.tree.pending[u] == Sum(ChildColumn(s.tree, u)) + Sum(MergeColumn(s.threads, u))
  }

  ghost predicate NodeOk(tr: Tree, v: nat)
    requires tr.Shape() && tr.IsNode(v)
  {
    && (tr.IsRoot(v) ==> tr.enabled[v] && tr.version[v] == INVALID_VERSION)
    && (tr.enabled[v] && !tr.IsRoot(v) ==> tr.version[v] == tr.current && tr.enabled[tr.parent[v]])
    && (!tr.enabled[v] ==> tr.pending[v] == 0 && tr.version[v] <= tr.current)
    && tr.version[v] <= tr.version[tr.parent[v]]
  }

  ghost predicate ThreadOk(tr: Tree, th: Thread)
    requires tr.Shape()
  {
    match th
    case Idle => true
    case Reading(y) => tr.IsNode(y)
    case Climbing(x, y) => tr.IsNode(x) && tr.IsNode(y) && x != y
    case Rejecting(x, y, _, _) => tr.IsNode(x) && tr.IsNode(y) && x != y
    case Merging(x, y) => tr.IsNode(x) && tr.IsNode(y) && x != y && tr.parent[y] == x && !tr.enabled[y] && tr.enabled[x]
  }

  /** Parents form a forest, pending counts are exact, and every node is in order. */
  ghost predicate TreeOk(s: State) {
    && s.tree.Forest()
    && (forall u: nat {:trigger PendingExact(s, u)} :: s.tree.IsNode(u) ==> PendingExact(s, u))
    && (forall v: nat {:trigger NodeOk(s.tree, v)} :: s.tree.IsNode(v) ==> NodeOk(s.tree, v))
  }

  ghost predicate Inv(s: State) {
    && TreeOk(s) && s.tree.current < INVALID_VERSION
    && (forall t :: 0 <= t < |s.threads| ==> ThreadOk(s.tree, s.threads[t]))
    && (forall v :: v in s.todo ==> s.tree.IsNode(v))
  }

  lemma PendingNonNegative(s: State, u: nat)
    requires s.tree.Forest() && s.tree.IsNode(u) && PendingExact(s, u)
    ensures s.tree.pending[u] >= 0
    ensures forall v: nat :: s.tree.IsNode(v) && s.tree.enabled[v] && s.tree.parent[v] == u && v != u ==> s.tree.pending[u] > 0
    ensures forall t :: 0 <= t < |s.threads| && s.threads[t].Merging? && s.threads[t].x == u ==> s.tree.pending[u] > 0
  {
    var a, b := ChildColumn(s.tree, u), MergeColumn(s.threads, u);
    SumMonotone(seq(|a|, i => 0), a);
    SumZero(seq(|a|, i => 0));
    SumMonotone(seq(|b|, i => 0), b);
    SumZero(seq(|b|, i => 0));
    forall v: nat | s.tree.IsNode(v) && s.tree.enabled[v] && s.tree.parent[v] == u && v != u ensures s.tree.pending[u] > 0 {
      SumAtLeast(a, v);
    }
    forall t | 0 <= t < |s.threads| && s.threads[t].Merging? && s.threads[t].x == u ensures s.tree.pending[u] > 0 {
      SumAtLeast(b, t);
    }
  }

  /** Every merge runs on a node whose pending count keeps it enabled. */
  lemma RepresentativeEnabled(s: State, u: nat)
    requires Inv(s) && s.tree.IsNode(u)
    ensures s.tree.enabled[Representative(s.tree, u)]
    ensures var w := Representative(s.tree, u); s.tree.version[w] == INVALID_VERSION || s.tree.version[w] == s.tree.current
  {
    var w := Representative(s.tree, u);
    assert NodeOk(s.tree, w);
  }

  lemma RegisterPending(s: State, w: nat, v: nat, x: nat)
    requires Inv(s) && s.tree.IsNode(w) && s.tree.IsNode(v) && s.tree.IsRoot(v) && v != w && s.tree.IsNode(x)
    ensures var s' := s.(tree := Registered(s.tree, w, v), todo := s.todo + {v}); PendingExact(s', x)
  {
    var s' := s.(tree := Registered(s.tree, w, v), todo := s.todo + {v});
    var one := if x == w then 1 else 0;
    assert PendingExact(s, x) && NodeOk(s.tree, v);
    SumUpdate(ChildColumn(s.tree, x), v, one);
    assert ChildColumn(s'.tree, x) == ChildColumn(s.tree, x)[v := one];
  }

  lemma RegisterNode(s: State, w: nat, v: nat, x: nat)
    requires Inv(s) && s.tree.IsNode(w) && s.tree.IsNode(v) && s.tree.IsRoot(v) && v != w && s.tree.IsNode(x)
    requires s.tree.enabled[w] && (s.tree.version[w] == INVALID_VERSION || s.tree.version[w] == s.tree.current)
    ensures NodeOk(Registered(s.tree, w, v), x)
  {
    assert NodeOk(s.tree, x) && NodeOk(s.tree, v) && NodeOk(s.tree, s.tree.parent[x]);
    if s.tree.parent[x] == v && x != v && s.tree.enabled[x] {
      assert s.tree.version[x] == s.tree.current;
    }
  }

  lemma RegisterKeeps(c: Config, s: State, a: Action)
    requires Inv(s) && a.Register? && Enabled(c, s, a)
    ensures Inv(Apply(c, s, a))
  {
    if Registrable(s.tree, a.u, a.v) {
      var w := Representative(s.tree, a.u);
      UpClosed(s.tree, a.u, w);
      RepresentativeEnabled(s, a.u);
      assert s.tree.ForestAt(w) && s.tree.ForestAt(a.v);
      RegisteredTree(s, w, a.v);
      RegisteredThreads(s, w, a.v);
    }
  }

  lemma RegisteredTree(s: State, w: nat, v: nat)
    requires Inv(s) && s.tree.IsNode(w) && s.tree.IsNode(v) && s.tree.IsRoot(v) && v != w && v !in s.tree.up[w]
    requires s.tree.enabled[w] && (s.tree.version[w] == INVALID_VERSION || s.tree.version[w] == s.tree.current)
    ensures TreeOk(s.(tree := Registered(s.tree, w, v), todo := s.todo + {v}))
  {
    var s' := s.(tree := Registered(s.tree, w, v), todo := s.todo + {v});
    RegisteredForest(s.tree, w, v);
    forall x: nat | s.tree.IsNode(x) ensures PendingExact(s', x) && NodeOk(s'.tree, x) {
      RegisterPending(s, w, v, x);
      RegisterNode(s, w, v, x);
    }
  }

  /** No merge runs below a node without a parent. */
  lemma RegisteredThreads(s: State, w: nat, v: nat)
    requires Inv(s) && s.tree.IsNode(w) && s.tree.IsNode(v) && s.tree.IsRoot(v) && Registered(s.tree, w, v).Shape()
    ensures forall t :: 0 <= t < |s.threads| ==> ThreadOk(Registered(s.tree, w, v), s.threads[t])
  {
    assert NodeOk(s.tree, v);
    forall t | 0 <= t < |s.threads| ensures ThreadOk(Registered(s.tree, w, v), s.threads[t]) {
      assert ThreadOk(s.tree, s.threads[t]);
    }
  }

  lemma ThreadStepKeeps(c: Config, s: State, a: Action)
    requires Inv(s) && (a.Begin? || a.Read?) && Enabled(c, s, a)
    ensures Inv(Apply(c, s, a))
  {
    var s' := Apply(c, s, a);
    ThreadChanged(s, a.t, s'.threads[a.t], s.fixed, s'.todo);
  }

  lemma ContractedPending(s: State, s': State, t: nat, x: nat, y: nat, u: nat)
    requires Inv(s) && t < |s.threads| && s.threads[t] == Climbing(x, y) && PartnerValid(s.tree, y) && s.tree.parent[y] == x
    requires s'.tree == Merged(s.tree, x, y) && s'.threads == s.threads[t := Merging(x, y)] && s.tree.IsNode(u)
    requires s'.tree.Shape() && x != y
    ensures PendingExact(s', u)
  {
    assert PendingExact(s, u);
    SumUpdate(ChildColumn(s.tree, u), y, 0);
    assert ChildColumn(s'.tree, u) == ChildColumn(s.tree, u)[y := 0];
    SumUpdate(MergeColumn(s.threads, u), t, if u == x then 1 else 0);
    assert MergeColumn(s'.threads, u) == MergeColumn(s.threads, u)[t := if u == x then 1 else 0];
  }

  lemma ContractedNode(s: State, x: nat, y: nat, v: nat)
    requires Inv(s) && s.tree.IsNode(x) && s.tree.IsNode(y) && PartnerValid(s.tree, y) && s.tree.parent[y] == x != y && s.tree.IsNode(v)
    ensures Merged(s.tree, x, y).Shape() && NodeOk(Merged(s.tree, x, y), v)
  {
    assert NodeOk(s.tree, v) && NodeOk(s.tree, y);
    PendingNonNegative(s, y);
  }

  lemma ContractedKeeps(c: Config, s: State, t: nat)
    requires Inv(s) && Enabled(c, s, Decide(t)) && Judge(c, s, s.threads[t].x, s.threads[t].y).Contract?
    requires s.tree.parent[s.threads[t].y] == s.threads[t].x
    ensures Inv(Apply(c, s, Decide(t)))
  {
    var (x, y) := (s.threads[t].x, s.threads[t].y);
    var s' := Apply(c, s, Decide(t));
    assert NodeOk(s.tree, y) && s.tree.enabled[x];
    PendingNonNegative(s, y);
    forall u: nat | s.tree.IsNode(u) ensures s'.tree.ForestAt(u) {
      assert s.tree.ForestAt(u);
    }
    forall u: nat | s.tree.IsNode(u) ensures PendingExact(s', u) && NodeOk(s'.tree, u) {
      ContractedPending(s, s', t, x, y, u);
      ContractedNode(s, x, y, u);
    }
    forall t' | 0 <= t' < |s'.threads| ensures ThreadOk(s'.tree, s'.threads[t']) {
      assert ThreadOk(s.tree, s.threads[t']);
    }
  }

  lemma GiveUpNode(s: State, y: nat, v: nat)
    requires Inv(s) && s.tree.IsNode(y) && !s.tree.IsRoot(y) && s.tree.enabled[y] && s.tree.IsNode(v)
    ensures NodeOk(Unregistered(s.tree, y), v)
  {
    var x := s.tree.parent[y];
    assert NodeOk(s.tree, v) && NodeOk(s.tree, y) && NodeOk(s.tree, x);
  }

  lemma GiveUpPending(s: State, y: nat, u: nat)
    requires Inv(s) && s.tree.IsNode(y) && !s.tree.IsRoot(y) && s.tree.enabled[y] && s.tree.IsNode(u)
    ensures PendingExact(s.(tree := Unregistered(s.tree, y)), u)
  {
    var s' := s.(tree := Unregistered(s.tree, y));
    assert PendingExact(s, u);
    SumUpdate(ChildColumn(s.tree, u), y, 0);
    assert ChildColumn(s'.tree, u) == ChildColumn(s.tree, u)[y := 0];
  }

  /** Giving up a registration, whether right away or after taking back a weight. */
  lemma GivenUpKeeps(s: State, t: nat, x: nat, y: nat)
    requires Inv(s) && t < |s.threads| && !s.threads[t].Merging? && s.tree.IsNode(x) && s.tree.IsNode(y)
    requires s.tree.enabled[y] && s.tree.parent[y] == x != y
    ensures Inv(GivenUp(s, t, x, y))
  {
    var s' := GivenUp(s, t, x, y);
    UnregisteredForest(s.tree, y);
    forall u: nat | s.tree.IsNode(u) ensures PendingExact(s', u) && NodeOk(s'.tree, u) {
      assert PendingExact(s, u) && NodeOk(s.tree, u);
      assert MergeColumn(s'.threads, u) == MergeColumn(s.threads, u);
      GiveUpPending(s, y, u);
      GiveUpNode(s, y, u);
    }
    forall t' | 0 <= t' < |s'.threads| ensures ThreadOk(s'.tree, s'.threads[t']) {
      assert ThreadOk(s.tree, s.threads[t']);
    }
  }

  /** Only the state of one thread and the weights of the blocks change. */
  lemma ThreadChanged(s: State, t: nat, th: Thread, fixed: F.Fixed, todo: set<nat>)
    requires Inv(s) && t < |s.threads| && !s.threads[t].Merging? && !th.Merging? && ThreadOk(s.tree, th) && todo <= s.todo
    ensures Inv(s.(threads := s.threads[t := th], fixed := fixed, todo := todo))
  {
    var s' := s.(threads := s.threads[t := th], fixed := fixed, todo := todo);
    forall x: nat | s.tree.IsNode(x) ensures PendingExact(s', x) {
      assert PendingExact(s, x);
      assert MergeColumn(s'.threads, x) == MergeColumn(s.threads, x);
    }
  }

  lemma FixedChanged(s: State, fixed: F.Fixed)
    requires Inv(s)
    ensures Inv(s.(fixed := fixed))
  {
    var s' := s.(fixed := fixed);
    forall x: nat | s.tree.IsNode(x) ensures PendingExact(s', x) {
      assert PendingExact(s, x);
    }
  }

  lemma RejectionKeeps(c: Config, s: State, a: Action)
    requires Inv(s) && Enabled(c, s, a)
    requires a.TakeBack? || (a.Decide? && !Judge(c, s, s.threads[a.t].x, s.threads[a.t].y).Contract?)
    ensures Inv(Apply(c, s, a))
  {
    var th := s.threads[a.t];
    var s' := Apply(c, s, a);
    FixedChanged(s, s'.fixed);
    if s'.threads[a.t].Reading? {
      GivenUpKeeps(s.(fixed := s'.fixed), a.t, th.x, th.y);
    } else {
      ThreadChanged(s, a.t, s'.threads[a.t], s'.fixed, s.todo);
    }
  }

  lemma UnregisterKeeps(c: Config, s: State, a: Action)
    requires Inv(s) && a.Unregister? && Enabled(c, s, a)
    ensures Inv(Apply(c, s, a))
  {
    var s' := Apply(c, s, a);
    var x := s.threads[a.t].x;
    forall u: nat | s.tree.IsNode(u) ensures s'.tree.ForestAt(u) {
      assert s.tree.ForestAt(u);
    }
    forall u: nat | s.tree.IsNode(u) ensures PendingExact(s', u) {
      assert PendingExact(s, u);
      assert ChildColumn(s'.tree, u) == ChildColumn(s.tree, u);
      SumUpdate(MergeColumn(s.threads, u), a.t, 0);
      assert MergeColumn(s'.threads, u) == MergeColumn(s.threads, u)[a.t := 0];
    }
    forall v: nat | s.tree.IsNode(v) ensures NodeOk(s'.tree, v) {
      assert NodeOk(s.tree, v);
    }
    forall t' | 0 <= t' < |s'.threads| ensures ThreadOk(s'.tree, s'.threads[t']) {
      assert ThreadOk(s.tree, s.threads[t']);
    }
  }

  lemma NextVersionKeeps(c: Config, s: State)
    requires Inv(s) && Enabled(c, s, NextVersion)
    ensures Inv(Apply(c, s, NextVersion))
  {
    var s' := Apply(c, s, NextVersion);
    forall u: nat | s.tree.IsNode(u) ensures s'.tree.ForestAt(u) {
      assert s.tree.ForestAt(u);
    }
    forall u: nat | s.tree.IsNode(u) ensures PendingExact(s', u) {
      assert PendingExact(s, u);
      assert ChildColumn(s'.tree, u) == ChildColumn(s.tree, u);
    }
    forall v: nat | s.tree.IsNode(v) ensures NodeOk(s'.tree, v) {
      assert NodeOk(s.tree, v);
      // nothing is pending, so every enabled node is a root
      var p := s.tree.parent[v];
      assert PendingExact(s, p);
      PendingNonNegative(s, p);
    }
  }

  /** A contraction is only carried out while it is still the registered one. */
  ghost predicate Confirmed(c: Config, s: State, a: Action)
    requires Enabled(c, s, a)
  {
    a.Decide? && Judge(c, s, s.threads[a.t].x, s.threads[a.t].y).Contract? ==> s.tree.parent[s.threads[a.t].y] == s.threads[a.t].x
  }

  lemma ConfirmedKeeps(c: Config, s: State, a: Action)
    requires Inv(s) && Enabled(c, s, a) && Confirmed(c, s, a)
    ensures Inv(Apply(c, s, a))
  {
    match a
    case Register(_, _) => RegisterKeeps(c, s, a);
    case Begin(_, _) => ThreadStepKeeps(c, s, a);
    case Read(_) => ThreadStepKeeps(c, s, a);
    case Decide(t) =>
      if Judge(c, s, s.threads[t].x, s.threads[t].y).Contract? {
        ContractedKeeps(c, s, t);
      } else {
        RejectionKeeps(c, s, a);
      }
    case TakeBack(_) => RejectionKeeps(c, s, a);
    case Unregister(_) => UnregisterKeeps(c, s, a);
    case NextVersion => NextVersionKeeps(c, s);
  }

  /** The contraction code does not look at the parent again before it accepts a contraction. A step
      leaves forest, pending counts and nodes in order exactly if such a check would have passed. */
  lemma KeepsExactlyIfConfirmed(c: Config, s: State, a: Action)
    requires Inv(s) && Enabled(c, s, a)
    ensures TreeOk(Apply(c, s, a)) <==> Confirmed(c, s, a)
  {
    if Confirmed(c, s, a) {
      ConfirmedKeeps(c, s, a);
    } else {
      UnconfirmedBreaks(c, s, a.t);
    }
  }

  /** The pending count of x misses the merge that is now running. */
  lemma UnconfirmedBreaks(c: Config, s: State, t: nat)
    requires Inv(s) && Enabled(c, s, Decide(t)) && !Confirmed(c, s, Decide(t))
    ensures !TreeOk(Apply(c, s, Decide(t)))
  {
    var (x, y) := (s.threads[t].x, s.threads[t].y);
    var s' := Apply(c, s, Decide(t));
    assert PendingExact(s, x);
    assert s'.tree.Shape() && ChildColumn(s'.tree, x) == ChildColumn(s.tree, x);
    SumUpdate(MergeColumn(s.threads, x), t, 1);
    assert MergeColumn(s'.threads, x) == MergeColumn(s.threads, x)[t := 1];
    assert !PendingExact(s', x);
  }

  // ---------- The weights fixed to the blocks ----------

  function TransientColumn(threads: seq<Thread>, p: nat): seq<int> {
    seq(|threads|, t requires 0 <= t < |threads| => TransientOf(threads[t], p))
  }

  function TransientOf(th: Thread, p: nat): int {
    if th.Rejecting? && th.block == p then th.delta else 0
  }

  /** The weight of the enabled nodes fixed to p. */
  function FixedTo(s: State, p: nat): int
    requires |s.fixed.block| == |s.tree.weight| == |s.tree.enabled|
  {
    Sum(F.BlockColumn(s.fixed.block, s.tree.weight, s.tree.enabled, p))
  }

  /** The weight of block p without what is about to be taken back. */
  function AcceptedWeight(s: State, p: nat): int
    requires p < |s.fixed.blockWeight|
  {
    s.fixed.blockWeight[p] - Sum(TransientColumn(s.threads, p))
  }

  lemma TransientNonNegative(threads: seq<Thread>, p: nat)
    ensures Sum(TransientColumn(threads, p)) >= 0
    ensures forall t :: 0 <= t < |threads| ==> Sum(TransientColumn(threads, p)) >= TransientOf(threads[t], p)
  {
    var column := TransientColumn(threads, p);
    SumMonotone(seq(|column|, i => 0), column);
    SumZero(seq(|column|, i => 0));
    forall t: nat | t < |threads| ensures Sum(column) >= TransientOf(threads[t], p) {
      SumAtLeast(column, t);
    }
  }

  lemma TransientStep(threads: seq<Thread>, t: nat, th: Thread, p: nat)
    requires t < |threads|
    ensures Sum(TransientColumn(threads[t := th], p)) == Sum(TransientColumn(threads, p)) - TransientOf(threads[t], p) + TransientOf(th, p)
  {
    SumUpdate(TransientColumn(threads, p), t, TransientOf(th, p));
    assert TransientColumn(threads[t := th], p) == TransientColumn(threads, p)[t := TransientOf(th, p)];
  }

  /** Up to what is about to be taken back, the books show the weight of the enabled nodes fixed to p. */
  ghost predicate BlockExact(s: State, p: nat)
    requires |s.fixed.block| == |s.tree.weight| == |s.tree.enabled| && p < |s.fixed.blockWeight|
  {
    AcceptedWeight(s, p) == FixedTo(s, p)
  }

  ghost predicate Books(c: Config, s: State) {
    && InRange(c, s)
    && (forall v: nat :: v < |s.fixed.block| && s.fixed.IsFixed(v) ==> s.fixed.total > 0)
    && (forall p: nat {:trigger BlockExact(s, p)} :: p < |c.limit| ==> BlockExact(s, p))
  }

  /** Whatever the interleaving, the accepted weight of a block only grows while it is within its limit. */
  lemma AcceptedStep(c: Config, s: State, a: Action, p: nat)
    requires Enabled(c, s, a) && p < |c.limit| && AcceptedWeight(s, p) <= c.limit[p]
    ensures p < |Apply(c, s, a).fixed.blockWeight| && AcceptedWeight(Apply(c, s, a), p) <= c.limit[p]
  {
    var s' := Apply(c, s, a);
    TransientNonNegative(s.threads, p);
    if !a.Register? && !a.NextVersion? {
      TransientStep(s.threads, a.t, s'.threads[a.t], p);
    }
  }

  lemma {:induction false} AcceptedRun(c: Config, s: State, run: seq<Action>, p: nat)
    requires CanRun(c, s, run) && p < |c.limit| && p < |s.fixed.blockWeight| && AcceptedWeight(s, p) <= c.limit[p]
    ensures p < |Run(c, s, run).fixed.blockWeight| && AcceptedWeight(Run(c, s, run), p) <= c.limit[p]
    decreases |run|
  {
    if run != [] {
      AcceptedStep(c, s, run[0], p);
      AcceptedRun(c, Apply(c, s, run[0]), run[1..], p);
    }
  }

  /** What an accepted contraction does to the blocks and to the weight of block p. */
  lemma BlocksShift(c: Config, s: State, t: nat, p: nat)
    requires Inv(s) && Books(c, s) && Enabled(c, s, Decide(t)) && p < |c.limit|
    requires Judge(c, s, s.threads[t].x, s.threads[t].y).Contract?
    ensures var (x, y) := (s.threads[t].x, s.threads[t].y); var g := Apply(c, s, Decide(t)).fixed;
            && g.Shape(s.tree.weight, c.limit) && (forall z :: 0 <= z < |g.block| && z != x && z != y ==> g.block[z] == s.fixed.block[z])
            && g.blockWeight[p] + (if s.fixed.block[x] == p then s.tree.weight[x] else 0)
               + (if s.fixed.block[y] == p then s.tree.weight[y] else 0)
               == s.fixed.blockWeight[p] + (if g.block[x] == p then s.tree.weight[x] + s.tree.weight[y] else 0)
  {
    var (x, y) := (s.threads[t].x, s.threads[t].y);
    if s.fixed.total > 0 {
      F.SharesMove(s.fixed, c.limit, s.tree.weight, x, y, true, p);
    } else {
      assert !s.fixed.IsFixed(x) && !s.fixed.IsFixed(y);
    }
  }

  lemma ContractedBooks(c: Config, s: State, t: nat, p: nat)
    requires Inv(s) && Books(c, s) && Enabled(c, s, Decide(t)) && Confirmed(c, s, Decide(t)) && p < |c.limit|
    requires Judge(c, s, s.threads[t].x, s.threads[t].y).Contract?
    ensures var s' := Apply(c, s, Decide(t)); s'.fixed.Shape(s'.tree.weight, c.limit) && BlockExact(s', p)
  {
    var (x, y) := (s.threads[t].x, s.threads[t].y);
    var s' := Apply(c, s, Decide(t));
    assert NodeOk(s.tree, y) && s.tree.enabled[x] && BlockExact(s, p);
    assert s'.tree == Merged(s.tree, x, y) && s'.threads == s.threads[t := Merging(x, y)];
    BlocksShift(c, s, t, p);
    hide Judge, Apply, Enabled, Inv, Books, NodeOk;
    F.ShareColumn(s.fixed.block, s'.fixed.block, s.tree.weight, s.tree.enabled, x, y, p);
    TransientStep(s.threads, t, Merging(x, y), p);
  }

  lemma BooksStep(c: Config, s: State, a: Action)
    requires Inv(s) && Books(c, s) && Enabled(c, s, a) && Confirmed(c, s, a) && Inv(Apply(c, s, a))
    ensures Books(c, Apply(c, s, a)) && Apply(c, s, a).fixed.total >= s.fixed.total
  {
    var s' := Apply(c, s, a);
    if a.Decide? && Judge(c, s, s.threads[a.t].x, s.threads[a.t].y).Contract? {
      ContractedShape(c, s, a.t);
      forall p: nat | p < |c.limit| ensures BlockExact(s', p) {
        ContractedBooks(c, s, a.t, p);
      }
    } else {
      BlocksStay(c, s, a);
      hide Judge, Enabled;
      forall p: nat | p < |c.limit| ensures BlockExact(s', p) {
        BlockStays(c, s, a, p);
      }
    }
  }

  /** All other actions leave blocks, weights and flags alone. */
  lemma BlocksStay(c: Config, s: State, a: Action)
    requires Books(c, s) && Enabled(c, s, a) && Inv(Apply(c, s, a))
    requires a.Decide? ==> !Judge(c, s, s.threads[a.t].x, s.threads[a.t].y).Contract?
    ensures var s' := Apply(c, s, a);
            && s'.fixed.block == s.fixed.block && s'.fixed.total == s.fixed.total && InRange(c, s')
            && s'.tree.weight == s.tree.weight && s'.tree.enabled == s.tree.enabled
            && (forall v: nat :: v < |s'.fixed.block| && s'.fixed.IsFixed(v) ==> s'.fixed.total > 0)
  {
    var s' := Apply(c, s, a);
    forall v: nat | v < |s'.fixed.block| && s'.fixed.IsFixed(v) ensures s'.fixed.total > 0 {
      assert s.fixed.IsFixed(v);
    }
  }

  lemma BlockStays(c: Config, s: State, a: Action, p: nat)
    requires Books(c, s) && Enabled(c, s, a) && p < |c.limit| && InRange(c, Apply(c, s, a))
    requires a.Decide? ==> !Judge(c, s, s.threads[a.t].x, s.threads[a.t].y).Contract?
    requires Apply(c, s, a).fixed.block == s.fixed.block
    requires Apply(c, s, a).tree.weight == s.tree.weight && Apply(c, s, a).tree.enabled == s.tree.enabled
    ensures BlockExact(Apply(c, s, a), p)
  {
    var s' := Apply(c, s, a);
    assert BlockExact(s, p);
    if !a.Register? && !a.NextVersion? {
      TransientStep(s.threads, a.t, s'.threads[a.t], p);
    }
  }

  lemma ContractedShape(c: Config, s: State, t: nat)
    requires Inv(s) && Books(c, s) && Enabled(c, s, Decide(t)) && Judge(c, s, s.threads[t].x, s.threads[t].y).Contract?
    ensures var s' := Apply(c, s, Decide(t));
            && s'.fixed.Shape(s'.tree.weight, c.limit) && s'.fixed.total >= s.fixed.total
            && (forall v: nat :: v < |s'.fixed.block| && s'.fixed.IsFixed(v) ==> s'.fixed.total > 0)
  {
  }

  // ---------- When every contraction is confirmed ----------

  /** The weight limit or different blocks stop the pair, now and later. */
  ghost predicate Stopped(c: Config, s: State, x: nat, y: nat)
    requires x < |s.tree.weight| == |s.fixed.block| && y < |s.tree.weight|
  {
    || !WeightFits(c, s.tree, x, y)
    || (s.fixed.total > 0 && s.fixed.IsFixed(x) && s.fixed.IsFixed(y) && s.fixed.block[x] != s.fixed.block[y])
  }

  /** A thread whose parent reading is out of date is stopped. */
  ghost predicate StaleIsStopped(c: Config, s: State, th: Thread)
    requires s.tree.Shape() && ThreadOk(s.tree, th) && |s.fixed.block| == |s.tree.weight|
  {
    th.Climbing? && s.tree.enabled[th.y] && s.tree.parent[th.y] != th.x ==> Stopped(c, s, th.x, th.y)
  }

  ghost predicate StaleInv(c: Config, s: State)
    requires Inv(s) && |s.fixed.block| == |s.tree.weight|
  {
    forall t {:trigger StaleIsStopped(c, s, s.threads[t])} :: 0 <= t < |s.threads| ==> StaleIsStopped(c, s, s.threads[t])
  }

  /** No block limit can stop a contraction: nothing is fixed, or every block has room for all nodes. */
  ghost predicate Roomy(c: Config, s: State)
    requires s.tree.Shape()
  {
    && (forall t :: 0 <= t < |s.threads| ==> !s.threads[t].Rejecting?)
    && (s.fixed.total <= 0 || forall p :: 0 <= p < |c.limit| ==> Sum(WeightColumn(s.tree)) <= c.limit[p])
  }

  ghost predicate Calm(c: Config, s: State)
    requires s.tree.Shape()
  {
    |s.threads| <= 1 || Roomy(c, s)
  }

  lemma StaleConfirmed(c: Config, s: State, a: Action)
    requires Inv(s) && Books(c, s) && StaleInv(c, s) && Enabled(c, s, a)
    ensures Confirmed(c, s, a)
    ensures a.Decide? && Judge(c, s, s.threads[a.t].x, s.threads[a.t].y).Overflow? ==> s.tree.parent[s.threads[a.t].y] == s.threads[a.t].x
  {
    if a.Decide? { assert StaleIsStopped(c, s, s.threads[a.t]); }
  }

  lemma NoRoomNeeded(c: Config, s: State, x: nat, y: nat)
    requires Inv(s) && Books(c, s) && s.tree.IsNode(x) && s.tree.IsNode(y) && s.tree.enabled[x] && s.tree.enabled[y]
    requires Roomy(c, s)
    ensures !FixedTest(c, s, x, y).Overflowed?
  {
    if s.fixed.total > 0 && s.fixed.IsFixed(x) != s.fixed.IsFixed(y) {
      var p: nat := F.BlockOf(s.fixed, x, y);
      var z := if s.fixed.IsFixed(x) then y else x;
      assert BlockExact(s, p);
      SumZero(TransientColumn(s.threads, p));
      var column := F.BlockColumn(s.fixed.block, s.tree.weight, s.tree.enabled, p);
      SumUpdate(column, z, s.tree.weight[z]);
      SumMonotone(column[z := s.tree.weight[z]], WeightColumn(s.tree));
    }
  }

  lemma CalmStep(c: Config, s: State, a: Action)
    requires Inv(s) && Books(c, s) && StaleInv(c, s) && Calm(c, s) && Enabled(c, s, a) && Inv(Apply(c, s, a))
    requires |Apply(c, s, a).tree.weight| == |Apply(c, s, a).tree.enabled|
    requires Sum(WeightColumn(Apply(c, s, a).tree)) == Sum(WeightColumn(s.tree))
    ensures Calm(c, Apply(c, s, a))
  {
    if |s.threads| > 1 && a.Decide? {
      var (x, y) := (s.threads[a.t].x, s.threads[a.t].y);
      StaleConfirmed(c, s, a);
      assert NodeOk(s.tree, y);
      if s.tree.enabled[x] && s.tree.enabled[y] {
        NoRoomNeeded(c, s, x, y);
      }
    }
  }

  lemma StaleStep(c: Config, s: State, a: Action)
    requires Inv(s) && Books(c, s) && StaleInv(c, s) && Calm(c, s) && Enabled(c, s, a)
    requires Inv(Apply(c, s, a)) && Books(c, Apply(c, s, a)) && Apply(c, s, a).fixed.total >= s.fixed.total
    ensures StaleInv(c, Apply(c, s, a))
  {
    var s' := Apply(c, s, a);
    forall t | 0 <= t < |s'.threads| ensures StaleIsStopped(c, s', s'.threads[t]) {
      StaleThread(c, s, a, t);
    }
  }

  lemma StaleThread(c: Config, s: State, a: Action, t: nat)
    requires Inv(s) && Books(c, s) && StaleInv(c, s) && Calm(c, s) && Enabled(c, s, a) && t < |s.threads|
    requires Inv(Apply(c, s, a)) && Books(c, Apply(c, s, a)) && Apply(c, s, a).fixed.total >= s.fixed.total
    ensures StaleIsStopped(c, Apply(c, s, a), Apply(c, s, a).threads[t])
  {
    hide Books, Calm;
    assert StaleIsStopped(c, s, s.threads[t]);
    if !a.Register? && !a.NextVersion? && a.t == t {
      ActingThread(c, s, a);
    } else {
      WaitingThread(c, s, a, t);
    }
  }

  /** The thread that takes a step has just read the parent, or climbs no longer. */
  lemma ActingThread(c: Config, s: State, a: Action)
    requires Inv(s) && Enabled(c, s, a) && !a.Register? && !a.NextVersion? && Inv(Apply(c, s, a))
    requires |Apply(c, s, a).fixed.block| == |Apply(c, s, a).tree.weight|
    ensures StaleIsStopped(c, Apply(c, s, a), Apply(c, s, a).threads[a.t])
  {
    hide Inv, FixedTest, Stopped;
  }

  lemma WaitingThread(c: Config, s: State, a: Action, t: nat)
    requires Inv(s) && |s.fixed.block| == |s.tree.weight| && Calm(c, s) && Enabled(c, s, a) && t < |s.threads|
    requires !a.Register? && !a.NextVersion? ==> a.t != t
    requires Inv(Apply(c, s, a)) && Apply(c, s, a).fixed.total >= s.fixed.total
    requires StaleIsStopped(c, s, s.threads[t])
    requires |Apply(c, s, a).fixed.block| == |Apply(c, s, a).tree.weight|
    ensures StaleIsStopped(c, Apply(c, s, a), Apply(c, s, a).threads[t])
  {
    hide Stopped;
    if s.threads[t].Climbing? {
      var (x, y) := (s.threads[t].x, s.threads[t].y);
      if Stopped(c, s, x, y) {
        StaysStopped(c, s, a, x, y);
      } else if s.tree.enabled[y] {
        ParentKept(c, s, a, t);
      }
    }
  }

  /** Whoever climbs from y with a parent that can still take y finds the parent unchanged. */
  lemma ParentKept(c: Config, s: State, a: Action, t: nat)
    requires Inv(s) && |s.fixed.block| == |s.tree.weight| && Calm(c, s) && Enabled(c, s, a) && t < |s.threads|
    requires !a.Register? && !a.NextVersion? ==> a.t != t
    requires s.threads[t].Climbing? && s.tree.enabled[s.threads[t].y] && s.tree.parent[s.threads[t].y] == s.threads[t].x
    requires !Stopped(c, s, s.threads[t].x, s.threads[t].y)
    ensures |Apply(c, s, a).tree.parent| == |s.tree.parent|
    ensures Apply(c, s, a).tree.parent[s.threads[t].y] == s.tree.parent[s.threads[t].y]
  {
  }

  lemma StaysStopped(c: Config, s: State, a: Action, x: nat, y: nat)
    requires Enabled(c, s, a) && s.tree.IsNode(x) && s.tree.IsNode(y) && Stopped(c, s, x, y)
    requires Apply(c, s, a).fixed.total >= s.fixed.total
    ensures |Apply(c, s, a).tree.weight| == |s.tree.weight| == |Apply(c, s, a).fixed.block|
    ensures Stopped(c, Apply(c, s, a), x, y)
  {
  }

  // ---------- No registered contraction is lost ----------

  /** Somebody will still contract v: its request is due, it waits for contractions onto it, or a
      thread is on its way. */
  ghost predicate Covered(s: State, v: nat)
    requires s.tree.Shape() && s.tree.IsNode(v)
  {
    || v in s.todo
    || s.tree.pending[v] > 0
    || exists t :: 0 <= t < |s.threads| && Covers(s, t, v)
  }

  ghost predicate Covers(s: State, t: int, v: nat)
    requires s.tree.Shape() && s.tree.IsNode(v) && 0 <= t < |s.threads|
  {
    || s.threads[t] == Reading(v) || s.threads[t] == Climbing(s.tree.parent[v], v)
    || (s.threads[t].Rejecting? && s.threads[t].y == v && s.threads[t].x == s.tree.parent[v])
  }

  ghost predicate CoverInv(s: State)
    requires s.tree.Shape()
  {
    forall v: nat :: s.tree.IsNode(v) && s.tree.enabled[v] && !s.tree.IsRoot(v) ==> Covered(s, v)
  }

  lemma CoverStep(c: Config, s: State, a: Action)
    requires Inv(s) && CoverInv(s) && Enabled(c, s, a) && Inv(Apply(c, s, a))
    ensures CoverInv(Apply(c, s, a))
  {
    var s' := Apply(c, s, a);
    forall v: nat | s'.tree.IsNode(v) && s'.tree.enabled[v] && !s'.tree.IsRoot(v)
      ensures Covered(s', v)
    {
      if a.Register? {
        if Registrable(s.tree, a.u, a.v) { CoverAfterRegister(c, s, a, v); }
      } else if a.Decide? || a.TakeBack? {
        CoverAfterDecide(c, s, a, v);
      } else if !a.NextVersion? {
        CoverAfterThread(c, s, a, v);
      }
    }
  }

  lemma CoverAfterRegister(c: Config, s: State, a: Action, v: nat)
    requires Inv(s) && Enabled(c, s, a) && a.Register? && Registrable(s.tree, a.u, a.v) && Inv(Apply(c, s, a))
    requires s.tree.IsNode(v) && (v == a.v || Covered(s, v))
    ensures Covered(Apply(c, s, a), v)
  {
    var s' := Apply(c, s, a);
    if v != a.v && v !in s.todo && s.tree.pending[v] <= 0 {
      var t :| 0 <= t < |s.threads| && Covers(s, t, v);
      assert Covers(s', t, v);
    }
  }

  lemma CoverAfterThread(c: Config, s: State, a: Action, v: nat)
    requires Inv(s) && Enabled(c, s, a) && (a.Begin? || a.Read? || a.Unregister?) && Inv(Apply(c, s, a))
    requires s.tree.IsNode(v) && !s.tree.IsRoot(v) && Covered(s, v)
    ensures Covered(Apply(c, s, a), v)
  {
    var s' := Apply(c, s, a);
    if s'.threads[a.t] == Reading(v) || s'.threads[a.t] == Climbing(s.tree.parent[v], v) {
      assert Covers(s', a.t, v);
    } else if v !in s.todo && s.tree.pending[v] <= 0 {
      var t :| 0 <= t < |s.threads| && Covers(s, t, v);
      assert Covers(s', t, v);
    }
  }

  lemma CoverAfterDecide(c: Config, s: State, a: Action, v: nat)
    requires Inv(s) && Enabled(c, s, a) && (a.Decide? || a.TakeBack?) && Inv(Apply(c, s, a))
    requires s.tree.IsNode(v) && !s.tree.IsRoot(v) && Covered(s, v)
    requires Apply(c, s, a).tree.enabled[v] && !Apply(c, s, a).tree.IsRoot(v)
    ensures Covered(Apply(c, s, a), v)
  {
    var s' := Apply(c, s, a);
    PendingNonNegative(s, v);
    if s'.threads[a.t] == Reading(v) || (s'.threads[a.t].Rejecting? && s'.threads[a.t].y == v && s'.threads[a.t].x == s.tree.parent[v]) {
      assert Covers(s', a.t, v);
    } else if v !in s.todo && s.tree.pending[v] <= 0 {
      var t :| 0 <= t < |s.threads| && Covers(s, t, v);
      OwnCoverEnds(c, s, a, v);
      ParentStays(c, s, a, v);
      hide Judge, Apply, Enabled, Inv;
      assert Covers(s', t, v);
    } else {
      PendingStays(c, s, a, v);
    }
  }

  /** The thread that decides covers v afterwards only in these two ways, or v is dealt with. */
  lemma OwnCoverEnds(c: Config, s: State, a: Action, v: nat)
    requires Inv(s) && Enabled(c, s, a) && (a.Decide? || a.TakeBack?)
    requires s.tree.IsNode(v) && !s.tree.IsRoot(v) && s.tree.pending[v] == 0
    requires Apply(c, s, a).tree.enabled[v] && v < |Apply(c, s, a).tree.parent| && !Apply(c, s, a).tree.IsRoot(v)
    requires !(Apply(c, s, a).threads[a.t].Rejecting? && Apply(c, s, a).threads[a.t].y == v && Apply(c, s, a).threads[a.t].x == s.tree.parent[v])
    ensures !Covers(s, a.t, v)
  {
  }

  lemma ParentStays(c: Config, s: State, a: Action, v: nat)
    requires Inv(s) && Enabled(c, s, a) && (a.Decide? || a.TakeBack?) && s.tree.IsNode(v) && !s.tree.IsRoot(v)
    requires v < |Apply(c, s, a).tree.parent| && !Apply(c, s, a).tree.IsRoot(v)
    ensures var s' := Apply(c, s, a);
            && s'.tree.parent[v] == s.tree.parent[v] && |s'.threads| == |s.threads|
            && forall t :: 0 <= t < |s.threads| && t != a.t ==> s'.threads[t] == s.threads[t]
  {
  }

  /** Deciding takes from the pending count of v only on the way up to v. */
  lemma PendingStays(c: Config, s: State, a: Action, v: nat)
    requires Inv(s) && Enabled(c, s, a) && (a.Decide? || a.TakeBack?) && s.tree.IsNode(v)
    requires Apply(c, s, a).threads[a.t] != Reading(v)
    ensures Apply(c, s, a).todo == s.todo && v < |Apply(c, s, a).tree.pending| && Apply(c, s, a).tree.pending[v] == s.tree.pending[v]
  {
  }

  /** If some node waits, then the forest contains an enabled node that waits for nobody. */
  lemma {:induction false} NothingWaits(s: State, v: nat)
    requires Inv(s) && CoverInv(s) && Quiescent(s) && s.todo == {}
    requires s.tree.IsNode(v) && s.tree.pending[v] > 0
    ensures false
    decreases |s.tree.parent| - |s.tree.up[v]|
  {
    var column := ChildColumn(s.tree, v);
    assert PendingExact(s, v);
    SumZero(MergeColumn(s.threads, v));
    var child := SumPositive(column);
    HeightDecreases(s.tree, child);
    HeightBounded(s.tree, child);
    assert Covered(s, child);
    NothingWaits(s, child);
  }

  lemma HeightBounded(tr: Tree, v: nat)
    requires tr.Forest() && tr.IsNode(v)
    ensures |tr.up[v]| <= |tr.parent|
  {
    assert tr.ForestAt(v);
    SubsetSize(tr.up[v], UpTo(|tr.parent|));
  }

  // ---------- Total weight ----------

  lemma WeightKept(c: Config, s: State, a: Action)
    requires Inv(s) && Enabled(c, s, a) && Confirmed(c, s, a)
    ensures |Apply(c, s, a).tree.weight| == |Apply(c, s, a).tree.enabled|
    ensures Sum(WeightColumn(Apply(c, s, a).tree)) == Sum(WeightColumn(s.tree))
  {
    var s' := Apply(c, s, a);
    if a.Decide? && s'.threads[a.t].Merging? {
      var (x, y) := (s.threads[a.t].x, s.threads[a.t].y);
      var column := WeightColumn(s.tree);
      assert NodeOk(s.tree, y);
      var xWeight := s.tree.weight[x] + s.tree.weight[y];
      SumUpdate(column, y, 0);
      SumUpdate(column[y := 0], x, xWeight);
      assert WeightColumn(s'.tree) == column[y := 0][x := xWeight];
    } else {
      assert WeightColumn(s'.tree) == WeightColumn(s.tree);
    }
  }

  /** A node has its first weight, or one within the limit. */
  ghost predicate WeightOk(c: Config, weights: seq<nat>, tr: Tree, v: nat)
    requires v < |tr.weight| == |weights|
  {
    tr.weight[v] == weights[v] || tr.weight[v] <= c.maxNodeWeight
  }

  ghost predicate WeightsOk(c: Config, weights: seq<nat>, tr: Tree) {
    |tr.weight| == |weights| && forall v: nat {:trigger WeightOk(c, weights, tr, v)} :: v < |weights| ==> WeightOk(c, weights, tr, v)
  }

  /** In every run, no node ever outweighs the larger of its first weight and the limit. */
  lemma {:induction false} WeightsStayOk(c: Config, weights: seq<nat>, s: State, run: seq<Action>)
    requires WeightsOk(c, weights, s.tree) && CanRun(c, s, run)
    ensures WeightsOk(c, weights, Run(c, s, run).tree)
    decreases |run|
  {
    if run != [] {
      var s' := Apply(c, s, run[0]);
      WeightAfter(c, weights, s, run[0]);
      WeightsStayOk(c, weights, s', run[1..]);
    }
  }

  lemma WeightAfter(c: Config, weights: seq<nat>, s: State, a: Action)
    requires WeightsOk(c, weights, s.tree) && Enabled(c, s, a)
    ensures WeightsOk(c, weights, Apply(c, s, a).tree)
  {
    var s' := Apply(c, s, a);
    forall v: nat | v < |weights| ensures |s'.tree.weight| == |weights| && WeightOk(c, weights, s'.tree, v) {
      assert WeightOk(c, weights, s.tree, v);
    }
  }

  // ---------- Runs ----------

  ghost predicate CanRun(c: Config, s: State, run: seq<Action>)
    decreases |run|
  {
    run == [] || (Enabled(c, s, run[0]) && CanRun(c, Apply(c, s, run[0]), run[1..]))
  }

  ghost function Run(c: Config, s: State, run: seq<Action>): State
    requires CanRun(c, s, run)
    decreases |run|
  {
    if run == [] then s else Run(c, Apply(c, s, run[0]), run[1..])
  }

  /** Every node is enabled, is its own parent, and nothing is registered. */
  ghost function FreshTree(weights: seq<nat>): Tree {
    var n := |weights|;
    Tree(seq(n, v requires 0 <= v < n => v), seq(n, v => 0), seq(n, v => INVALID_VERSION), seq(n, v => true),
         weights, 0, seq(n, v requires 0 <= v < n => {v}))
  }

  ghost function Fresh(weights: seq<nat>, fixed: F.Fixed, numThreads: nat): State {
    State(FreshTree(weights), fixed, seq(numThreads, t => Idle), {})
  }

  /** The weight fixed to each block is that of the nodes fixed to it, and it is known if any node is fixed. */
  ghost predicate GoodStart(c: Config, weights: seq<nat>, fixed: F.Fixed) {
    && fixed.Shape(weights, c.limit)
    && (forall v: nat :: v < |weights| && fixed.IsFixed(v) ==> fixed.total > 0)
    && (forall p: nat :: p < |c.limit| ==> fixed.blockWeight[p] == Sum(F.BlockColumn(fixed.block, weights, seq(|weights|, v => true), p)))
  }

  /** One thread only, or no fixed nodes, or room for all nodes in every block. */
  ghost predicate Safe(c: Config, weights: seq<nat>, fixed: F.Fixed, numThreads: nat) {
    numThreads <= 1 || fixed.total <= 0 || forall p :: 0 <= p < |c.limit| ==> Sum(weights) <= c.limit[p]
  }

  lemma FreshTreeOk(weights: seq<nat>, fixed: F.Fixed, numThreads: nat)
    ensures Inv(Fresh(weights, fixed, numThreads)) && CoverInv(Fresh(weights, fixed, numThreads))
    ensures Sum(WeightColumn(FreshTree(weights))) == Sum(weights)
  {
    var s := Fresh(weights, fixed, numThreads);
    forall v: nat | s.tree.IsNode(v) ensures s.tree.ForestAt(v) && NodeOk(s.tree, v) && PendingExact(s, v) {
      SumZero(ChildColumn(s.tree, v));
      SumZero(MergeColumn(s.threads, v));
    }
    var w: seq<int> := weights;
    assert WeightColumn(s.tree) == w;
  }

  lemma FreshInv(c: Config, weights: seq<nat>, fixed: F.Fixed, numThreads: nat)
    requires GoodStart(c, weights, fixed)
    ensures var s := Fresh(weights, fixed, numThreads);
            && Inv(s) && Books(c, s) && StaleInv(c, s) && CoverInv(s)
            && (Safe(c, weights, fixed, numThreads) ==> Calm(c, s))
  {
    var s := Fresh(weights, fixed, numThreads);
    FreshTreeOk(weights, fixed, numThreads);
    forall p: nat | p < |c.limit| ensures BlockExact(s, p) {
      SumZero(TransientColumn(s.threads, p));
    }
  }

  lemma SafeStep(c: Config, s: State, a: Action)
    requires Inv(s) && Books(c, s) && StaleInv(c, s) && CoverInv(s) && Calm(c, s) && Enabled(c, s, a)
    ensures var s' := Apply(c, s, a);
            && Inv(s') && Books(c, s') && StaleInv(c, s') && CoverInv(s') && Calm(c, s')
            && Sum(WeightColumn(s'.tree)) == Sum(WeightColumn(s.tree))
  {
    StaleConfirmed(c, s, a);
    ConfirmedKeeps(c, s, a);
    WeightKept(c, s, a);
    BooksStep(c, s, a);
    CoverStep(c, s, a);
    CalmStep(c, s, a);
    StaleStep(c, s, a);
  }

  lemma {:induction false} RunKeeps(c: Config, s: State, run: seq<Action>)
    requires Inv(s) && Books(c, s) && StaleInv(c, s) && CoverInv(s) && Calm(c, s) && CanRun(c, s, run)
    ensures var s' := Run(c, s, run);
            && Inv(s') && Books(c, s') && StaleInv(c, s') && CoverInv(s')
            && Sum(WeightColumn(s'.tree)) == Sum(WeightColumn(s.tree))
    decreases |run|
  {
    if run != [] {
      SafeStep(c, s, run[0]);
      hide Inv, Books, StaleInv, CoverInv, Calm;
      RunKeeps(c, Apply(c, s, run[0]), run[1..]);
    }
  }

  lemma FreshWeightsOk(c: Config, weights: seq<nat>)
    ensures WeightsOk(c, weights, FreshTree(weights))
  {
  }

  /** In every reachable state, whatever the interleaving: parents form a forest, pending counts are
      exact, roots are enabled, disabled nodes wait for nothing and have disabled children only,
      versions do not decrease towards the root, the enabled weight is the initial weight, the books
      of every block are exact, and a node that is heavier than the limit was so from the start. */
  lemma TreeAlwaysConsistent(c: Config, weights: seq<nat>, fixed: F.Fixed, numThreads: nat, run: seq<Action>)
    requires GoodStart(c, weights, fixed) && Safe(c, weights, fixed, numThreads) && CanRun(c, Fresh(weights, fixed, numThreads), run)
    ensures var s := Run(c, Fresh(weights, fixed, numThreads), run); var tr := s.tree;
            && TreeOk(s)
            && (forall v: nat :: tr.IsNode(v) && !tr.enabled[v] ==> !tr.IsRoot(v) && tr.pending[v] == 0)
            && (forall v: nat :: tr.IsNode(v) && !tr.enabled[tr.parent[v]] ==> !tr.enabled[v])
            && (forall v: nat :: tr.IsNode(v) ==> tr.version[v] <= tr.version[tr.parent[v]])
            && Sum(WeightColumn(tr)) == Sum(weights) && Books(c, s)
            && |tr.weight| == |weights| && (forall v: nat :: v < |weights| ==> tr.weight[v] == weights[v] || tr.weight[v] <= c.maxNodeWeight)
  {
    hide Inv, Books, StaleInv, CoverInv, Calm;
    FreshWeightsOk(c, weights);
    WeightsStayOk(c, weights, Fresh(weights, fixed, numThreads), run);
    FreshInv(c, weights, fixed, numThreads);
    FreshTreeOk(weights, fixed, numThreads);
    RunKeeps(c, Fresh(weights, fixed, numThreads), run);
    NodesInOrder(Run(c, Fresh(weights, fixed, numThreads), run));
    EachWeightOk(c, weights, Run(c, Fresh(weights, fixed, numThreads), run).tree);
  }

  lemma NodesInOrder(s: State)
    requires Inv(s)
    ensures TreeOk(s)
    ensures forall v: nat :: s.tree.IsNode(v) && !s.tree.enabled[v] ==> !s.tree.IsRoot(v) && s.tree.pending[v] == 0
    ensures forall v: nat :: s.tree.IsNode(v) && !s.tree.enabled[s.tree.parent[v]] ==> !s.tree.enabled[v]
    ensures forall v: nat :: s.tree.IsNode(v) ==> s.tree.version[v] <= s.tree.version[s.tree.parent[v]]
  {
    forall v: nat | s.tree.IsNode(v)
      ensures !s.tree.enabled[v] ==> !s.tree.IsRoot(v) && s.tree.pending[v] == 0
      ensures !s.tree.enabled[s.tree.parent[v]] ==> !s.tree.enabled[v]
      ensures s.tree.version[v] <= s.tree.version[s.tree.parent[v]]
    {
      assert NodeOk(s.tree, v);
    }
  }

  lemma EachWeightOk(c: Config, weights: seq<nat>, tr: Tree)
    requires WeightsOk(c, weights, tr)
    ensures forall v: nat :: v < |weights| ==> tr.weight[v] == weights[v] || tr.weight[v] <= c.maxNodeWeight
  {
    forall v: nat | v < |weights| ensures tr.weight[v] == weights[v] || tr.weight[v] <= c.maxNodeWeight {
      assert WeightOk(c, weights, tr, v);
    }
  }

  /** If every registered contraction was requested and all requests have returned, then nothing is
      pending any more and every enabled node is a root: each registration was executed or given up. */
  lemma NoContractionIsLost(c: Config, weights: seq<nat>, fixed: F.Fixed, numThreads: nat, run: seq<Action>)
    requires GoodStart(c, weights, fixed) && Safe(c, weights, fixed, numThreads) && CanRun(c, Fresh(weights, fixed, numThreads), run)
    requires var s := Run(c, Fresh(weights, fixed, numThreads), run); Quiescent(s) && s.todo == {}
    ensures var tr := Run(c, Fresh(weights, fixed, numThreads), run).tree;
            && tr.Forest()
            && (forall v: nat :: tr.IsNode(v) ==> tr.pending[v] == 0 && (tr.enabled[v] <==> tr.IsRoot(v)))
  {
    FreshInv(c, weights, fixed, numThreads);
    RunKeeps(c, Fresh(weights, fixed, numThreads), run);
    SettledAtRest(Run(c, Fresh(weights, fixed, numThreads), run));
  }

  lemma SettledAtRest(s: State)
    requires Inv(s) && CoverInv(s) && Quiescent(s) && s.todo == {}
    ensures forall v: nat :: s.tree.IsNode(v) ==> s.tree.pending[v] == 0 && (s.tree.enabled[v] <==> s.tree.IsRoot(v))
  {
    forall v: nat | s.tree.IsNode(v) ensures s.tree.pending[v] == 0 && (s.tree.enabled[v] <==> s.tree.IsRoot(v)) {
      assert NodeOk(s.tree, v) && PendingExact(s, v);
      PendingNonNegative(s, v);
      if s.tree.pending[v] > 0 {
        NothingWaits(s, v);
      }
    }
  }

  /** With any number of threads and any limits, the weight accepted for a block stays within its limit,
      although weights are added before they are tested. */
  lemma FixedWeightWithinLimit(c: Config, weights: seq<nat>, fixed: F.Fixed, numThreads: nat, run: seq<Action>, p: nat)
    requires GoodStart(c, weights, fixed) && p < |c.limit| && fixed.blockWeight[p] <= c.limit[p]
    requires CanRun(c, Fresh(weights, fixed, numThreads), run)
    ensures var s := Run(c, Fresh(weights, fixed, numThreads), run); p < |s.fixed.blockWeight| && AcceptedWeight(s, p) <= c.limit[p]
  {
    var s := Fresh(weights, fixed, numThreads);
    SumZero(TransientColumn(s.threads, p));
    AcceptedRun(c, s, run, p);
  }
}
