/** The spin locks of concurrent registrations and contractions. */
module LockOrder {
  import opened FiniteSets

  // Only the lock operations are modelled; every value a thread reads from the contraction tree may change at
  // any time, so whatever a test in the source could decide is an open choice here.

  /** The lock of a node, of a net, and of the fixed-vertex data of a node. */
  datatype Lock = Node(id: nat) | Net(id: nat) | Data(id: nat)

  datatype Option<T> = None | Some(value: T)

  /** Program points of a registration of v onto u, and of a contraction of v onto u. */
  datatype Pc =
    | Idle
    // registration
    | WaitForV(u: nat, v: nat)
    | Searching(u: nat, v: nat)             // holds v, walks up to a representative
    | WaitForWAboveV(v: nat, w: nat)        // holds v, representative w > v
    | WaitForWBelowV(v: nat, w: nat)        // gave up v, representative w < v
    | WaitForVAgain(v: nat, w: nat)         // holds w, takes v back
    | Checking(v: nat, w: nat)              // holds both
    | DropVThenW(v: nat, w: nat)            // holds both, leaves by releasing v first
    | DropWThenV(v: nat, w: nat)            // holds both, leaves by releasing w first
    | Leaving(x: nat)                       // holds x, about to release it and return
    // contraction
    | WaitForSmaller(u: nat, v: nat)
    | WaitForLarger(u: nat, v: nat)         // holds the smaller one
    | Deciding(u: nat, v: nat)              // holds both
    | WaitForData(u: nat, v: nat)           // holds both, is about to look at the fixed-vertex data of u
    | InData(u: nat, v: nat)                // holds both and the data
    | Rejecting(u: nat, v: nat)             // holds both, about to return
    | Accepting(u: nat, v: nat)             // holds both, about to merge the nets
    | AcceptingV(u: nat, v: nat)            // released u
    | RejectingV(u: nat, v: nat)            // released u
    | Merging(u: nat, v: nat)               // holds nothing, next net
    | WaitForNet(u: nat, v: nat, e: nat)
    | InNet(u: nat, v: nat, e: nat)
    | WaitForList(u: nat, v: nat)
    | InList(u: nat, v: nat)
    | WaitForTree(u: nat, v: nat)
    | InTree(u: nat, v: nat)
  {
    function Holds(): set<Lock> {
      match this
      case Idle => {}
      case WaitForV(_, _) => {}
      case Searching(_, v) => {Node(v)}
      case WaitForWAboveV(v, _) => {Node(v)}
      case WaitForWBelowV(_, _) => {}
      case WaitForVAgain(_, w) => {Node(w)}
      case Checking(v, w) => {Node(v), Node(w)}
      case DropVThenW(v, w) => {Node(v), Node(w)}
      case DropWThenV(v, w) => {Node(v), Node(w)}
      case Leaving(x) => {Node(x)}
      case WaitForSmaller(_, _) => {}
      case WaitForLarger(u, v) => {Node(Min(u, v))}
      case Deciding(u, v) => {Node(u), Node(v)}
      case WaitForData(u, v) => {Node(u), Node(v)}
      case InData(u, v) => {Node(u), Node(v), Data(u)}
      case Rejecting(u, v) => {Node(u), Node(v)}
      case Accepting(u, v) => {Node(u), Node(v)}
      case AcceptingV(_, v) => {Node(v)}
      case RejectingV(_, v) => {Node(v)}
      case Merging(_, _) => {}
      case WaitForNet(_, _, _) => {}
      case InNet(_, _, e) => {Net(e)}
      case WaitForList(_, _) => {}
      case InList(u, _) => {Node(u)}
      case WaitForTree(_, _) => {}
      case InTree(u, _) => {Node(u)}
    }

    function WaitsFor(): Option<Lock> {
      match this
      case WaitForV(_, v) => Some(Node(v))
      case WaitForWAboveV(_, w) => Some(Node(w))
      case WaitForWBelowV(_, w) => Some(Node(w))
      case WaitForVAgain(v, _) => Some(Node(v))
      case WaitForSmaller(u, v) => Some(Node(Min(u, v)))
      case WaitForLarger(u, v) => Some(Node(Max(u, v)))
      case WaitForData(u, _) => Some(Data(u))
      case WaitForNet(_, _, e) => Some(Net(e))
      case WaitForList(u, _) => Some(Node(u))
      case WaitForTree(u, _) => Some(Node(u))
      case _ => None
    }

    /** The program point after the awaited lock was obtained. */
    function Granted(): Pc
      requires WaitsFor().Some?
    {
      match this
      case WaitForV(u, v) => Searching(u, v)
      case WaitForWAboveV(v, w) => Checking(v, w)
      case WaitForWBelowV(v, w) => WaitForVAgain(v, w)
      case WaitForVAgain(v, w) => Checking(v, w)
      case WaitForSmaller(u, v) => WaitForLarger(u, v)
      case WaitForLarger(u, v) => Deciding(u, v)
      case WaitForData(u, v) => InData(u, v)
      case WaitForNet(u, v, e) => InNet(u, v, e)
      case WaitForList(u, v) => InList(u, v)
      case WaitForTree(u, v) => InTree(u, v)
    }

    /** What a thread that waits for nothing may do next; all these steps only release locks,
        except that a net lock may also be taken by a successful try. */
    predicate MayProceed(next: Pc) {
      match this
      case Searching(u, v) =>
        || next == Leaving(v)                                                        // v has a parent, or a cycle was found
        || (next.WaitForWAboveV? && next.v == v && next.w > v)
        || (next.WaitForWBelowV? && next.v == v && next.w < v)
      case Checking(v, w) =>
        || next == DropVThenW(v, w)                                                  // v got a parent meanwhile
        || next == DropWThenV(v, w)                                                  // registered, or a cycle was found
        || (next.Searching? && next.v == v)                                          // w is no representative any more
      case DropVThenW(v, w) => next == Leaving(w)
      case DropWThenV(v, w) => next == Leaving(v)
      case Leaving(_) => next == Idle
      case Deciding(u, v) => next == Rejecting(u, v) || next == Accepting(u, v) || next == WaitForData(u, v)
      case InData(u, v) => next == Rejecting(u, v) || next == Accepting(u, v)
      case Rejecting(u, v) => next == RejectingV(u, v)
      case RejectingV(_, _) => next == Idle
      case Accepting(u, v) => next == AcceptingV(u, v)
      case AcceptingV(u, v) => next == Merging(u, v)
      case Merging(u, v) => (next.WaitForNet? && next.u == u && next.v == v) || next == WaitForList(u, v)
      case InNet(u, v, _) => next == Merging(u, v)
      case InList(u, v) => next == WaitForTree(u, v)
      case InTree(_, _) => next == Idle
      case _ => false
    }

    predicate WellFormed() {
      match this
      case Idle => true
      case Leaving(_) => true
      case WaitForWAboveV(v, w) => v < w
      case WaitForWBelowV(v, w) => w < v
      case WaitForVAgain(v, w) => w < v
      case Checking(v, w) => v != w
      case DropVThenW(v, w) => v != w
      case DropWThenV(v, w) => v != w
      case Searching(_, _) => true
      case _ => u != v
    }
  }

  function Min(a: nat, b: nat): nat { if a < b then a else b }

  function Max(a: nat, b: nat): nat { if a < b then b else a }

  datatype State = State(owner: map<Lock, nat>, threads: seq<Pc>)

  datatype Action =
    | StartRegistration(t: nat, u: nat, v: nat)
    | StartContraction(t: nat, u: nat, v: nat)
    | Acquire(t: nat)
    | TryNet(t: nat, e: nat)
    | Proceed(t: nat, next: Pc)

  predicate Enabled(s: State, a: Action) {
    && a.t < |s.threads|
    && match a
       case StartRegistration(t, u, v) => s.threads[t].Idle? && u != v
       case StartContraction(t, u, v) => s.threads[t].Idle? && u != v
       case Acquire(t) => s.threads[t].WaitsFor().Some? && s.threads[t].WaitsFor().value !in s.owner
       case TryNet(t, e) => s.threads[t].Merging? && Net(e) !in s.owner
       case Proceed(t, next) => s.threads[t].MayProceed(next)
  }

  function Apply(s: State, a: Action): State
    requires Enabled(s, a)
  {
    match a
    case StartRegistration(t, u, v) => s.(threads := s.threads[t := WaitForV(u, v)])
    case StartContraction(t, u, v) => s.(threads := s.threads[t := WaitForSmaller(u, v)])
    case Acquire(t) =>
      State(s.owner[s.threads[t].WaitsFor().value := t], s.threads[t := s.threads[t].Granted()])
    case TryNet(t, e) =>
      State(s.owner[Net(e) := t], s.threads[t := InNet(s.threads[t].u, s.threads[t].v, e)])
    case Proceed(t, next) =>
      State(s.owner - (s.threads[t].Holds() - next.Holds()), s.threads[t := next])
  }

  // ---------- Who holds what ----------

  ghost predicate Inv(s: State) {
    && (forall t :: 0 <= t < |s.threads| ==> s.threads[t].WellFormed())
    && (forall l :: l in s.owner ==> s.owner[l] < |s.threads| && l in s.threads[s.owner[l]].Holds())
    && (forall t: nat, l :: t < |s.threads| && l in s.threads[t].Holds() ==> l in s.owner && s.owner[l] == t)
  }

  lemma ProceedOnlyReleases(pc: Pc, next: Pc)
    requires pc.WellFormed() && pc.MayProceed(next)
    ensures next.WellFormed() && next.Holds() <= pc.Holds()
  {
  }

  lemma GrantAddsTheLock(pc: Pc)
    requires pc.WellFormed() && pc.WaitsFor().Some?
    ensures pc.Granted().WellFormed() && pc.Granted().Holds() == pc.Holds() + {pc.WaitsFor().value}
  {
  }

  lemma OwnersAfter(s: State, s': State, t: nat)
    requires Inv(s) && t < |s.threads| == |s'.threads| && s'.threads == s.threads[t := s'.threads[t]]
    requires s'.threads[t].WellFormed()
    requires forall l :: l in s'.threads[t].Holds() ==> l in s'.owner && s'.owner[l] == t
    requires forall l :: l in s'.owner && l !in s'.threads[t].Holds() ==> l in s.owner && s'.owner[l] == s.owner[l] != t
    requires forall l :: l in s.owner && s.owner[l] != t ==> l in s'.owner && s'.owner[l] == s.owner[l]
    ensures Inv(s')
  {
    hide Pc.Holds, Pc.WellFormed;
    forall t': nat, l | t' < |s'.threads| && l in s'.threads[t'].Holds() ensures l in s'.owner && s'.owner[l] == t' {
      if t' != t { assert l in s.threads[t'].Holds(); }
    }
  }

  lemma StepKeeps(s: State, a: Action)
    requires Inv(s) && Enabled(s, a)
    ensures Inv(Apply(s, a))
  {
    hide Pc.Holds, Pc.WellFormed, Pc.MayProceed, Pc.Granted, Pc.WaitsFor;
    var pc := s.threads[a.t];
    match a
    case StartRegistration(_, u, v) => StartsEmpty(pc, WaitForV(u, v));
    case StartContraction(_, u, v) => StartsEmpty(pc, WaitForSmaller(u, v));
    case Acquire(_) => GrantAddsTheLock(pc);
    case TryNet(_, e) => TryAddsTheNet(pc, e);
    case Proceed(_, next) => ProceedOnlyReleases(pc, next);
    OwnersAfter(s, Apply(s, a), a.t);
  }

  lemma StartsEmpty(pc: Pc, next: Pc)
    requires pc.Idle? && (next.WaitForV? || next.WaitForSmaller?) && next.u != next.v
    ensures pc.Holds() == {} == next.Holds() && next.WellFormed()
  {
  }

  lemma TryAddsTheNet(pc: Pc, e: nat)
    requires pc.Merging? && pc.WellFormed()
    ensures pc.Holds() == {} && InNet(pc.u, pc.v, e).Holds() == {Net(e)} && InNet(pc.u, pc.v, e).WellFormed()
  {
  }

  ghost predicate CanRun(s: State, run: seq<Action>)
    decreases |run|
  {
    run == [] || (Enabled(s, run[0]) && CanRun(Apply(s, run[0]), run[1..]))
  }

  ghost function Run(s: State, run: seq<Action>): State
    requires CanRun(s, run)
    decreases |run|
  {
    if run == [] then s else Run(Apply(s, run[0]), run[1..])
  }

  lemma {:induction false} RunKeeps(s: State, run: seq<Action>)
    requires Inv(s) && CanRun(s, run)
    ensures Inv(Run(s, run))
    decreases |run|
  {
    if run != [] {
      StepKeeps(s, run[0]);
      RunKeeps(Apply(s, run[0]), run[1..]);
    }
  }

  ghost function Start(numThreads: nat): State {
    State(map[], seq(numThreads, t => Idle))
  }

  // ---------- Deadlock freedom ----------

  /** A thread waits for a node lock only while all locks it holds are node locks of smaller id, for the data
      of a node only while it holds node locks, and for a net lock only while it holds nothing. Whoever holds the
      data of a node waits for nothing. */
  lemma WaitsUpwards(pc: Pc)
    requires pc.WellFormed() && pc.WaitsFor().Some?
    ensures forall l :: l in pc.Holds() ==> l.Node? && (pc.WaitsFor().value.Data? || (pc.WaitsFor().value.Node? && l.id < pc.WaitsFor().value.id))
  {
  }

  /** A running thread is never without a next step of its own, unless it waits. */
  lemma NextStep(s: State, t: nat) returns (next: Pc)
    requires t < |s.threads| && !s.threads[t].Idle? && s.threads[t].WaitsFor().None?
    ensures s.threads[t].MayProceed(next)
  {
    match s.threads[t]
    case Searching(_, v) => next := Leaving(v);
    case Checking(v, w) => next := DropWThenV(v, w);
    case DropVThenW(_, w) => next := Leaving(w);
    case DropWThenV(v, _) => next := Leaving(v);
    case Leaving(_) => next := Idle;
    case Deciding(u, v) => next := Rejecting(u, v);
    case InData(u, v) => next := Rejecting(u, v);
    case Rejecting(u, v) => next := RejectingV(u, v);
    case RejectingV(_, _) => next := Idle;
    case Accepting(u, v) => next := AcceptingV(u, v);
    case AcceptingV(u, v) => next := Merging(u, v);
    case Merging(u, v) => next := WaitForList(u, v);
    case InNet(u, v, _) => next := Merging(u, v);
    case InList(u, v) => next := WaitForTree(u, v);
    case InTree(_, _) => next := Idle;
  }

  /** Ids of the node locks that are taken. */
  ghost function TakenAbove(s: State, id: nat): set<Lock> {
    set l | l in s.owner && l.Node? && l.id > id
  }

  /** Following the owners of awaited locks climbs in id, so it ends at a thread that can move. */
  lemma {:induction false} SomeStep(s: State, t: nat) returns (a: Action)
    requires Inv(s) && t < |s.threads| && !s.threads[t].Idle?
    ensures Enabled(s, a) && (a.Acquire? || a.Proceed?)
    decreases if s.threads[t].WaitsFor().Some? then
                match s.threads[t].WaitsFor().value
                case Node(id) => |TakenAbove(s, id)| + 2
                case Data(_) => 1
                case Net(_) => |s.owner| + 3
              else 0
  {
    var pc := s.threads[t];
    if pc.WaitsFor().None? {
      var next := NextStep(s, t);
      a := Proceed(t, next);
    } else if pc.WaitsFor().value !in s.owner {
      a := Acquire(t);
    } else {
      var lock := pc.WaitsFor().value;
      var owner := s.owner[lock];
      var other := s.threads[owner];
      assert lock in other.Holds();
      if other.WaitsFor().Some? {
        WaitsUpwards(other);
        if other.WaitsFor().value !in s.owner {
          a := Acquire(owner);
          return;
        }
        if other.WaitsFor().value.Node? {
          FewerAbove(s, lock.id, other.WaitsFor().value);
        }
      }
      a := SomeStep(s, owner);
    }
  }

  lemma FewerAbove(s: State, id: nat, l: Lock)
    requires l in s.owner && l.Node? && l.id > id
    ensures |TakenAbove(s, l.id)| < |TakenAbove(s, id)|
  {
    assert TakenAbove(s, l.id) <= TakenAbove(s, id) - {l};
    assert |TakenAbove(s, id) - {l}| == |TakenAbove(s, id)| - 1;
    SubsetSize(TakenAbove(s, l.id), TakenAbove(s, id) - {l});
  }

  /** No reachable state of any number of registrations and contractions is a deadlock. */
  lemma NoDeadlock(numThreads: nat, run: seq<Action>, t: nat) returns (a: Action)
    requires CanRun(Start(numThreads), run)
    requires t < |Run(Start(numThreads), run).threads| && !Run(Start(numThreads), run).threads[t].Idle?
    ensures Enabled(Run(Start(numThreads), run), a) && (a.Acquire? || a.Proceed?)
  {
    RunKeeps(Start(numThreads), run);
    a := SomeStep(Run(Start(numThreads), run), t);
  }

  /** Every exit releases all locks: when all calls have returned, no lock is taken. */
  lemma ExitsReleaseAll(numThreads: nat, run: seq<Action>)
    requires CanRun(Start(numThreads), run)
    requires forall t :: 0 <= t < |Run(Start(numThreads), run).threads| ==> Run(Start(numThreads), run).threads[t].Idle?
    ensures Run(Start(numThreads), run).owner == map[]
  {
    RunKeeps(Start(numThreads), run);
  }

  /** At no time do two threads hold the same lock. */
  lemma MutualExclusion(numThreads: nat, run: seq<Action>, t: nat, t': nat, l: Lock)
    requires CanRun(Start(numThreads), run)
    requires var s := Run(Start(numThreads), run); t < |s.threads| && t' < |s.threads| && l in s.threads[t].Holds() && l in s.threads[t'].Holds()
    ensures t == t' && l in Run(Start(numThreads), run).owner && Run(Start(numThreads), run).owner[l] == t
  {
    RunKeeps(Start(numThreads), run);
    HeldByOne(Run(Start(numThreads), run), t, t', l);
  }

  lemma HeldByOne(s: State, t: nat, t': nat, l: Lock)
    requires Inv(s) && t < |s.threads| && t' < |s.threads| && l in s.threads[t].Holds() && l in s.threads[t'].Holds()
    ensures t == t' && l in s.owner && s.owner[l] == t
  {
    hide Pc.Holds, Pc.WellFormed;
    assert l in s.owner && s.owner[l] == t;
    assert s.owner[l] == t';
  }

  // ---------- Every call can be made ----------

  ghost predicate Follows(pc: Pc, next: Pc) {
    || (pc.Idle? && (next.WaitForV? || next.WaitForSmaller?) && next.u != next.v)
    || (pc.WaitsFor().Some? && next == pc.Granted())
    || pc.MayProceed(next)
  }

  ghost predicate IsPath(path: seq<Pc>) {
    path != [] && path[0].Idle? && forall i: nat {:trigger path[i]} :: i + 1 < |path| ==> Follows(path[i], path[i + 1])
  }

  /** The locks that are taken on the way, in this order. */
  ghost function LocksOn(path: seq<Pc>): seq<Lock> {
    if |path| < 2 then [] else
      LocksOn(path[..|path| - 1]) + (if path[|path| - 2].WaitsFor().Some? then [path[|path| - 2].WaitsFor().value] else [])
  }

  ghost function TakenBy(s: State, a: Action): seq<Lock>
    requires Enabled(s, a)
  {
    match a
    case Acquire(t) => [s.threads[t].WaitsFor().value]
    case TryNet(_, e) => [Net(e)]
    case _ => []
  }

  ghost function LocksTaken(s: State, run: seq<Action>): seq<Lock>
    requires CanRun(s, run)
    decreases |run|
  {
    if run == [] then [] else TakenBy(s, run[0]) + LocksTaken(Apply(s, run[0]), run[1..])
  }

  lemma {:induction false} OneMore(s: State, run: seq<Action>, a: Action)
    requires CanRun(s, run) && Enabled(Run(s, run), a)
    ensures CanRun(s, run + [a]) && Run(s, run + [a]) == Apply(Run(s, run), a)
    ensures LocksTaken(s, run + [a]) == LocksTaken(s, run) + TakenBy(Run(s, run), a)
    decreases |run|
  {
    hide Enabled, Apply, TakenBy;
    var after := run + [a];
    if run == [] {
      assert after[1..] == [];
    } else {
      assert after[0] == run[0] && after[1..] == run[1..] + [a];
      OneMore(Apply(s, run[0]), run[1..], a);
    }
  }

  /** The state in which thread t alone has moved on to this program point. */
  ghost predicate MovedTo(s: State, s': State, t: nat, pc: Pc) {
    && t < |s.threads| && s'.threads == s.threads[t := pc] && Inv(s')
    && (forall l :: l in s'.owner <==> l in s.owner || l in pc.Holds())
    && (forall l :: l in s.owner ==> l in s'.owner && s'.owner[l] == s.owner[l])
  }

  lemma AfterGrant(pc: Pc, next: Pc)
    requires Follows(pc, next) && pc.WaitsFor().Some?
    ensures next == pc.Granted() && next.Holds() == pc.Holds() + {pc.WaitsFor().value}
  {
  }

  lemma AfterProceed(s: State, t: nat, pc: Pc, next: Pc)
    requires Inv(s) && t < |s.threads| && s.threads[t] == pc && pc.MayProceed(next)
    ensures next.Holds() <= pc.Holds() && forall l :: l in pc.Holds() ==> l in s.owner && s.owner[l] == t
  {
    ProceedOnlyReleases(pc, next);
  }

  lemma IdleOwnsNothing(s: State, t: nat)
    requires Inv(s) && t < |s.threads| && s.threads[t].Idle?
    ensures forall l :: l in s.owner ==> s.owner[l] != t
  {
  }

  lemma NotHeld(pc: Pc)
    requires pc.WellFormed() && pc.WaitsFor().Some?
    ensures pc.WaitsFor().value !in pc.Holds()
  {
    WaitsUpwards(pc);
  }

  /** The step of thread t, after which it holds the locks of the next program point. */
  lemma Steps(s: State, s': State, t: nat, pc: Pc, next: Pc, a: Action)
    requires Inv(s) && t < |s.threads| && s.threads[t].Idle? && MovedTo(s, s', t, pc) && Enabled(s', a) && a.t == t
    requires var s'' := Apply(s', a); s''.threads == s'.threads[t := next] && forall l :: l in s''.owner <==> (l in s'.owner && l !in pc.Holds()) || l in next.Holds()
    requires forall l :: l in next.Holds() && l !in pc.Holds() ==> l !in s.owner
    ensures MovedTo(s, Apply(s', a), t, next)
  {
    hide Pc.Holds, Inv, Enabled, Apply, Pc.WellFormed;
    StepKeeps(s', a);
    var s'' := Apply(s', a);
    IdleOwnsNothing(s, t);
    HoldsOwn(s', t, pc);
    HoldsOwn(s'', t, next);
    OthersStay(s', t, a);
  }

  lemma HoldsOwn(s: State, t: nat, pc: Pc)
    requires Inv(s) && t < |s.threads| && s.threads[t] == pc
    ensures pc.WellFormed() && forall l :: l in pc.Holds() ==> l in s.owner && s.owner[l] == t
  {
    hide Pc.Holds, Pc.WellFormed;
  }

  lemma OthersStay(s: State, t: nat, a: Action)
    requires Enabled(s, a) && a.t == t
    ensures forall l :: l in s.owner && l in Apply(s, a).owner && s.owner[l] != t ==> Apply(s, a).owner[l] == s.owner[l]
  {
  }

  lemma StartMoves(s: State, s': State, t: nat, pc: Pc, next: Pc) returns (a: Action)
    requires Inv(s) && t < |s.threads| && s.threads[t].Idle? && MovedTo(s, s', t, pc)
    requires pc.Idle? && (next.WaitForV? || next.WaitForSmaller?) && next.u != next.v
    ensures Enabled(s', a) && MovedTo(s, Apply(s', a), t, next) && TakenBy(s', a) == []
  {
    a := if next.WaitForV? then StartRegistration(t, next.u, next.v) else StartContraction(t, next.u, next.v);
    StartsEmpty(pc, next);
    hide Pc.Holds, Inv;
    Steps(s, s', t, pc, next, a);
  }

  lemma GrantMoves(s: State, s': State, t: nat, pc: Pc, next: Pc) returns (a: Action)
    requires Inv(s) && t < |s.threads| && s.threads[t].Idle? && MovedTo(s, s', t, pc)
    requires pc.WaitsFor().Some? && pc.WaitsFor().value !in s.owner && next == pc.Granted()
    ensures Enabled(s', a) && MovedTo(s, Apply(s', a), t, next) && TakenBy(s', a) == [pc.WaitsFor().value]
  {
    a := Acquire(t);
    HoldsOwn(s', t, pc);
    NotHeld(pc);
    GrantAddsTheLock(pc);
    hide Pc.Holds, Pc.Granted, Pc.WaitsFor, Pc.WellFormed, Inv;
    Steps(s, s', t, pc, next, a);
  }

  lemma ProceedMoves(s: State, s': State, t: nat, pc: Pc, next: Pc) returns (a: Action)
    requires Inv(s) && t < |s.threads| && s.threads[t].Idle? && MovedTo(s, s', t, pc) && pc.MayProceed(next)
    ensures Enabled(s', a) && MovedTo(s, Apply(s', a), t, next) && TakenBy(s', a) == []
  {
    a := Proceed(t, next);
    HoldsOwn(s', t, pc);
    AfterProceed(s', t, pc, next);
    hide Pc.Holds, Pc.WellFormed, Pc.MayProceed, Inv;
    Steps(s, s', t, pc, next, a);
  }

  lemma MoveOn(s: State, s': State, t: nat, pc: Pc, next: Pc) returns (a: Action)
    requires Inv(s) && t < |s.threads| && s.threads[t].Idle? && MovedTo(s, s', t, pc) && Follows(pc, next)
    requires pc.WaitsFor().Some? ==> pc.WaitsFor().value !in s.owner
    ensures Enabled(s', a) && MovedTo(s, Apply(s', a), t, next)
    ensures TakenBy(s', a) == if pc.WaitsFor().Some? then [pc.WaitsFor().value] else []
  {
    hide MovedTo, Inv, Enabled, Apply, TakenBy;
    if pc.WaitsFor().Some? {
      AfterGrant(pc, next);
      a := GrantMoves(s, s', t, pc, next);
    } else if pc.Idle? {
      a := StartMoves(s, s', t, pc, next);
    } else {
      a := ProceedMoves(s, s', t, pc, next);
    }
  }

  lemma StandsStill(s: State, t: nat)
    requires Inv(s) && t < |s.threads| && s.threads[t].Idle?
    ensures MovedTo(s, s, t, Idle)
  {
  }

  lemma ShorterWay(path: seq<Pc>)
    requires IsPath(path) && |path| > 1
    ensures IsPath(path[..|path| - 1]) && Follows(path[|path| - 2], path[|path| - 1])
  {
    hide Follows;
    assert path[|path| - 2] == path[|path| - 2];
  }

  lemma FirstIsIdle(path: seq<Pc>)
    requires IsPath(path)
    ensures path != [] && path[0] == Idle
  {
  }

  /** If the locks on the way are free, a thread can take this way whatever the others hold. */
  lemma {:induction false} WayIsOpen(s: State, t: nat, path: seq<Pc>) returns (run: seq<Action>)
    requires Inv(s) && t < |s.threads| && s.threads[t].Idle? && IsPath(path)
    requires forall l :: l in LocksOn(path) ==> l !in s.owner
    ensures CanRun(s, run) && MovedTo(s, Run(s, run), t, path[|path| - 1]) && LocksTaken(s, run) == LocksOn(path)
    decreases |path|
  {
    hide Follows, Pc.Holds, Inv, Apply, Enabled, IsPath, MovedTo, TakenBy;
    if |path| < 2 {
      run := [];
      FirstIsIdle(path);
      StandsStill(s, t);
    } else {
      ShorterWay(path);
      var front, last := path[..|path| - 1], path[|path| - 1];
      run := WayIsOpen(s, t, front);
      var a := MoveOn(s, Run(s, run), t, front[|front| - 1], last);
      OneMore(s, run, a);
      run := run + [a];
    }
  }

  /** A way to a program point, and the locks taken on it. */
  ghost predicate IsWay(path: seq<Pc>, locks: seq<Lock>, last: Pc) {
    IsPath(path) && path[|path| - 1] == last && LocksOn(path) == locks
  }

  lemma Begin(next: Pc) returns (path: seq<Pc>)
    requires (next.WaitForV? || next.WaitForSmaller?) && next.u != next.v
    ensures IsWay(path, [], next)
  {
    path := [Idle, next];
    assert path[..1] == [Idle];
  }

  lemma Take(path: seq<Pc>, locks: seq<Lock>, pc: Pc) returns (path': seq<Pc>)
    requires IsWay(path, locks, pc) && pc.WaitsFor().Some?
    ensures IsWay(path', locks + [pc.WaitsFor().value], pc.Granted())
  {
    path' := path + [pc.Granted()];
    assert path'[..|path|] == path;
    assert Follows(pc, pc.Granted());
    hide Follows, Pc.Granted, Pc.WaitsFor;
  }

  lemma Pass(path: seq<Pc>, locks: seq<Lock>, pc: Pc, next: Pc) returns (path': seq<Pc>)
    requires IsWay(path, locks, pc) && pc.WaitsFor().None? && pc.MayProceed(next)
    ensures IsWay(path', locks, next)
  {
    path' := path + [next];
    assert path'[..|path|] == path;
    assert Follows(pc, next);
    hide Follows, Pc.MayProceed, Pc.WaitsFor;
  }

  ghost function NetLocks(nets: seq<nat>): seq<Lock> {
    if nets == [] then [] else NetLocks(nets[..|nets| - 1]) + [Net(nets[|nets| - 1])]
  }

  lemma {:induction false} ThroughNets(path: seq<Pc>, locks: seq<Lock>, u: nat, v: nat, nets: seq<nat>) returns (path': seq<Pc>)
    requires IsWay(path, locks, Merging(u, v))
    ensures IsWay(path', locks + NetLocks(nets), Merging(u, v))
    decreases |nets|
  {
    hide IsWay;
    if nets == [] {
      path' := path;
      assert locks + [] == locks;
    } else {
      var front, e := nets[..|nets| - 1], nets[|nets| - 1];
      var locks' := locks + NetLocks(front);
      path' := ThroughNets(path, locks, u, v, front);
      path' := Pass(path', locks', Merging(u, v), WaitForNet(u, v, e));
      path' := Take(path', locks', WaitForNet(u, v, e));
      path' := Pass(path', locks' + [Net(e)], InNet(u, v, e), Merging(u, v));
      assert locks' + [Net(e)] == locks + NetLocks(nets);
    }
  }

  ghost function DecisionLocks(u: nat, v: nat, looks: bool): seq<Lock> {
    [Node(Min(u, v)), Node(Max(u, v))] + if looks then [Data(u)] else []
  }

  /** Up to the decision; the fixed-vertex data is looked at, or not. */
  lemma ToDecision(u: nat, v: nat, looks: bool) returns (path: seq<Pc>)
    requires u != v
    ensures IsWay(path, DecisionLocks(u, v, looks), if looks then InData(u, v) else Deciding(u, v))
  {
    hide IsWay;
    var nodes := [Node(Min(u, v)), Node(Max(u, v))];
    path := Begin(WaitForSmaller(u, v));
    path := Take(path, [], WaitForSmaller(u, v));
    path := Take(path, [] + [Node(Min(u, v))], WaitForLarger(u, v));
    assert [] + [Node(Min(u, v))] + [Node(Max(u, v))] == nodes;
    if looks {
      path := Pass(path, nodes, Deciding(u, v), WaitForData(u, v));
      path := Take(path, nodes, WaitForData(u, v));
    } else {
      assert nodes + [] == nodes;
    }
  }

  /** A contraction locks both nodes, the smaller one first, then possibly the data of u, then one net at a time,
      and then twice u, for its list and for the tree; or it is rejected after the decision. */
  ghost function ContractionLocks(u: nat, v: nat, looks: bool, accepted: bool, nets: seq<nat>): seq<Lock> {
    DecisionLocks(u, v, looks) + if accepted then NetLocks(nets) + [Node(u), Node(u)] else []
  }

  lemma Decide(path: seq<Pc>, locks: seq<Lock>, u: nat, v: nat, looks: bool, next: Pc) returns (path': seq<Pc>)
    requires IsWay(path, locks, if looks then InData(u, v) else Deciding(u, v)) && (next == Rejecting(u, v) || next == Accepting(u, v))
    ensures IsWay(path', locks, next)
  {
    hide IsWay, Pc.Holds, Pc.WellFormed, Pc.Granted;
    if looks {
      path' := Pass(path, locks, InData(u, v), next);
    } else {
      path' := Pass(path, locks, Deciding(u, v), next);
    }
  }

  lemma Rejection(u: nat, v: nat, looks: bool) returns (path: seq<Pc>)
    requires u != v
    ensures IsWay(path, DecisionLocks(u, v, looks), Idle)
  {
    path := ToDecision(u, v, looks);
    hide IsWay, DecisionLocks, Pc.Holds, Pc.WellFormed, Pc.Granted;
    var locks := DecisionLocks(u, v, looks);
    path := Decide(path, locks, u, v, looks, Rejecting(u, v));
    path := Pass(path, locks, Rejecting(u, v), RejectingV(u, v));
    path := Pass(path, locks, RejectingV(u, v), Idle);
  }

  lemma Acceptance(u: nat, v: nat, looks: bool) returns (path: seq<Pc>)
    requires u != v
    ensures IsWay(path, DecisionLocks(u, v, looks), Merging(u, v))
  {
    path := ToDecision(u, v, looks);
    hide IsWay, DecisionLocks, Pc.Holds, Pc.WellFormed, Pc.Granted;
    var locks := DecisionLocks(u, v, looks);
    path := Decide(path, locks, u, v, looks, Accepting(u, v));
    path := Pass(path, locks, Accepting(u, v), AcceptingV(u, v));
    path := Pass(path, locks, AcceptingV(u, v), Merging(u, v));
  }

  lemma AfterNets(path: seq<Pc>, locks: seq<Lock>, u: nat, v: nat) returns (path': seq<Pc>)
    requires IsWay(path, locks, Merging(u, v))
    ensures IsWay(path', locks + [Node(u)] + [Node(u)], Idle)
  {
    hide IsWay, Pc.Holds, Pc.WellFormed;
    path' := Pass(path, locks, Merging(u, v), WaitForList(u, v));
    path' := Take(path', locks, WaitForList(u, v));
    path' := Pass(path', locks + [Node(u)], InList(u, v), WaitForTree(u, v));
    path' := Take(path', locks + [Node(u)], WaitForTree(u, v));
    path' := Pass(path', locks + [Node(u)] + [Node(u)], InTree(u, v), Idle);
  }

  lemma Merge(path: seq<Pc>, locks: seq<Lock>, u: nat, v: nat, nets: seq<nat>) returns (path': seq<Pc>)
    requires IsWay(path, locks, Merging(u, v))
    ensures IsWay(path', locks + (NetLocks(nets) + [Node(u), Node(u)]), Idle)
  {
    path' := ThroughNets(path, locks, u, v, nets);
    path' := AfterNets(path', locks + NetLocks(nets), u, v);
    hide IsWay, NetLocks;
    assert locks + NetLocks(nets) + [Node(u)] + [Node(u)] == locks + (NetLocks(nets) + [Node(u), Node(u)]);
  }

  lemma ContractionPath(u: nat, v: nat, looks: bool, accepted: bool, nets: seq<nat>) returns (path: seq<Pc>)
    requires u != v
    ensures IsWay(path, ContractionLocks(u, v, looks, accepted, nets), Idle)
  {
    hide IsWay, DecisionLocks, NetLocks;
    if accepted {
      path := Acceptance(u, v, looks);
      path := Merge(path, DecisionLocks(u, v, looks), u, v, nets);
    } else {
      path := Rejection(u, v, looks);
      assert DecisionLocks(u, v, looks) + [] == DecisionLocks(u, v, looks);
    }
  }

  /** A registration of v with representative w locks v and w; if w is smaller, it gives up v first and takes it
      again. If v has a parent already, only v is locked. */
  ghost function RegistrationLocks(v: nat, w: nat): seq<Lock> {
    if v == w then [Node(v)] else if v < w then [Node(v), Node(w)] else [Node(v), Node(w), Node(v)]
  }

  lemma RegistrationPath(u: nat, v: nat, w: nat) returns (path: seq<Pc>)
    requires u != v
    ensures IsWay(path, RegistrationLocks(v, w), Idle)
  {
    hide IsWay;
    var locks := [Node(v)];
    path := Begin(WaitForV(u, v));
    path := Take(path, [], WaitForV(u, v));
    assert [] + [Node(v)] == locks;
    if v < w {
      path := Pass(path, locks, Searching(u, v), WaitForWAboveV(v, w));
      path := Take(path, locks, WaitForWAboveV(v, w));
      locks := locks + [Node(w)];
    } else if w < v {
      path := Pass(path, locks, Searching(u, v), WaitForWBelowV(v, w));
      path := Take(path, locks, WaitForWBelowV(v, w));
      path := Take(path, locks + [Node(w)], WaitForVAgain(v, w));
      locks := locks + [Node(w)] + [Node(v)];
    }
    assert locks == RegistrationLocks(v, w);
    if v == w {
      path := Pass(path, locks, Searching(u, v), Leaving(v));
    } else {
      path := Pass(path, locks, Checking(v, w), DropWThenV(v, w));
      path := Pass(path, locks, DropWThenV(v, w), Leaving(v));
    }
    path := Pass(path, locks, Leaving(v), Idle);
  }

  lemma BackAgain(s: State, s': State, t: nat)
    requires t < |s.threads| && s.threads[t].Idle? && MovedTo(s, s', t, Idle)
    ensures s' == s
  {
    hide Inv;
    assert s'.threads == s.threads && s'.owner == s.owner;
  }

  /** Whatever the other threads hold: every contraction of two nodes and every registration can be made to its
      end, with these locks in this order, if these are free; afterwards the same locks are taken as before. */
  lemma CallsCanBeMade(s: State, t: nat, locks: seq<Lock>, u: nat, v: nat, w: nat, looks: bool, accepted: bool, nets: seq<nat>) returns (run: seq<Action>)
    requires Inv(s) && t < |s.threads| && s.threads[t].Idle? && u != v
    requires locks == ContractionLocks(u, v, looks, accepted, nets) || locks == RegistrationLocks(v, w)
    requires forall l :: l in locks ==> l !in s.owner
    ensures CanRun(s, run) && Run(s, run) == s && LocksTaken(s, run) == locks
  {
    var path: seq<Pc>;
    hide CanRun, Run, LocksTaken;
    if locks == RegistrationLocks(v, w) {
      path := RegistrationPath(u, v, w);
    } else {
      path := ContractionPath(u, v, looks, accepted, nets);
    }
    hide IsPath, LocksOn, ContractionLocks, RegistrationLocks;
    run := WayIsOpen(s, t, path);
    BackAgain(s, Run(s, run), t);
  }
}
