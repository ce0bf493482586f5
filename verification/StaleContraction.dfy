/** Two threads suffice to contract a pair that is no longer registered. */
module StaleContraction {
  import opened Sums
  import opened ContractionForest
  import opened ContractionRuns

  // A thread that adds a large weight to a block and takes it back again makes another thread give up a
  // contraction, which a third request then carries out all the same, because it had read the parent before.

  /** Two threads in the given states, all others idle. */
  function Two(a: Thread, b: Thread, n: nat): (threads: seq<Thread>)
    requires n >= 2
    ensures |threads| == n && threads[0] == a && threads[1] == b
    ensures forall t :: 2 <= t < n ==> threads[t] == Idle
  {
    [a, b] + seq(n - 2, t => Idle)
  }

  lemma TwoStep(a: Thread, b: Thread, n: nat, th: Thread)
    requires n >= 2
    ensures Two(a, b, n)[0 := th] == Two(th, b, n) && Two(a, b, n)[1 := th] == Two(a, th, n)
  {
  }

  lemma TwoIdle(n: nat)
    requires n >= 2
    ensures seq(n, t => Idle) == Two(Idle, Idle, n)
  {
  }

  ghost function Limits(): Config {
    Config(10, [5])
  }

  ghost function Weights(): seq<nat> {
    [1, 1, 1, 5, 1]
  }

  /** Nodes 1 and 4 are fixed to block 0. */
  ghost function FixedAtStart(): F.Fixed {
    F.Fixed([-1, 0, -1, -1, 0], [0, 1, 0, 0, 1], [0, 1, 0, 0, 1], [2], 2)
  }

  /** Node 2 joined them; `weight` is what the block counter shows. */
  ghost function FixedLater(weight: int): F.Fixed {
    F.Fixed([-1, 0, 0, -1, 0], [0, 1, 0, 0, 1], [0, 1, 1, 0, 1], [weight], 3)
  }

  ghost function FixedAtEnd(): F.Fixed {
    F.Fixed([0, 0, 0, -1, 0], [1, 1, 0, 0, 1], [1, 1, 1, 0, 1], [4], 4)
  }

  /** Registered are 2 onto 1, 1 onto 0 and 4 onto 3. */
  ghost function AllRegistered(pending: seq<int>, enabled: seq<bool>, weight: seq<nat>): Tree {
    Tree([0, 0, 1, 3, 3], pending, [INVALID_VERSION, 0, 0, INVALID_VERSION, 0], enabled, weight, 0,
         [{0}, {1, 0}, {2, 1, 0}, {3}, {4, 3}])
  }

  ghost function FourFree(pending: seq<int>, enabled: seq<bool>, weight: seq<nat>): Tree {
    Tree([0, 0, 1, 3, 4], pending, [INVALID_VERSION, 0, 0, INVALID_VERSION, INVALID_VERSION], enabled, weight, 0,
         [{0}, {1, 0}, {2, 1, 0}, {3}, {4}])
  }

  ghost function OneAndFourFree(pending: seq<int>, enabled: seq<bool>, weight: seq<nat>): Tree {
    Tree([0, 1, 1, 3, 4], pending, [INVALID_VERSION, INVALID_VERSION, 0, INVALID_VERSION, INVALID_VERSION], enabled, weight, 0,
         [{0}, {1}, {2, 1}, {3}, {4}])
  }

  lemma Forests(pending: seq<int>, enabled: seq<bool>, weight: seq<nat>)
    requires |pending| == |enabled| == |weight| == 5
    ensures AllRegistered(pending, enabled, weight).Forest() && FourFree(pending, enabled, weight).Forest()
    ensures OneAndFourFree(pending, enabled, weight).Forest()
  {
    forall v: nat | v < 5 ensures AllRegistered(pending, enabled, weight).ForestAt(v) {}
    forall v: nat | v < 5 ensures FourFree(pending, enabled, weight).ForestAt(v) {}
    forall v: nat | v < 5 ensures OneAndFourFree(pending, enabled, weight).ForestAt(v) {}
  }

  // ---------- Runs, step by step ----------

  lemma RunCons(c: Config, s: State, a: Action, rest: seq<Action>)
    requires Enabled(c, s, a) && CanRun(c, Apply(c, s, a), rest)
    ensures CanRun(c, s, [a] + rest) && Run(c, s, [a] + rest) == Run(c, Apply(c, s, a), rest)
  {
    assert ([a] + rest)[1..] == rest;
  }

  lemma {:induction false} RunAppend(c: Config, s: State, first: seq<Action>, second: seq<Action>)
    requires CanRun(c, s, first) && CanRun(c, Run(c, s, first), second)
    ensures CanRun(c, s, first + second) && Run(c, s, first + second) == Run(c, Run(c, s, first), second)
    decreases |first|
  {
    if first == [] {
      assert first + second == second;
    } else {
      assert (first + second)[0] == first[0] && (first + second)[1..] == first[1..] + second;
      hide Enabled, Apply;
      RunAppend(c, Apply(c, s, first[0]), first[1..], second);
    }
  }

  ghost predicate Steps(s: State, a: Action, s': State) {
    Enabled(Limits(), s, a) && Apply(Limits(), s, a) == s'
  }

  ghost predicate Leads(s: State, run: seq<Action>, s': State) {
    CanRun(Limits(), s, run) && Run(Limits(), s, run) == s'
  }

  lemma Extend(s: State, run: seq<Action>, s1: State, a: Action, s2: State) returns (longer: seq<Action>)
    requires Leads(s, run, s1) && Steps(s1, a, s2)
    ensures Leads(s, longer, s2)
  {
    RunCons(Limits(), s1, a, []);
    RunAppend(Limits(), s, run, [a] + []);
    longer := run + ([a] + []);
  }

  // ---------- The registrations ----------

  ghost function Started(n: nat): State
    requires n >= 2
  {
    Fresh(Weights(), FixedAtStart(), n)
  }

  lemma StartIsGood()
    ensures GoodStart(Limits(), Weights(), FixedAtStart())
  {
    var column := F.BlockColumn(FixedAtStart().block, Weights(), seq(5, v => true), 0);
    assert column == [0, 1, 0, 0, 1];
    assert Sum([0, 1, 0, 0, 1]) == 2;
  }

  lemma StartTree()
    ensures FreshTree(Weights()) == Tree([0, 1, 2, 3, 4], [0, 0, 0, 0, 0],
                                         [INVALID_VERSION, INVALID_VERSION, INVALID_VERSION, INVALID_VERSION, INVALID_VERSION],
                                         [true, true, true, true, true], [1, 1, 1, 5, 1], 0, [{0}, {1}, {2}, {3}, {4}])
    ensures FreshTree(Weights()).Forest()
  {
    var tr := FreshTree(Weights());
    forall v: nat | v < 5 ensures tr.ForestAt(v) {}
  }

  ghost function On(): seq<bool> {
    [true, true, true, true, true]
  }

  lemma RegisterTwo(n: nat)
    requires n >= 2
    ensures Steps(Started(n), Register(1, 2), State(OneAndFourFree([0, 1, 0, 0, 0], On(), Weights()), FixedAtStart(), Two(Idle, Idle, n), {2}))
  {
    StartTree();
    TwoIdle(n);
    var s := Started(n);
    assert Registrable(s.tree, 1, 2) && Representative(s.tree, 1) == 1;
    assert {2} + {1} == {2, 1};
    assert Registered(s.tree, 1, 2).up == [{0}, {1}, {2, 1}, {3}, {4}];
  }

  lemma RegisterOne(n: nat)
    requires n >= 2
    ensures var s := State(OneAndFourFree([0, 1, 0, 0, 0], On(), Weights()), FixedAtStart(), Two(Idle, Idle, n), {2});
            Steps(s, Register(0, 1), State(FourFree([1, 1, 0, 0, 0], On(), Weights()), FixedAtStart(), Two(Idle, Idle, n), {1, 2}))
  {
    Forests([0, 1, 0, 0, 0], On(), Weights());
    var s := State(OneAndFourFree([0, 1, 0, 0, 0], On(), Weights()), FixedAtStart(), Two(Idle, Idle, n), {2});
    assert Registrable(s.tree, 0, 1) && Representative(s.tree, 0) == 0;
    assert {1} + {0} == {1, 0} && {2, 1} + {0} == {2, 1, 0};
    assert Registered(s.tree, 0, 1).up == [{0}, {1, 0}, {2, 1, 0}, {3}, {4}];
  }

  lemma RegisterFour(n: nat)
    requires n >= 2
    ensures var s := State(FourFree([1, 1, 0, 0, 0], On(), Weights()), FixedAtStart(), Two(Idle, Idle, n), {1, 2});
            Steps(s, Register(3, 4), State(AllRegistered([1, 1, 0, 1, 0], On(), Weights()), FixedAtStart(), Two(Idle, Idle, n), {1, 2, 4}))
  {
    Forests([1, 1, 0, 0, 0], On(), Weights());
    var s := State(FourFree([1, 1, 0, 0, 0], On(), Weights()), FixedAtStart(), Two(Idle, Idle, n), {1, 2});
    assert Registrable(s.tree, 3, 4) && Representative(s.tree, 3) == 3;
    assert {4} + {3} == {4, 3};
    assert Registered(s.tree, 3, 4).up == [{0}, {1, 0}, {2, 1, 0}, {3}, {4, 3}];
  }

  // ---------- The first thread contracts 2 onto 1 and climbs ----------

  ghost function Climb(n: nat, a: Thread, todo: set<nat>): State
    requires n >= 2
  {
    State(AllRegistered([1, 1, 0, 1, 0], On(), Weights()), FixedAtStart(), Two(a, Idle, n), todo)
  }

  ghost function Off(): seq<bool> {
    [true, true, false, true, true]
  }

  ghost function Merged2(): seq<nat> {
    [1, 2, 1, 5, 1]
  }

  ghost function Later(n: nat, pending: seq<int>, weight: int, a: Thread, b: Thread, todo: set<nat>): State
    requires n >= 2
  {
    State(AllRegistered(pending, Off(), Merged2()), FixedLater(weight), Two(a, b, n), todo)
  }

  lemma FirstClimb(n: nat)
    requires n >= 2
    ensures Steps(Climb(n, Idle, {1, 2, 4}), Begin(0, 2), Climb(n, Reading(2), {1, 4}))
    ensures Steps(Climb(n, Reading(2), {1, 4}), Read(0), Climb(n, Climbing(1, 2), {1, 4}))
  {
    Forests([1, 1, 0, 1, 0], On(), Weights());
    TwoStep(Idle, Idle, n, Reading(2));
    TwoStep(Reading(2), Idle, n, Climbing(1, 2));
    assert {1, 2, 4} - {2} == {1, 4};
  }

  lemma FirstMerge(n: nat)
    requires n >= 2
    ensures Steps(Climb(n, Climbing(1, 2), {1, 4}), Decide(0), Later(n, [1, 1, 0, 1, 0], 3, Merging(1, 2), Idle, {1, 4}))
  {
    Forests([1, 1, 0, 1, 0], On(), Weights());
    TwoStep(Climbing(1, 2), Idle, n, Merging(1, 2));
    var s := Climb(n, Climbing(1, 2), {1, 4});
    assert F.Joined(s.fixed, s.tree.weight, 1, 2, true) == FixedLater(3);
    assert Judge(Limits(), s, 1, 2) == Contract(FixedLater(3));
  }

  lemma FirstClimbsOn(n: nat)
    requires n >= 2
    ensures Steps(Later(n, [1, 1, 0, 1, 0], 3, Merging(1, 2), Idle, {1, 4}), Unregister(0), Later(n, [1, 0, 0, 1, 0], 3, Reading(1), Idle, {1, 4}))
    ensures Steps(Later(n, [1, 0, 0, 1, 0], 3, Reading(1), Idle, {1, 4}), Read(0), Later(n, [1, 0, 0, 1, 0], 3, Climbing(0, 1), Idle, {1, 4}))
  {
    Forests([1, 1, 0, 1, 0], Off(), Merged2());
    Forests([1, 0, 0, 1, 0], Off(), Merged2());
    TwoStep(Merging(1, 2), Idle, n, Reading(1));
    TwoStep(Reading(1), Idle, n, Climbing(0, 1));
  }

  // ---------- Both threads overflow block 0 ----------

  lemma SecondClimb(n: nat)
    requires n >= 2
    ensures Steps(Later(n, [1, 0, 0, 1, 0], 3, Climbing(0, 1), Idle, {1, 4}), Begin(1, 4), Later(n, [1, 0, 0, 1, 0], 3, Climbing(0, 1), Reading(4), {1}))
    ensures Steps(Later(n, [1, 0, 0, 1, 0], 3, Climbing(0, 1), Reading(4), {1}), Read(1),
                  Later(n, [1, 0, 0, 1, 0], 3, Climbing(0, 1), Climbing(3, 4), {1}))
  {
    Forests([1, 0, 0, 1, 0], Off(), Merged2());
    TwoStep(Climbing(0, 1), Idle, n, Reading(4));
    TwoStep(Climbing(0, 1), Reading(4), n, Climbing(3, 4));
    assert {1, 4} - {4} == {1};
  }

  lemma Overflows(n: nat)
    requires n >= 2
    ensures Steps(Later(n, [1, 0, 0, 1, 0], 3, Climbing(0, 1), Climbing(3, 4), {1}), Decide(1),
                  Later(n, [1, 0, 0, 1, 0], 8, Climbing(0, 1), Rejecting(3, 4, 0, 5), {1}))
    ensures Steps(Later(n, [1, 0, 0, 1, 0], 8, Climbing(0, 1), Rejecting(3, 4, 0, 5), {1}), Decide(0),
                  Later(n, [1, 0, 0, 1, 0], 9, Rejecting(0, 1, 0, 1), Rejecting(3, 4, 0, 5), {1}))
  {
    Forests([1, 0, 0, 1, 0], Off(), Merged2());
    TwoStep(Climbing(0, 1), Climbing(3, 4), n, Rejecting(3, 4, 0, 5));
    TwoStep(Climbing(0, 1), Rejecting(3, 4, 0, 5), n, Rejecting(0, 1, 0, 1));
    var s := Later(n, [1, 0, 0, 1, 0], 3, Climbing(0, 1), Climbing(3, 4), {1});
    assert Judge(Limits(), s, 3, 4) == Overflow(0, 5);
    var s' := Later(n, [1, 0, 0, 1, 0], 8, Climbing(0, 1), Rejecting(3, 4, 0, 5), {1});
    assert Judge(Limits(), s', 0, 1) == Overflow(0, 1);
  }

  // ---------- The second thread returns, and asks for node 1 ----------

  ghost function Back(n: nat, a: Thread, b: Thread, todo: set<nat>): State
    requires n >= 2
  {
    State(FourFree([1, 0, 0, 0, 0], Off(), Merged2()), FixedLater(4), Two(a, b, n), todo)
  }

  lemma SecondReturns(n: nat)
    requires n >= 2
    ensures Steps(Later(n, [1, 0, 0, 1, 0], 9, Rejecting(0, 1, 0, 1), Rejecting(3, 4, 0, 5), {1}), TakeBack(1),
                  Back(n, Rejecting(0, 1, 0, 1), Reading(3), {1}))
  {
    Forests([1, 0, 0, 1, 0], Off(), Merged2());
    TwoStep(Rejecting(0, 1, 0, 1), Rejecting(3, 4, 0, 5), n, Reading(3));
    var s := Later(n, [1, 0, 0, 1, 0], 9, Rejecting(0, 1, 0, 1), Rejecting(3, 4, 0, 5), {1});
    var tr := Unregistered(s.tree, 4);
    assert {4, 3} - {3} == {4};
    assert tr.up == [{0}, {1, 0}, {2, 1, 0}, {3}, {4}];
    assert tr == FourFree([1, 0, 0, 0, 0], Off(), Merged2());
  }

  lemma SecondAsks(n: nat)
    requires n >= 2
    ensures Steps(Back(n, Rejecting(0, 1, 0, 1), Reading(3), {1}), Read(1), Back(n, Rejecting(0, 1, 0, 1), Idle, {1}))
    ensures Steps(Back(n, Rejecting(0, 1, 0, 1), Idle, {1}), Begin(1, 1), Back(n, Rejecting(0, 1, 0, 1), Reading(1), {}))
    ensures Steps(Back(n, Rejecting(0, 1, 0, 1), Reading(1), {}), Read(1), Back(n, Rejecting(0, 1, 0, 1), Climbing(0, 1), {}))
  {
    Forests([1, 0, 0, 0, 0], Off(), Merged2());
    TwoStep(Rejecting(0, 1, 0, 1), Reading(3), n, Idle);
    TwoStep(Rejecting(0, 1, 0, 1), Idle, n, Reading(1));
    TwoStep(Rejecting(0, 1, 0, 1), Reading(1), n, Climbing(0, 1));
    assert {1} - {1} == {};
  }

  // ---------- The first gives up, and the second contracts all the same ----------

  ghost function Given(n: nat, b: Thread): State
    requires n >= 2
  {
    State(OneAndFourFree([0, 0, 0, 0, 0], Off(), Merged2()), FixedLater(3), Two(Reading(0), b, n), {})
  }

  ghost function Broken(n: nat, pending: seq<int>, b: Thread): State
    requires n >= 2
  {
    State(OneAndFourFree(pending, [true, false, false, true, true], [3, 2, 1, 5, 1]), FixedAtEnd(), Two(Reading(0), b, n), {})
  }

  lemma FirstGivesUp(n: nat)
    requires n >= 2
    ensures Steps(Back(n, Rejecting(0, 1, 0, 1), Climbing(0, 1), {}), TakeBack(0), Given(n, Climbing(0, 1)))
  {
    Forests([1, 0, 0, 0, 0], Off(), Merged2());
    TwoStep(Rejecting(0, 1, 0, 1), Climbing(0, 1), n, Reading(0));
    var s := Back(n, Rejecting(0, 1, 0, 1), Climbing(0, 1), {});
    var tr := Unregistered(s.tree, 1);
    assert {1, 0} - {0} == {1} && {2, 1, 0} - {0} == {2, 1};
    assert tr.up == [{0}, {1}, {2, 1}, {3}, {4}];
    assert tr == OneAndFourFree([0, 0, 0, 0, 0], Off(), Merged2());
  }

  lemma SecondContracts(n: nat)
    requires n >= 2
    ensures Steps(Given(n, Climbing(0, 1)), Decide(1), Broken(n, [0, 0, 0, 0, 0], Merging(0, 1)))
    ensures Steps(Broken(n, [0, 0, 0, 0, 0], Merging(0, 1)), Unregister(1), Broken(n, [-1, 0, 0, 0, 0], Reading(0)))
  {
    Forests([0, 0, 0, 0, 0], Off(), Merged2());
    Forests([0, 0, 0, 0, 0], [true, false, false, true, true], [3, 2, 1, 5, 1]);
    TwoStep(Reading(0), Climbing(0, 1), n, Merging(0, 1));
    TwoStep(Reading(0), Merging(0, 1), n, Reading(0));
    var s := Given(n, Climbing(0, 1));
    assert F.Joined(s.fixed, s.tree.weight, 0, 1, true) == FixedAtEnd();
    assert Judge(Limits(), s, 0, 1) == Contract(FixedAtEnd());
  }

  lemma Registering(n: nat) returns (run: seq<Action>)
    requires n >= 2
    ensures Leads(Started(n), run, Climb(n, Idle, {1, 2, 4}))
  {
    RegisterTwo(n);
    RegisterOne(n);
    RegisterFour(n);
    hide Steps, Leads;
    var s1 := State(OneAndFourFree([0, 1, 0, 0, 0], On(), Weights()), FixedAtStart(), Two(Idle, Idle, n), {2});
    var s2 := State(FourFree([1, 1, 0, 0, 0], On(), Weights()), FixedAtStart(), Two(Idle, Idle, n), {1, 2});
    run := NoStep(Started(n));
    run := Extend(Started(n), run, Started(n), Register(1, 2), s1);
    run := Extend(Started(n), run, s1, Register(0, 1), s2);
    run := Extend(Started(n), run, s2, Register(3, 4), Climb(n, Idle, {1, 2, 4}));
  }

  lemma NoStep(s: State) returns (run: seq<Action>)
    ensures Leads(s, run, s)
  {
    run := [];
  }

  lemma Climbs(n: nat, run0: seq<Action>) returns (run: seq<Action>)
    requires n >= 2 && Leads(Started(n), run0, Climb(n, Idle, {1, 2, 4}))
    ensures Leads(Started(n), run, Later(n, [1, 0, 0, 1, 0], 3, Climbing(0, 1), Climbing(3, 4), {1}))
  {
    FirstClimb(n);
    FirstMerge(n);
    FirstClimbsOn(n);
    SecondClimb(n);
    hide *;
    var s := Started(n);
    run := Extend(s, run0, Climb(n, Idle, {1, 2, 4}), Begin(0, 2), Climb(n, Reading(2), {1, 4}));
    run := Extend(s, run, Climb(n, Reading(2), {1, 4}), Read(0), Climb(n, Climbing(1, 2), {1, 4}));
    run := Extend(s, run, Climb(n, Climbing(1, 2), {1, 4}), Decide(0), Later(n, [1, 1, 0, 1, 0], 3, Merging(1, 2), Idle, {1, 4}));
    run := Extend(s, run, Later(n, [1, 1, 0, 1, 0], 3, Merging(1, 2), Idle, {1, 4}), Unregister(0), Later(n, [1, 0, 0, 1, 0], 3, Reading(1), Idle, {1, 4}));
    run := Extend(s, run, Later(n, [1, 0, 0, 1, 0], 3, Reading(1), Idle, {1, 4}), Read(0), Later(n, [1, 0, 0, 1, 0], 3, Climbing(0, 1), Idle, {1, 4}));
    run := Extend(s, run, Later(n, [1, 0, 0, 1, 0], 3, Climbing(0, 1), Idle, {1, 4}), Begin(1, 4),
                  Later(n, [1, 0, 0, 1, 0], 3, Climbing(0, 1), Reading(4), {1}));
    run := Extend(s, run, Later(n, [1, 0, 0, 1, 0], 3, Climbing(0, 1), Reading(4), {1}), Read(1),
                  Later(n, [1, 0, 0, 1, 0], 3, Climbing(0, 1), Climbing(3, 4), {1}));
  }

  lemma Collides(n: nat, run0: seq<Action>) returns (run: seq<Action>)
    requires n >= 2 && Leads(Started(n), run0, Later(n, [1, 0, 0, 1, 0], 3, Climbing(0, 1), Climbing(3, 4), {1}))
    ensures Leads(Started(n), run, Broken(n, [-1, 0, 0, 0, 0], Reading(0)))
  {
    Overflows(n);
    SecondReturns(n);
    SecondAsks(n);
    FirstGivesUp(n);
    SecondContracts(n);
    hide *;
    var s := Started(n);
    run := Extend(s, run0, Later(n, [1, 0, 0, 1, 0], 3, Climbing(0, 1), Climbing(3, 4), {1}), Decide(1),
                  Later(n, [1, 0, 0, 1, 0], 8, Climbing(0, 1), Rejecting(3, 4, 0, 5), {1}));
    run := Extend(s, run, Later(n, [1, 0, 0, 1, 0], 8, Climbing(0, 1), Rejecting(3, 4, 0, 5), {1}), Decide(0),
                  Later(n, [1, 0, 0, 1, 0], 9, Rejecting(0, 1, 0, 1), Rejecting(3, 4, 0, 5), {1}));
    run := Extend(s, run, Later(n, [1, 0, 0, 1, 0], 9, Rejecting(0, 1, 0, 1), Rejecting(3, 4, 0, 5), {1}), TakeBack(1),
                  Back(n, Rejecting(0, 1, 0, 1), Reading(3), {1}));
    run := Extend(s, run, Back(n, Rejecting(0, 1, 0, 1), Reading(3), {1}), Read(1), Back(n, Rejecting(0, 1, 0, 1), Idle, {1}));
    run := Extend(s, run, Back(n, Rejecting(0, 1, 0, 1), Idle, {1}), Begin(1, 1), Back(n, Rejecting(0, 1, 0, 1), Reading(1), {}));
    run := Extend(s, run, Back(n, Rejecting(0, 1, 0, 1), Reading(1), {}), Read(1), Back(n, Rejecting(0, 1, 0, 1), Climbing(0, 1), {}));
    run := Extend(s, run, Back(n, Rejecting(0, 1, 0, 1), Climbing(0, 1), {}), TakeBack(0), Given(n, Climbing(0, 1)));
    run := Extend(s, run, Given(n, Climbing(0, 1)), Decide(1), Broken(n, [0, 0, 0, 0, 0], Merging(0, 1)));
    run := Extend(s, run, Broken(n, [0, 0, 0, 0, 0], Merging(0, 1)), Unregister(1), Broken(n, [-1, 0, 0, 0, 0], Reading(0)));
  }

  /** Node 1 ends up disabled without a parent, and the pending count of node 0 is negative. */
  lemma UnregisteredPairContracted(n: nat) returns (run: seq<Action>)
    requires n >= 2
    ensures GoodStart(Limits(), Weights(), FixedAtStart()) && CanRun(Limits(), Fresh(Weights(), FixedAtStart(), n), run)
    ensures var tr := Run(Limits(), Fresh(Weights(), FixedAtStart(), n), run).tree;
            tr.parent == [0, 1, 1, 3, 4] && tr.enabled == [true, false, false, true, true] && tr.pending == [-1, 0, 0, 0, 0]
  {
    StartIsGood();
    run := Registering(n);
    run := Climbs(n, run);
    run := Collides(n, run);
  }

  // ---------- How many threads are safe ----------

  ghost predicate EndsInOrder(c: Config, weights: seq<nat>, fixed: F.Fixed, n: nat, run: seq<Action>) {
    GoodStart(c, weights, fixed) && CanRun(c, Fresh(weights, fixed, n), run) ==> TreeOk(Run(c, Fresh(weights, fixed, n), run))
  }

  /** Every run of n threads, from any start and with any limits, leaves the contraction tree in order. */
  ghost predicate AlwaysInOrder(n: nat) {
    forall c: Config, weights: seq<nat>, fixed: F.Fixed, run: seq<Action> {:trigger EndsInOrder(c, weights, fixed, n, run)} ::
      EndsInOrder(c, weights, fixed, n, run)
  }

  /** With fixed vertices the contraction phase can be relied on exactly if only one thread runs it. */
  lemma InOrderExactlyForOneThread(n: nat)
    ensures AlwaysInOrder(n) <==> n <= 1
  {
    if n <= 1 {
      forall c: Config, weights: seq<nat>, fixed: F.Fixed, run: seq<Action> ensures EndsInOrder(c, weights, fixed, n, run) {
        if GoodStart(c, weights, fixed) && CanRun(c, Fresh(weights, fixed, n), run) {
          TreeAlwaysConsistent(c, weights, fixed, n, run);
        }
      }
    } else {
      var run := UnregisteredPairContracted(n);
      NotInOrder(n, run);
    }
  }

  lemma NotInOrder(n: nat, run: seq<Action>)
    requires GoodStart(Limits(), Weights(), FixedAtStart()) && CanRun(Limits(), Fresh(Weights(), FixedAtStart(), n), run)
    requires var tr := Run(Limits(), Fresh(Weights(), FixedAtStart(), n), run).tree; |tr.parent| == 5 && |tr.pending| == 5 && tr.pending[0] == -1
    ensures !AlwaysInOrder(n)
  {
    var s := Run(Limits(), Fresh(Weights(), FixedAtStart(), n), run);
    if TreeOk(s) {
      assert PendingExact(s, 0);
      PendingNonNegative(s, 0);
    }
    assert !EndsInOrder(Limits(), Weights(), FixedAtStart(), n, run);
  }
}
