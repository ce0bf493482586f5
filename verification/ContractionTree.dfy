/** The contraction tree as an object. */
module ContractionTreeObject {
  import opened Sums
  import opened ContractionForest
  import opened ContractionRuns

  // Registering a contraction, and contracting a node together with everything above it that becomes ready.
  // Locks are the subject of module LockOrder.

  datatype ContractionResult = Contracted | PendingContractions | WeightLimitReached | InvalidFixedVertexContraction

  /** The state in which one thread is about to contract v onto u, and no other is at work. */
  ghost function Alone(tr: Tree, fixed: F.Fixed, u: nat, v: nat): State {
    State(tr, fixed, [Climbing(u, v)], {})
  }

  ghost predicate CanAttempt(c: Config, tr: Tree, fixed: F.Fixed, u: nat, v: nat) {
    tr.Forest() && fixed.Shape(tr.weight, c.limit) && tr.IsNode(u) && tr.IsNode(v) && tr.parent[v] == u != v
  }

  /** All critical sections of one contraction attempt in a row. */
  ghost function Attempted(c: Config, tr: Tree, fixed: F.Fixed, u: nat, v: nat): (Tree, F.Fixed)
    requires CanAttempt(c, tr, fixed, u, v)
  {
    match Judge(c, Alone(tr, fixed, u, v), u, v)
    case Contract(f) =>
      var merged := Merged(tr, u, v);
      (merged.(pending := merged.pending[u := merged.pending[u] - 1]), f)
    case GiveUp => (Unregistered(tr, v), fixed)
    case Leave => (tr, fixed)
    case Overflow(_, _) => (Unregistered(tr, v), fixed)
  }

  function ResultOf(verdict: Verdict, weightFits: bool): ContractionResult {
    match verdict
    case Contract(_) => Contracted
    case GiveUp => if weightFits then InvalidFixedVertexContraction else WeightLimitReached
    case Leave => PendingContractions
    case Overflow(_, _) => InvalidFixedVertexContraction
  }

  /** The actions of one attempt, as the concurrent runs have them. */
  ghost function AttemptRun(c: Config, tr: Tree, fixed: F.Fixed, u: nat, v: nat): seq<Action>
    requires CanAttempt(c, tr, fixed, u, v)
  {
    match Judge(c, Alone(tr, fixed, u, v), u, v)
    case Contract(_) => [Decide(0), Unregister(0)]
    case GiveUp => [Decide(0)]
    case Leave => [Decide(0)]
    case Overflow(_, _) => [Decide(0), TakeBack(0)]
  }

  /** An attempt of the object is a run of a thread that is alone. */
  lemma AttemptIsRun(c: Config, tr: Tree, fixed: F.Fixed, u: nat, v: nat)
    requires CanAttempt(c, tr, fixed, u, v)
    ensures var s, run := Alone(tr, fixed, u, v), AttemptRun(c, tr, fixed, u, v);
            CanRun(c, s, run) && (Run(c, s, run).tree, Run(c, s, run).fixed) == Attempted(c, tr, fixed, u, v)
  {
    var s := Alone(tr, fixed, u, v);
    assert Enabled(c, s, Decide(0));
    var s1 := Apply(c, s, Decide(0));
    match Judge(c, s, u, v)
    case Contract(f) =>
      if fixed.total > 0 { F.AcceptedShape(fixed, c.limit, tr.weight, s1.tree.weight, u, v); }
      forall x: nat | x < |tr.parent| ensures s1.tree.ForestAt(x) {
        assert tr.ForestAt(x);
      }
      assert Enabled(c, s1, Unregister(0));
      RunOfTwo(c, s, Decide(0), Unregister(0));
    case GiveUp => RunOfOne(c, s, Decide(0));
    case Leave => RunOfOne(c, s, Decide(0));
    case Overflow(p, delta) =>
      assert Enabled(c, s1, TakeBack(0));
      RunOfTwo(c, s, Decide(0), TakeBack(0));
      var w := fixed.blockWeight;
      assert w[p := w[p] + delta][p := w[p]] == w;
  }

  lemma RunOfOne(c: Config, s: State, a: Action)
    requires Enabled(c, s, a)
    ensures CanRun(c, s, [a]) && Run(c, s, [a]) == Apply(c, s, a)
  {
    hide Enabled, Apply;
    assert [a][1..] == [];
    assert CanRun(c, Apply(c, s, a), []);
  }

  lemma RunOfTwo(c: Config, s: State, a: Action, b: Action)
    requires Enabled(c, s, a) && Enabled(c, Apply(c, s, a), b)
    ensures CanRun(c, s, [a, b]) && Run(c, s, [a, b]) == Apply(c, Apply(c, s, a), b)
  {
    RunOfOne(c, Apply(c, s, a), b);
    hide Enabled, Apply;
    assert [a, b][1..] == [b];
  }

  /** Which attempt ends how, on weights, counts and blocks. */
  lemma ResultOnValues(c: Config, tr: Tree, fixed: F.Fixed, u: nat, v: nat)
    requires CanAttempt(c, tr, fixed, u, v)
    ensures var (p, q) := (fixed.block[u], fixed.block[v]);
            var permitted := fixed.total <= 0 || p == q
                             || (p != F.NO_BLOCK && q == F.NO_BLOCK && fixed.blockWeight[p] + tr.weight[v] <= c.limit[p])
                             || (p == F.NO_BLOCK && q != F.NO_BLOCK && fixed.blockWeight[q] + tr.weight[u] <= c.limit[q]);
            var (fits, ready) := (tr.weight[u] + tr.weight[v] <= c.maxNodeWeight, tr.pending[v] == 0);
            var res := ResultOf(Judge(c, Alone(tr, fixed, u, v), u, v), fits);
            && (res == Contracted <==> tr.enabled[v] && ready && fits && permitted)
            && (res == WeightLimitReached <==> tr.enabled[v] && !fits)
            && (res == InvalidFixedVertexContraction <==> tr.enabled[v] && ready && fits && !permitted)
            && (res == PendingContractions <==> !tr.enabled[v] || (fits && !ready))
  {
    F.AcceptedExactly(fixed, c.limit, tr.weight, u, v, true);
  }

  /** What an attempt leaves behind, by its result. */
  lemma EffectOnValues(c: Config, tr: Tree, fixed: F.Fixed, u: nat, v: nat)
    requires CanAttempt(c, tr, fixed, u, v)
    ensures var res := ResultOf(Judge(c, Alone(tr, fixed, u, v), u, v), tr.weight[u] + tr.weight[v] <= c.maxNodeWeight);
            var (tr', fixed') := Attempted(c, tr, fixed, u, v);
            && (res == Contracted ==>
                  && tr'.parent == tr.parent && tr'.version == tr.version && tr'.pending == tr.pending[u := tr.pending[u] - 1]
                  && tr'.weight == tr.weight[u := tr.weight[u] + tr.weight[v]] && tr'.enabled == tr.enabled[v := false])
            && (res == WeightLimitReached || res == InvalidFixedVertexContraction ==>
                  && tr'.parent == tr.parent[v := v] && tr'.version == tr.version[v := INVALID_VERSION] && tr'.pending == tr.pending[u := tr.pending[u] - 1]
                  && tr'.weight == tr.weight && tr'.enabled == tr.enabled && fixed' == fixed)
            && (res == PendingContractions ==> tr' == tr && fixed' == fixed)
  {
  }

  lemma AttemptedForest(c: Config, tr: Tree, fixed: F.Fixed, u: nat, v: nat)
    requires CanAttempt(c, tr, fixed, u, v)
    ensures Attempted(c, tr, fixed, u, v).0.Forest() && Attempted(c, tr, fixed, u, v).0.up[u] == tr.up[u]
    ensures forall y: nat :: Ready(Attempted(c, tr, fixed, u, v).0, y) ==> y == u || (y != v && Ready(tr, y))
  {
    var tr' := Attempted(c, tr, fixed, u, v).0;
    assert tr.ForestAt(v);
    if tr'.up == tr.up {
      forall x: nat | tr.IsNode(x) ensures tr'.ForestAt(x) {
        assert tr.ForestAt(x);
      }
    } else {
      UnregisteredForest(tr, v);
    }
  }

  /** Registered, waiting for nothing, and not contracted. */
  ghost predicate Ready(tr: Tree, y: nat) {
    tr.Shape() && tr.IsNode(y) && tr.enabled[y] && !tr.IsRoot(y) && tr.pending[y] == 0
  }

  function EnabledColumn(tr: Tree): seq<int> {
    seq(|tr.enabled|, v requires 0 <= v < |tr.enabled| => if tr.enabled[v] then 1 else 0)
  }

  /** The number of enabled nodes drops by one per contraction. */
  lemma AttemptedCount(c: Config, tr: Tree, fixed: F.Fixed, u: nat, v: nat)
    requires CanAttempt(c, tr, fixed, u, v)
    ensures Sum(EnabledColumn(Attempted(c, tr, fixed, u, v).0))
              == Sum(EnabledColumn(tr)) - (if Judge(c, Alone(tr, fixed, u, v), u, v).Contract? then 1 else 0)
  {
    var tr' := Attempted(c, tr, fixed, u, v).0;
    if Judge(c, Alone(tr, fixed, u, v), u, v).Contract? {
      SumUpdate(EnabledColumn(tr), v, 0);
      assert EnabledColumn(tr') == EnabledColumn(tr)[v := 0];
    } else {
      assert EnabledColumn(tr') == EnabledColumn(tr);
    }
  }

  // ---------- Climbing ----------

  lemma AttemptedShape(c: Config, tr: Tree, fixed: F.Fixed, u: nat, v: nat)
    requires CanAttempt(c, tr, fixed, u, v)
    ensures Attempted(c, tr, fixed, u, v).1.Shape(Attempted(c, tr, fixed, u, v).0.weight, c.limit)
    ensures |Attempted(c, tr, fixed, u, v).0.parent| == |tr.parent|
  {
    if Judge(c, Alone(tr, fixed, u, v), u, v).Contract? && fixed.total > 0 {
      F.AcceptedShape(fixed, c.limit, tr.weight, Merged(tr, u, v).weight, u, v);
    }
  }

  ghost predicate CanClimb(c: Config, tr: Tree, fixed: F.Fixed, y: nat) {
    tr.Forest() && fixed.Shape(tr.weight, c.limit) && tr.IsNode(y)
  }

  /** Attempts to contract y, then its parent, and so on, up to a root or a node that has to wait. */
  ghost function Climbed(c: Config, tr: Tree, fixed: F.Fixed, y: nat): (Tree, F.Fixed, nat)
    requires CanClimb(c, tr, fixed, y)
    decreases |tr.up[y]|
  {
    var x := tr.parent[y];
    if x == y || Judge(c, Alone(tr, fixed, x, y), x, y).Leave? then (tr, fixed, 0)
    else
      var (tr', fixed') := Attempted(c, tr, fixed, x, y);
      AttemptedForest(c, tr, fixed, x, y);
      AttemptedShape(c, tr, fixed, x, y);
      HeightDecreases(tr, y);
      var (top, books, n) := Climbed(c, tr', fixed', x);
      (top, books, n + if Judge(c, Alone(tr, fixed, x, y), x, y).Contract? then 1 else 0)
  }

  /** Climbing from y leaves every node alone that is not above y. */
  lemma {:induction false} ClimbStaysAbove(c: Config, tr: Tree, fixed: F.Fixed, y: nat, v: nat)
    requires CanClimb(c, tr, fixed, y) && tr.IsNode(v) && v !in tr.up[y]
    ensures var tr' := Climbed(c, tr, fixed, y).0;
            tr'.Shape() && |tr'.parent| == |tr.parent| && tr'.parent[v] == tr.parent[v] && tr'.enabled[v] == tr.enabled[v]
            && tr'.version[v] == tr.version[v] && tr'.pending[v] == tr.pending[v] && tr'.weight[v] == tr.weight[v]
    decreases |tr.up[y]|
  {
    var x := tr.parent[y];
    assert tr.ForestAt(y);
    if x != y && !Judge(c, Alone(tr, fixed, x, y), x, y).Leave? {
      AttemptedForest(c, tr, fixed, x, y);
      AttemptedShape(c, tr, fixed, x, y);
      HeightDecreases(tr, y);
      assert tr.ForestAt(x) && v != x && v != y;
      var (tr', fixed') := Attempted(c, tr, fixed, x, y);
      ClimbStaysAbove(c, tr', fixed', x, v);
    }
  }

  /** What a request does to the requested node v itself, with u its parent. */
  lemma RequestOnValues(c: Config, tr: Tree, fixed: F.Fixed, v: nat)
    requires CanClimb(c, tr, fixed, v)
    ensures var (u, tr') := (tr.parent[v], Climbed(c, tr, fixed, v).0);
            var (p, q) := (fixed.block[u], fixed.block[v]);
            var permitted := fixed.total <= 0 || p == q
                             || (p != F.NO_BLOCK && q == F.NO_BLOCK && fixed.blockWeight[p] + tr.weight[v] <= c.limit[p])
                             || (p == F.NO_BLOCK && q != F.NO_BLOCK && fixed.blockWeight[q] + tr.weight[u] <= c.limit[q]);
            var (fits, ready) := (tr.weight[u] + tr.weight[v] <= c.maxNodeWeight, tr.pending[v] == 0);
            && |tr'.enabled| == |tr'.parent| == |tr.parent|
            && (tr'.enabled[v] <==> tr.enabled[v] && (u == v || !ready || !fits || !permitted))
            && tr'.parent[v] == (if tr.enabled[v] && (!fits || (ready && !permitted)) then v else u)
  {
    var u := tr.parent[v];
    assert tr.ForestAt(v);
    if u != v {
      ResultOnValues(c, tr, fixed, u, v);
      EffectOnValues(c, tr, fixed, u, v);
      AttemptedForest(c, tr, fixed, u, v);
      AttemptedShape(c, tr, fixed, u, v);
      if !Judge(c, Alone(tr, fixed, u, v), u, v).Leave? {
        var (tr', fixed') := Attempted(c, tr, fixed, u, v);
        ClimbStaysAbove(c, tr', fixed', u, v);
      }
    }
  }

  /** The climb from y changes weights above y only. */
  lemma OwnWeightStays(c: Config, tr: Tree, fixed: F.Fixed, y: nat)
    requires CanClimb(c, tr, fixed, y)
    ensures var tr' := Climbed(c, tr, fixed, y).0; |tr'.weight| == |tr'.parent| == |tr'.enabled| == |tr.parent| && tr'.weight[y] == tr.weight[y]
  {
    var x := tr.parent[y];
    assert tr.ForestAt(y);
    if x != y && !Judge(c, Alone(tr, fixed, x, y), x, y).Leave? {
      AttemptedForest(c, tr, fixed, x, y);
      AttemptedShape(c, tr, fixed, x, y);
      EffectOnValues(c, tr, fixed, x, y);
      var (tr', fixed') := Attempted(c, tr, fixed, x, y);
      ClimbStaysAbove(c, tr', fixed', x, y);
    }
  }

  /** With nothing fixed, every registration above v that the climb gives up was too heavy, and every contraction
      that it carries out respects the limit. */
  lemma {:induction false} ClimbOnWeights(c: Config, tr: Tree, fixed: F.Fixed, v: nat, y: nat)
    requires CanClimb(c, tr, fixed, v) && fixed.total <= 0 && y in tr.up[v] && tr.IsNode(y) && tr.parent[y] != y && tr.enabled[y]
    ensures var (x, tr') := (tr.parent[y], Climbed(c, tr, fixed, v).0);
            && |tr'.weight| == |tr'.parent| == |tr'.enabled| == |tr.parent|
            && (tr'.parent[y] != x ==> tr'.parent[y] == y && tr.weight[x] + tr'.weight[y] > c.maxNodeWeight)
            && (!tr'.enabled[y] ==> tr'.weight[x] == tr.weight[x] + tr'.weight[y] <= c.maxNodeWeight)
    decreases |tr.up[v]|
  {
    var u := tr.parent[v];
    assert tr.ForestAt(v) && tr.ForestAt(y);
    OwnWeightStays(c, tr, fixed, v);
    if u != v && !Judge(c, Alone(tr, fixed, u, v), u, v).Leave? {
      AttemptedForest(c, tr, fixed, u, v);
      AttemptedShape(c, tr, fixed, u, v);
      EffectOnValues(c, tr, fixed, u, v);
      ResultOnValues(c, tr, fixed, u, v);
      var (tr', fixed') := Attempted(c, tr, fixed, u, v);
      if y == v {
        ClimbStaysAbove(c, tr', fixed', u, v);
        OwnWeightStays(c, tr', fixed', u);
      } else {
        HeightDecreases(tr, v);
        UpClosed(tr, u, y);
        assert tr.parent[y] != u;
        ClimbOnWeights(c, tr', fixed', u, y);
      }
    }
  }

  /** The rest of the climb from y leads to `end`. */
  ghost predicate EndsAt(c: Config, tr: Tree, fixed: F.Fixed, y: nat, n: nat, stopped: bool, end: (Tree, F.Fixed, nat)) {
    CanClimb(c, tr, fixed, y)
    && if stopped then end == (tr, fixed, n)
       else var rest := Climbed(c, tr, fixed, y); end == (rest.0, rest.1, rest.2 + n)
  }

  lemma OneAttemptFurther(c: Config, tr: Tree, fixed: F.Fixed, x: nat, y: nat, n: nat, end: (Tree, F.Fixed, nat), tr': Tree, fixed': F.Fixed, res: ContractionResult)
    requires EndsAt(c, tr, fixed, y, n, false, end) && x == tr.parent[y] != y
    requires (tr', fixed') == Attempted(c, tr, fixed, x, y)
    requires res == ResultOf(Judge(c, Alone(tr, fixed, x, y), x, y), tr.weight[x] + tr.weight[y] <= c.maxNodeWeight)
    ensures EndsAt(c, tr', fixed', x, if res == Contracted then n + 1 else n, res == PendingContractions, end)
  {
    AttemptedForest(c, tr, fixed, x, y);
    AttemptedShape(c, tr, fixed, x, y);
  }

  class ContractionTree {
    const parent: array<nat>
    const pending: array<int>
    const version: array<nat>
    const enabled: array<bool>
    const weight: array<nat>
    const limit: seq<int>
    var fixed: F.Fixed
    var current: nat
    ghost var up: seq<set<nat>>

    ghost function View(): Tree
      reads this, parent, pending, version, enabled, weight
    {
      Tree(parent[..], pending[..], version[..], enabled[..], weight[..], current, up)
    }

    ghost predicate Valid()
      reads this, parent, pending, version, enabled, weight
    {
      && parent != version && parent != weight && version != weight
      && View().Forest() && fixed.Shape(weight[..], limit)
    }

    constructor (n: nat, nodeWeight: seq<nat>, fixed: F.Fixed, limit: seq<int>)
      requires |nodeWeight| == n && fixed.Shape(nodeWeight, limit)
      ensures Valid() && View() == FreshTree(nodeWeight) && this.fixed == fixed && this.limit == limit
    {
      parent := new nat[n](v => v);
      pending := new int[n](v => 0);
      version := new nat[n](v => INVALID_VERSION);
      enabled := new bool[n](v => true);
      weight := new nat[n](v requires 0 <= v < n => nodeWeight[v]);
      current := 0;
      up := seq(n, v requires 0 <= v < n => {v});
      this.fixed, this.limit := fixed, limit;
      new;
      var tr := FreshTree(nodeWeight);
      assert parent[..] == tr.parent && pending[..] == tr.pending && version[..] == tr.version;
      assert enabled[..] == tr.enabled && weight[..] == nodeWeight;
      FreshTreeOk(nodeWeight, fixed, 0);
    }

    /** Walks up from u to the nearest ancestor that is a root or waits for contractions, unless it meets v. */
    method FindRepresentative(u: nat, v: nat) returns (w: nat, cycleDetected: bool)
      requires Valid() && u < parent.Length && v < parent.Length && u != v && parent[v] == v
      ensures w < parent.Length && w in up[u]
      ensures if cycleDetected then v in up[u] else w != v && w == Representative(View(), u)
    {
      ghost var tr := View();
      w, cycleDetected := u, false;
      assert tr.ForestAt(u);
      while parent[w] != w && pending[w] == 0
        invariant tr.IsNode(w) && w in tr.up[u] && w != v
        invariant Representative(tr, u) == Representative(tr, w)
        decreases |tr.up[w]|
      {
        HeightDecreases(tr, w);
        UpClosed(tr, u, w);
        assert tr.ForestAt(w) && tr.ForestAt(parent[w]);
        w := parent[w];
        if w == v {
          cycleDetected := true;
          return;
        }
      }
    }

    /** Walks up from w to the root and tells whether it meets v. */
    method IsBelow(w: nat, v: nat) returns (below: bool)
      requires Valid() && w < parent.Length && v < parent.Length && parent[v] == v != w
      ensures below <==> v in up[w]
    {
      ghost var tr := View();
      var x := w;
      var last := false;
      assert tr.ForestAt(w);
      while !last
        invariant tr.IsNode(x) && x in tr.up[w] && x != v
        invariant last ==> tr.IsRoot(x)
        decreases !last, |tr.up[x]|
      {
        UpClosed(tr, w, x);
        assert tr.ForestAt(x) && tr.ForestAt(parent[x]);
        if parent[x] != x { HeightDecreases(tr, x); }
        x := parent[x];
        if x == v {
          return true;
        }
        last := parent[x] == x;
      }
      OnlyRoot(tr, w, x, v);
      below := false;
    }

    /** Enters v below w. */
    method EnterContraction(w: nat, v: nat)
      requires Valid() && w < parent.Length && v < parent.Length && parent[v] == v && v !in up[w]
      modifies this`up, parent, pending, version
      ensures Valid() && View() == old(Registered(View(), w, v))
    {
      ghost var tr := View();
      RegisteredForest(tr, w, v);
      hide Tree.Forest;
      pending[w] := pending[w] + 1;
      parent[v] := w;
      version[v] := current;
      up := Registered(tr, w, v).up;
      assert parent[..] == Registered(tr, w, v).parent;
    }

    /** Registers the contraction of v onto the representative of u, unless v has a parent already
        or the registration would close a cycle. */
    method RegisterContraction(u: nat, v: nat) returns (ok: bool)
      requires Valid() && u < parent.Length && v < parent.Length && u != v
      modifies this`up, parent, pending, version
      ensures Valid()
      ensures ok <==> old(parent[v] == v && v !in up[u])
      ensures ok ==> var w := parent[v];
                     && w < parent.Length && w in old(up[u]) && (old(parent[w]) == w || old(pending[w]) != 0)
                     && (forall x: nat :: x in old(up[u]) && x !in old(up)[w] ==> x < parent.Length && old(parent[x]) != x && old(pending[x]) == 0)
      ensures ok && (old(parent[u]) == u || old(pending[u]) != 0) ==> parent[v] == u
      ensures ok ==> var w := parent[v];
                     && w < parent.Length && parent[..] == old(parent[..])[v := w] && version[..] == old(version[..])[v := current]
                     && pending[..] == old(pending[..])[w := old(pending[..])[w] + 1]
      ensures View() == if ok then old(Registered(View(), Representative(View(), u), v)) else old(View())
    {
      if parent[v] != v {
        return false;
      }
      var w, cycleDetected := FindRepresentative(u, v);
      if cycleDetected {
        return false;
      }
      OnlyAbove(View(), u, v, w);
      NothingWaitsBelow(View(), u);
      var below := IsBelow(w, v);
      if below {
        return false;
      }
      EnterContraction(w, v);
      ok := true;
    }

    /** Asks whether the fixed vertices permit to contract v onto u, and records the contraction if so. */
    method ContractFixed(u: nat, v: nat) returns (ok: bool)
      requires fixed.Shape(weight[..], limit) && u < weight.Length && v < weight.Length
      modifies `fixed
      ensures ok == old(F.Test(fixed, limit, weight[..], u, v, true).Accepted?)
      ensures fixed == if ok then old(F.Test(fixed, limit, weight[..], u, v, true).fixed) else old(fixed)
    {
      match F.Test(fixed, limit, weight[..], u, v, true)
      case Accepted(f) =>
        fixed := f;
        ok := true;
      case Refused =>
        ok := false;
      case Overflowed(p, delta) =>
        ghost var w := fixed.blockWeight;
        fixed := fixed.(blockWeight := fixed.blockWeight[p := fixed.blockWeight[p] + delta]);
        fixed := fixed.(blockWeight := fixed.blockWeight[p := fixed.blockWeight[p] - delta]);
        assert fixed.blockWeight == w;
        ok := false;
    }

    /** Joins v to u; what is pending on u becomes one less. */
    method Join(u: nat, v: nat)
      requires Valid() && u < parent.Length && v < parent.Length && u != v
      modifies this`up, parent, pending, version, enabled, weight
      ensures View() == old(var m := Merged(View(), u, v); m.(pending := m.pending[u := m.pending[u] - 1]))
    {
      weight[u] := weight[u] + weight[v];
      enabled[v] := false;
      pending[u] := pending[u] - 1;
    }

    /** Gives up the registration of v onto its parent u. */
    method GiveUpContraction(u: nat, v: nat)
      requires Valid() && u < parent.Length && v < parent.Length && parent[v] == u != v
      modifies this`up, parent, pending, version
      ensures View() == old(Unregistered(View(), v))
    {
      ghost var tr := View();
      pending[u] := pending[u] - 1;
      parent[v] := v;
      version[v] := INVALID_VERSION;
      up := Unregistered(tr, v).up;
    }

    /** One attempt to contract v onto its parent u. */
    method Attempt(u: nat, v: nat, maxNodeWeight: int) returns (res: ContractionResult)
      requires Valid() && u < parent.Length && v < parent.Length && parent[v] == u != v
      modifies this`up, this`fixed, parent, pending, version, enabled, weight
      ensures Valid() && CanAttempt(Config(maxNodeWeight, limit), old(View()), old(fixed), u, v)
      ensures (View(), fixed) == Attempted(Config(maxNodeWeight, limit), old(View()), old(fixed), u, v)
      ensures res == ResultOf(Judge(Config(maxNodeWeight, limit), Alone(old(View()), old(fixed), u, v), u, v),
                              old(weight[u] + weight[v]) <= maxNodeWeight)
      ensures var (p, q, blockWeight) := (old(fixed).block[u], old(fixed).block[v], old(fixed).blockWeight);
              var permitted := old(fixed).total <= 0 || p == q
                               || (p != F.NO_BLOCK && q == F.NO_BLOCK && blockWeight[p] + old(weight[v]) <= limit[p])
                               || (p == F.NO_BLOCK && q != F.NO_BLOCK && blockWeight[q] + old(weight[u]) <= limit[q]);
              var (fits, ready) := (old(weight[u] + weight[v]) <= maxNodeWeight, old(pending[v]) == 0);
              && (res == Contracted <==> old(enabled[v]) && ready && fits && permitted)
              && (res == WeightLimitReached <==> old(enabled[v]) && !fits)
              && (res == InvalidFixedVertexContraction <==> old(enabled[v]) && ready && fits && !permitted)
              && (res == PendingContractions <==> !old(enabled[v]) || (fits && !ready))
      ensures res == Contracted ==>
                && parent[..] == old(parent[..]) && version[..] == old(version[..]) && pending[..] == old(pending[..])[u := old(pending[u]) - 1]
                && weight[..] == old(weight[..])[u := old(weight[u] + weight[v])] && enabled[..] == old(enabled[..])[v := false]
      ensures res == WeightLimitReached || res == InvalidFixedVertexContraction ==>
                && parent[..] == old(parent[..])[v := v] && version[..] == old(version[..])[v := INVALID_VERSION]
                && pending[..] == old(pending[..])[u := old(pending[u]) - 1]
                && weight[..] == old(weight[..]) && enabled[..] == old(enabled[..]) && fixed == old(fixed)
      ensures res == PendingContractions ==> View() == old(View()) && fixed == old(fixed)
    {
      ghost var tr := View();
      ResultOnValues(Config(maxNodeWeight, limit), tr, fixed, u, v);
      EffectOnValues(Config(maxNodeWeight, limit), tr, fixed, u, v);
      AttemptedForest(Config(maxNodeWeight, limit), tr, fixed, u, v);
      var partnerValid := enabled[v] && pending[v] == 0;
      var weightFits := weight[u] + weight[v] <= maxNodeWeight;
      var valid := partnerValid && weightFits;
      if valid && fixed.total > 0 {
        valid := ContractFixed(u, v);
        if valid { F.AcceptedShape(old(fixed), limit, tr.weight, Merged(tr, u, v).weight, u, v); }
      }
      assert View() == tr;
      if valid {
        Join(u, v);
        res := Contracted;
      } else {
        res := PendingContractions;
        var fixedVertexFailed := partnerValid && weightFits;
        if (!weightFits || fixedVertexFailed) && enabled[v] && parent[v] == u {
          GiveUpContraction(u, v);
          res := if fixedVertexFailed then InvalidFixedVertexContraction else WeightLimitReached;
        }
      }
    }

    /** Contracts v and climbs as long as contractions become ready. The climb ends, and it leaves no
        node ready that was not ready before: v itself is contracted, given up, or still waiting. */
    method Contract(v: nat, maxNodeWeight: int) returns (numContractions: nat)
      requires Valid() && v < parent.Length
      modifies this`up, this`fixed, parent, pending, version, enabled, weight
      ensures Valid()
      ensures !Ready(View(), v)
      ensures numContractions == old(Sum(EnabledColumn(View()))) - Sum(EnabledColumn(View()))
      ensures CanClimb(Config(maxNodeWeight, limit), old(View()), old(fixed), v)
      ensures (View(), fixed, numContractions) == Climbed(Config(maxNodeWeight, limit), old(View()), old(fixed), v)
      ensures forall y: nat :: Ready(View(), y) ==> old(Ready(View(), y))
    {
      ghost var before, c := View(), Config(maxNodeWeight, limit);
      ghost var end := Climbed(c, before, fixed, v);
      var x, y := parent[v], v;
      var res := Contracted;
      numContractions := 0;
      while x != y && res != PendingContractions
        invariant Valid()
        invariant x < parent.Length && y < parent.Length && x == parent[y]
        invariant EndsAt(c, View(), fixed, y, numContractions, res == PendingContractions, end)
        invariant numContractions == Sum(EnabledColumn(before)) - Sum(EnabledColumn(View()))
        invariant forall z: nat :: Ready(View(), z) ==> z == y || (z != v && Ready(before, z))
        invariant res == PendingContractions ==> forall z: nat :: Ready(View(), z) ==> z != v && Ready(before, z)
        decreases res != PendingContractions, |up[y]|
      {
        ghost var tr := View();
        AttemptedForest(c, tr, fixed, x, y);
        AttemptedCount(c, tr, fixed, x, y);
        HeightDecreases(tr, y);
        ghost var books := fixed;
        res := Attempt(x, y, maxNodeWeight);
        OneAttemptFurther(c, tr, books, x, y, numContractions, end, View(), fixed, res);
        if res == Contracted {
          numContractions := numContractions + 1;
        }
        if res == PendingContractions {
          assert !Ready(tr, y);
        }
        y := x;
        x := parent[y];
        assert View().ForestAt(y);
      }
    }
  }

  lemma OnlyAbove(tr: Tree, u: nat, v: nat, w: nat)
    requires tr.Forest() && tr.IsNode(u) && tr.IsNode(v) && tr.IsRoot(v) && w in tr.up[u] && tr.IsNode(w)
    ensures v in tr.up[u] <==> v in tr.up[w]
  {
    UpClosed(tr, u, w);
    if v in tr.up[u] {
      var r := RootAbove(tr, u);
      var q := RootAbove(tr, w);
    }
  }

  lemma OnlyRoot(tr: Tree, w: nat, x: nat, v: nat)
    requires tr.Forest() && tr.IsNode(w) && x in tr.up[w] && tr.IsNode(x) && tr.IsRoot(x)
    requires tr.IsNode(v) && tr.IsRoot(v) && v != x
    ensures v !in tr.up[w]
  {
    var r := RootAbove(tr, w);
  }
}
