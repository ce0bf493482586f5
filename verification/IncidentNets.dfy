/** The incident nets of all nodes, as contractions and removals change them. */
module IncidentNets {
  import opened Chains

  /** `levels[w]` are the active nets of list w at every version so far, the last one is current. */
  datatype Incidence = Incidence(levels: seq<seq<set<nat>>>, degree: seq<int>, chain: Chains) {
    ghost predicate Shape() {
      && |levels| == |degree| == |chain.rep| && chain.Valid()
      && forall w: nat :: w < |levels| ==> levels[w] != []
    }

    /** The nets of the head h: those that are active in some list of its circle. */
    ghost function NetsOf(h: nat): set<nat>
      requires h < |chain.circ|
    {
      NetsIn(levels, chain.circ[h])
    }

    /** No net is active in two lists of the same circle. */
    ghost predicate ListedOnce(h: nat)
      requires h < |chain.circ|
    {
      Entries(levels, chain.circ[h]) == |NetsOf(h)|
    }

    /** The degree of a head is the number of active entries in its circle. */
    ghost predicate DegreesOk()
      requires Shape()
    {
      forall h: nat {:trigger DegreeOk(h)} :: h < |degree| ==> DegreeOk(h)
    }

    ghost predicate DegreeOk(h: nat)
      requires Shape() && h < |degree|
    {
      chain.isHead[h] ==> degree[h] == Entries(levels, chain.circ[h])
    }
  }

  function Newest(levels: seq<set<nat>>): set<nat> {
    if levels == [] then {} else levels[|levels| - 1]
  }

  function EntriesAt(levels: seq<seq<set<nat>>>, w: nat): int {
    if w < |levels| then |Newest(levels[w])| else 0
  }

  function Entries(levels: seq<seq<set<nat>>>, c: seq<nat>): int {
    if c == [] then 0 else Entries(levels, c[..|c| - 1]) + EntriesAt(levels, c[|c| - 1])
  }

  lemma {:induction false} EntriesAppend(levels: seq<seq<set<nat>>>, a: seq<nat>, b: seq<nat>)
    ensures Entries(levels, a + b) == Entries(levels, a) + Entries(levels, b)
    decreases |b|
  {
    if b == [] {
      assert a + b == a;
    } else {
      var b' := b[..|b| - 1];
      assert (a + b)[..|a + b| - 1] == a + b';
      EntriesAppend(levels, a, b');
    }
  }

  lemma {:induction false} EntriesFrame(levels: seq<seq<set<nat>>>, levels': seq<seq<set<nat>>>, c: seq<nat>)
    requires |levels| == |levels'| && forall w: nat :: w in c && w < |levels| ==> levels'[w] == levels[w]
    ensures Entries(levels', c) == Entries(levels, c)
  {
    if c != [] {
      assert c[|c| - 1] in c;
      EntriesFrame(levels, levels', c[..|c| - 1]);
    }
  }

  function NetsIn(levels: seq<seq<set<nat>>>, c: seq<nat>): set<nat> {
    if c == [] then {} else NetsIn(levels, c[..|c| - 1]) + (if c[|c| - 1] < |levels| then Newest(levels[c[|c| - 1]]) else {})
  }

  lemma {:induction false} NetsAppend(levels: seq<seq<set<nat>>>, a: seq<nat>, b: seq<nat>)
    ensures NetsIn(levels, a + b) == NetsIn(levels, a) + NetsIn(levels, b)
    decreases |b|
  {
    if b == [] {
      assert a + b == a;
    } else {
      var b' := b[..|b| - 1];
      assert (a + b)[..|a + b| - 1] == a + b';
      NetsAppend(levels, a, b');
    }
  }

  lemma {:induction false} NetsFrame(levels: seq<seq<set<nat>>>, levels': seq<seq<set<nat>>>, c: seq<nat>)
    requires |levels| == |levels'| && forall w: nat :: w in c && w < |levels| ==> levels'[w] == levels[w]
    ensures NetsIn(levels', c) == NetsIn(levels, c)
  {
    if c != [] {
      assert c[|c| - 1] in c;
      NetsFrame(levels, levels', c[..|c| - 1]);
    }
  }

  /** Entries count every net at least once. */
  lemma {:induction false} EntriesAtLeast(levels: seq<seq<set<nat>>>, c: seq<nat>)
    ensures |NetsIn(levels, c)| <= Entries(levels, c)
  {
    if c != [] {
      EntriesAtLeast(levels, c[..|c| - 1]);
      UnionSize(NetsIn(levels, c[..|c| - 1]), if c[|c| - 1] < |levels| then Newest(levels[c[|c| - 1]]) else {});
    }
  }

  lemma UnionSize(a: set<nat>, b: set<nat>)
    ensures |a + b| <= |a| + |b|
    ensures |a + b| == |a| + |b| ==> a !! b
  {
    assert |a + b| + |a * b| == |a| + |b|;
    assert |a * b| == 0 ==> a * b == {};
    assert forall x :: x in a && x in b ==> x in a * b;
  }

  // ---------- Removing and restoring the nets of one circle ----------

  function Reduced(levels: seq<set<nat>>, flags: set<nat>): seq<set<nat>> {
    levels + [Newest(levels) - flags]
  }

  function LevelsReduced(levels: seq<seq<set<nat>>>, c: seq<nat>, flags: set<nat>): (r: seq<seq<set<nat>>>)
    ensures |r| == |levels|
  {
    seq(|levels|, w requires 0 <= w < |levels| => ReducedAt(levels, c, flags, w))
  }

  function ReducedAt(levels: seq<seq<set<nat>>>, c: seq<nat>, flags: set<nat>, w: nat): seq<set<nat>>
    requires w < |levels|
  {
    if w in c then Reduced(levels[w], flags) else levels[w]
  }

  function LevelsRestored(levels: seq<seq<set<nat>>>, c: seq<nat>): (r: seq<seq<set<nat>>>)
    ensures |r| == |levels|
  {
    seq(|levels|, w requires 0 <= w < |levels| => if w in c && levels[w] != [] then levels[w][..|levels[w]| - 1] else levels[w])
  }

  lemma ReducedThenRestored(levels: seq<seq<set<nat>>>, c: seq<nat>, flags: set<nat>)
    ensures LevelsRestored(LevelsReduced(levels, c, flags), c) == levels
  {
    var r := LevelsReduced(levels, c, flags);
    forall w: nat | w < |levels| ensures LevelsRestored(r, c)[w] == levels[w] {
      if w in c { assert r[w][..|r[w]| - 1] == levels[w]; }
    }
  }

  /** Removing nets from all lists of a circle removes them from its net set and from the count. */
  lemma {:induction false} ReducedNets(levels: seq<seq<set<nat>>>, c: seq<nat>, d: seq<nat>, flags: set<nat>)
    requires forall w: nat :: w in c ==> w in d
    ensures NetsIn(LevelsReduced(levels, d, flags), c) == NetsIn(levels, c) - flags
    ensures Entries(levels, c) == |NetsIn(levels, c)| ==> Entries(LevelsReduced(levels, d, flags), c) == |NetsIn(levels, c) - flags|
  {
    if c != [] {
      var c', w, r := c[..|c| - 1], c[|c| - 1], LevelsReduced(levels, d, flags);
      ReducedNets(levels, c', d, flags);
      assert w in c;
      var l := if w < |levels| then Newest(levels[w]) else {};
      assert (if w < |r| then Newest(r[w]) else {}) == l - flags;
      EntriesAtLeast(levels, c');
      UnionSize(NetsIn(levels, c'), l);
      if NetsIn(levels, c') !! l {
        assert (NetsIn(levels, c') + l) - flags == (NetsIn(levels, c') - flags) + (l - flags);
        assert |(NetsIn(levels, c') - flags) + (l - flags)| == |NetsIn(levels, c') - flags| + |l - flags|;
      }
    }
  }

  ghost predicate CanRemove(a: Incidence, u: nat) {
    a.Shape() && u < |a.degree| && a.chain.isHead[u]
  }

  ghost function Removed(a: Incidence, u: nat, flags: set<nat>): Incidence
    requires CanRemove(a, u)
  {
    var levels := LevelsReduced(a.levels, a.chain.circ[u], flags);
    a.(levels := levels, degree := a.degree[u := a.degree[u] + (Entries(levels, a.chain.circ[u]) - Entries(a.levels, a.chain.circ[u]))])
  }

  /** Every list of c has an older version to go back to. */
  ghost predicate Restorable(levels: seq<seq<set<nat>>>, c: seq<nat>) {
    forall w: nat {:trigger RestorableAt(levels, w)} :: w in c ==> RestorableAt(levels, w)
  }

  ghost predicate RestorableAt(levels: seq<seq<set<nat>>>, w: nat) {
    w < |levels| ==> |levels[w]| > 1
  }

  lemma ReducedRestorable(a: Incidence, c: seq<nat>, flags: set<nat>)
    requires a.Shape()
    ensures Restorable(LevelsReduced(a.levels, c, flags), c)
  {
    var r := LevelsReduced(a.levels, c, flags);
    forall w: nat | w in c ensures RestorableAt(r, w) {
      assert w < |r| ==> r[w] == Reduced(a.levels[w], flags) && a.levels[w] != [];
    }
  }

  ghost predicate CanRestore(a: Incidence, u: nat) {
    && a.Shape() && u < |a.degree| && a.chain.isHead[u]
    && Restorable(a.levels, a.chain.circ[u])
  }

  ghost function Restored(a: Incidence, u: nat): Incidence
    requires CanRestore(a, u)
  {
    var levels := LevelsRestored(a.levels, a.chain.circ[u]);
    a.(levels := levels, degree := a.degree[u := a.degree[u] + (Entries(levels, a.chain.circ[u]) - Entries(a.levels, a.chain.circ[u]))])
  }

  /** Restoring undoes removing: active nets and degrees of every list are back. */
  lemma RestoreUndoesRemove(a: Incidence, u: nat, flags: set<nat>)
    requires CanRemove(a, u)
    ensures CanRestore(Removed(a, u, flags), u) && Restored(Removed(a, u, flags), u) == a
  {
    var c := a.chain.circ[u];
    ReducedThenRestored(a.levels, c, flags);
    ReducedRestorable(a, c, flags);
    var b := Removed(a, u, flags);
    assert LevelsRestored(b.levels, c) == a.levels;
    GainAndLoss(a.degree, u, Entries(b.levels, c) - Entries(a.levels, c));
  }

  lemma GainAndLoss(degree: seq<int>, u: nat, x: int)
    requires u < |degree|
    ensures var d := degree[u := degree[u] + x]; d[u := d[u] - x] == degree
  {
  }

  // ---------- Removing and restoring the nets of all circles ----------

  function ReducedIfBetween(levels: seq<seq<set<nat>>>, rep: seq<nat>, flags: set<nat>, lo: nat, hi: nat, w: nat): seq<set<nat>>
    requires w < |levels| == |rep|
  {
    if lo <= rep[w] < hi then Reduced(levels[w], flags) else levels[w]
  }

  function LevelsBetween(levels: seq<seq<set<nat>>>, rep: seq<nat>, flags: set<nat>, lo: nat, hi: nat): (r: seq<seq<set<nat>>>)
    requires |levels| == |rep|
    ensures |r| == |levels|
  {
    seq(|levels|, w requires 0 <= w < |levels| => ReducedIfBetween(levels, rep, flags, lo, hi, w))
  }

  ghost function DegreeIfBetween(a: Incidence, flags: set<nat>, lo: nat, hi: nat, h: nat): int
    requires a.Shape() && h < |a.degree|
  {
    var c := a.chain.circ[h];
    if lo <= h < hi && a.chain.isHead[h] then a.degree[h] + (Entries(LevelsReduced(a.levels, c, flags), c) - Entries(a.levels, c))
    else a.degree[h]
  }

  /** `flags` are removed from the lists of all heads from lo up to, but not including, hi. */
  ghost function Between(a: Incidence, flags: set<nat>, lo: nat, hi: nat): Incidence
    requires a.Shape()
  {
    a.(levels := LevelsBetween(a.levels, a.chain.rep, flags, lo, hi),
       degree := seq(|a.degree|, h requires 0 <= h < |a.degree| => DegreeIfBetween(a, flags, lo, hi, h)))
  }

  lemma BetweenShape(a: Incidence, flags: set<nat>, lo: nat, hi: nat)
    requires a.Shape()
    ensures Between(a, flags, lo, hi).Shape()
  {
    var levels := LevelsBetween(a.levels, a.chain.rep, flags, lo, hi);
    forall w: nat | w < |levels| ensures levels[w] != [] {
      assert levels[w] == ReducedIfBetween(a.levels, a.chain.rep, flags, lo, hi, w);
    }
  }

  lemma NothingBetween(a: Incidence, flags: set<nat>, n: nat)
    requires a.Shape()
    ensures Between(a, flags, n, n) == a
  {
    var b := Between(a, flags, n, n);
    forall w: nat | w < |a.levels| ensures b.levels[w] == a.levels[w] {
      assert b.levels[w] == ReducedIfBetween(a.levels, a.chain.rep, flags, n, n, w);
    }
    forall h: nat | h < |a.degree| ensures b.degree[h] == a.degree[h] {
      assert b.degree[h] == DegreeIfBetween(a, flags, n, n, h);
    }
  }

  /** The lists of a circle are reduced all together or not at all. */
  lemma CircleBetween(a: Incidence, flags: set<nat>, lo: nat, hi: nat, h: nat)
    requires a.Shape() && h < |a.degree| && a.chain.isHead[h]
    ensures var c, levels := a.chain.circ[h], LevelsBetween(a.levels, a.chain.rep, flags, lo, hi);
            forall w: nat :: w in c && w < |levels| ==>
              levels[w] == if lo <= h < hi then LevelsReduced(a.levels, c, flags)[w] else a.levels[w]
  {
    assert a.chain.CircleOk(h);
    var c, levels := a.chain.circ[h], LevelsBetween(a.levels, a.chain.rep, flags, lo, hi);
    forall w: nat | w in c && w < |levels| ensures levels[w] == if lo <= h < hi then LevelsReduced(a.levels, c, flags)[w] else a.levels[w] {
      assert levels[w] == ReducedIfBetween(a.levels, a.chain.rep, flags, lo, hi, w) && a.chain.rep[w] == h;
      assert LevelsReduced(a.levels, c, flags)[w] == ReducedAt(a.levels, c, flags, w);
    }
  }

  lemma EntriesBetween(a: Incidence, flags: set<nat>, lo: nat, hi: nat, h: nat)
    requires a.Shape() && h < |a.degree| && a.chain.isHead[h]
    ensures var c, levels := a.chain.circ[h], LevelsBetween(a.levels, a.chain.rep, flags, lo, hi);
            && Entries(levels, c) == (if lo <= h < hi then Entries(LevelsReduced(a.levels, c, flags), c) else Entries(a.levels, c))
            && NetsIn(levels, c) == (if lo <= h < hi then NetsIn(a.levels, c) - flags else NetsIn(a.levels, c))
  {
    var c, levels := a.chain.circ[h], LevelsBetween(a.levels, a.chain.rep, flags, lo, hi);
    CircleBetween(a, flags, lo, hi, h);
    if lo <= h < hi {
      EntriesFrame(LevelsReduced(a.levels, c, flags), levels, c);
      NetsFrame(LevelsReduced(a.levels, c, flags), levels, c);
      ReducedNets(a.levels, c, c, flags);
    } else {
      EntriesFrame(a.levels, levels, c);
      NetsFrame(a.levels, levels, c);
    }
  }

  lemma ShapeSizes(a: Incidence)
    requires a.Shape()
    ensures |a.levels| == |a.degree| == |a.chain.isHead| == |a.chain.circ| == |a.chain.rep|
  {
  }

  /** Removing the nets of the next head extends the range upwards. */
  lemma RemoveNext(a: Incidence, flags: set<nat>, n: nat)
    requires a.Shape() && n < |a.degree|
    ensures var b := Between(a, flags, 0, n);
            b.Shape() && Between(a, flags, 0, n + 1) == if a.chain.isHead[n] then Removed(b, n, flags) else b
  {
    hide Entries, NetsIn, LevelsBetween, LevelsReduced, Incidence.Shape, Chains.Valid;
    ShapeSizes(a);
    BetweenShape(a, flags, 0, n);
    RemoveNextLevels(a, flags, n);
    if a.chain.isHead[n] {
      EntriesBetween(a, flags, 0, n, n);
      EntriesBetween(a, flags, 0, n + 1, n);
    }
    var b, b', hi := Between(a, flags, 0, n), Between(a, flags, 0, n + 1), n + 1;
    var want := if a.chain.isHead[n] then Removed(b, n, flags) else b;
    forall h: nat | h < |a.degree| ensures b'.degree[h] == want.degree[h] {
      assert b'.degree[h] == DegreeIfBetween(a, flags, 0, hi, h) && b.degree[h] == DegreeIfBetween(a, flags, 0, n, h);
    }
  }

  lemma RemoveNextLevels(a: Incidence, flags: set<nat>, n: nat)
    requires a.Shape() && n < |a.degree|
    ensures var levels := LevelsBetween(a.levels, a.chain.rep, flags, 0, n);
            LevelsBetween(a.levels, a.chain.rep, flags, 0, n + 1) == if a.chain.isHead[n] then LevelsReduced(levels, a.chain.circ[n], flags) else levels
  {
    var hi := n + 1;
    var levels, levels' := LevelsBetween(a.levels, a.chain.rep, flags, 0, n), LevelsBetween(a.levels, a.chain.rep, flags, 0, hi);
    assert a.chain.CircleOk(n);
    var want := if a.chain.isHead[n] then LevelsReduced(levels, a.chain.circ[n], flags) else levels;
    forall w: nat | w < |a.levels| ensures levels'[w] == want[w] {
      assert levels'[w] == ReducedIfBetween(a.levels, a.chain.rep, flags, 0, hi, w);
      assert levels[w] == ReducedIfBetween(a.levels, a.chain.rep, flags, 0, n, w);
      assert a.chain.CircleOk(w);
      if a.chain.isHead[n] { assert want[w] == ReducedAt(levels, a.chain.circ[n], flags, w); }
    }
  }

  /** Restoring the nets of the next head shortens the range from below. */
  lemma RestoreNext(a: Incidence, flags: set<nat>, n: nat)
    requires a.Shape() && n < |a.degree|
    ensures var b := Between(a, flags, n, |a.degree|); var lo := n + 1;
            && b.Shape() && (a.chain.isHead[n] ==> CanRestore(b, n))
            && Between(a, flags, lo, |a.degree|) == if a.chain.isHead[n] then Restored(b, n) else b
  {
    var all, lo := |a.degree|, n + 1;
    hide Entries, NetsIn, LevelsBetween, LevelsReduced, LevelsRestored, Restorable, Incidence.Shape, Chains.Valid;
    ShapeSizes(a);
    BetweenShape(a, flags, n, all);
    RestoreNextLevels(a, flags, n);
    if a.chain.isHead[n] {
      EntriesBetween(a, flags, n, all, n);
      EntriesBetween(a, flags, lo, all, n);
    }
    var b, b' := Between(a, flags, n, all), Between(a, flags, lo, all);
    var want := if a.chain.isHead[n] then Restored(b, n) else b;
    forall h: nat | h < |a.degree| ensures b'.degree[h] == want.degree[h] {
      assert b'.degree[h] == DegreeIfBetween(a, flags, lo, all, h) && b.degree[h] == DegreeIfBetween(a, flags, n, all, h);
    }
  }

  lemma RestoreNextLevels(a: Incidence, flags: set<nat>, n: nat)
    requires a.Shape() && n < |a.degree|
    ensures var levels := LevelsBetween(a.levels, a.chain.rep, flags, n, |a.degree|); var lo := n + 1;
            && (a.chain.isHead[n] ==> Restorable(levels, a.chain.circ[n]))
            && LevelsBetween(a.levels, a.chain.rep, flags, lo, |a.degree|)
               == if a.chain.isHead[n] then LevelsRestored(levels, a.chain.circ[n]) else levels
  {
    var all, lo := |a.degree|, n + 1;
    var levels, levels' := LevelsBetween(a.levels, a.chain.rep, flags, n, all), LevelsBetween(a.levels, a.chain.rep, flags, lo, all);
    assert a.chain.CircleOk(n);
    if a.chain.isHead[n] {
      forall w: nat | w in a.chain.circ[n] ensures RestorableAt(levels, w) {
        assert levels[w] == ReducedIfBetween(a.levels, a.chain.rep, flags, n, all, w);
      }
    }
    forall w: nat | w < |a.levels| ensures levels'[w] == (if a.chain.isHead[n] then LevelsRestored(levels, a.chain.circ[n]) else levels)[w] {
      assert levels'[w] == ReducedIfBetween(a.levels, a.chain.rep, flags, lo, all, w);
      assert levels[w] == ReducedIfBetween(a.levels, a.chain.rep, flags, n, all, w);
      assert a.chain.CircleOk(w);
      assert Reduced(a.levels[w], flags)[..|a.levels[w]|] == a.levels[w];
    }
  }

  /** What is left of the incidence after `flags` were removed everywhere. */
  lemma RemovedEverywhere(a: Incidence, flags: set<nat>, h: nat)
    requires a.Shape() && a.DegreesOk() && h < |a.degree| && a.chain.isHead[h] && a.ListedOnce(h)
    ensures var b := Between(a, flags, 0, |a.degree|);
            b.Shape() && b.NetsOf(h) == a.NetsOf(h) - flags && b.ListedOnce(h) && b.DegreeOk(h)
  {
    var all, c := |a.degree|, a.chain.circ[h];
    BetweenShape(a, flags, 0, all);
    EntriesBetween(a, flags, 0, all, h);
    ReducedNets(a.levels, c, c, flags);
    assert a.DegreeOk(h);
    assert Between(a, flags, 0, all).degree[h] == DegreeIfBetween(a, flags, 0, all, h);
  }

  /** The nets that come back when the lists c go back one version. */
  function NetsReturned(levels: seq<seq<set<nat>>>, c: seq<nat>): set<nat> {
    if c == [] then {}
    else
      var w := c[|c| - 1];
      NetsReturned(levels, c[..|c| - 1])
      + (if w < |levels| && levels[w] != [] then Newest(levels[w][..|levels[w]| - 1]) - Newest(levels[w]) else {})
  }

  /** After a removal of `flags`, those that come back are exactly the removed ones. */
  lemma {:induction false} RemovedReturn(levels: seq<seq<set<nat>>>, c: seq<nat>, d: seq<nat>, flags: set<nat>)
    requires forall w: nat :: w in c ==> w in d
    ensures NetsReturned(LevelsReduced(levels, d, flags), c) == NetsIn(levels, c) * flags
  {
    if c != [] {
      var w := c[|c| - 1];
      RemovedReturn(levels, c[..|c| - 1], d, flags);
      assert w in c;
      if w < |levels| {
        var r := LevelsReduced(levels, d, flags)[w];
        assert r == Reduced(levels[w], flags) && r[..|r| - 1] == levels[w];
      }
    }
  }

  // ---------- Contraction ----------

  ghost predicate InRange(a: Incidence, u: nat, v: nat) {
    u < |a.degree| == |a.chain.circ| == |a.chain.isHead| && v < |a.degree|
  }

  ghost predicate CanContract(a: Incidence, u: nat, v: nat) {
    a.Shape() && u < |a.degree| && v < |a.degree| && u != v && a.chain.isHead[u] && a.chain.isHead[v]
  }

  /** The nets in `shared` leave the lists of v, then the circle of v joins the circle of u. */
  ghost function Contracted(a: Incidence, u: nat, v: nat, shared: set<nat>): Incidence
    requires InRange(a, u, v)
  {
    var c := a.chain.circ[v];
    var levels := LevelsReduced(a.levels, c, shared);
    Incidence(levels, JoinedDegrees(a.degree, u, v, Entries(levels, c) - Entries(a.levels, c)), Appended(a.chain, u, v))
  }

  /** The degree of v changes by x and is then added to that of u. */
  function JoinedDegrees(degree: seq<int>, u: nat, v: nat, x: int): (r: seq<int>)
    requires u < |degree| && v < |degree|
    ensures |r| == |degree|
  {
    var d := degree[v := degree[v] + x];
    d[u := d[u] + d[v]]
  }

  /** The degree of v is taken from that of u and then changes by x. */
  function PartedDegrees(degree: seq<int>, u: nat, v: nat, x: int): (r: seq<int>)
    requires u < |degree| && v < |degree|
    ensures |r| == |degree|
  {
    degree[u := degree[u] - degree[v]][v := degree[v] + x]
  }

  lemma DegreesPart(degree: seq<int>, u: nat, v: nat, x: int)
    requires u < |degree| && v < |degree| && u != v
    ensures PartedDegrees(JoinedDegrees(degree, u, v, x), u, v, -x) == degree
  {
  }

  ghost predicate CanUncontract(a: Incidence, u: nat, v: nat, k: nat) {
    && a.Shape() && u < |a.degree| && v < |a.degree| && u != v && a.chain.isHead[u] && a.chain.rep[v] == u
    && a.chain.circ[v] != [] && a.chain.circ[v][0] == v && IsSegment(a.chain, u, v, k)
    && Restorable(a.levels, a.chain.circ[v])
  }

  ghost function Uncontracted(a: Incidence, u: nat, v: nat, k: nat): Incidence
    requires InRange(a, u, v) && k + |a.chain.circ[v]| <= |a.chain.circ[u]|
  {
    var c := a.chain.circ[v];
    var levels := LevelsRestored(a.levels, c);
    Incidence(levels, PartedDegrees(a.degree, u, v, Entries(levels, c) - Entries(a.levels, c)), Spliced(a.chain, u, v, k))
  }

  lemma ContractedShape(a: Incidence, u: nat, v: nat, shared: set<nat>)
    requires CanContract(a, u, v)
    ensures Contracted(a, u, v, shared).Shape()
  {
    AppendedValid(a.chain, u, v);
  }

  lemma UncontractPossible(a: Incidence, u: nat, v: nat, shared: set<nat>)
    requires CanContract(a, u, v)
    ensures CanUncontract(Contracted(a, u, v, shared), u, v, |a.chain.circ[u]|)
  {
    var b, d := Contracted(a, u, v, shared), a.chain.circ[v];
    ContractedShape(a, u, v, shared);
    SplicedUndoesAppended(a.chain, u, v);
    assert a.chain.CircleOk(v);
    ReducedRestorable(a, d, shared);
  }

  /** Undoing a contraction gives back every active net, every circle, head flag and degree. */
  lemma UncontractRestores(a: Incidence, u: nat, v: nat, shared: set<nat>)
    requires CanContract(a, u, v)
    ensures CanUncontract(Contracted(a, u, v, shared), u, v, |a.chain.circ[u]|)
    ensures Uncontracted(Contracted(a, u, v, shared), u, v, |a.chain.circ[u]|) == a
  {
    UncontractPossible(a, u, v, shared);
    LevelsReturn(a, u, v, shared);
    ChainReturns(a, u, v, shared);
    DegreesReturn(a, u, v, shared);
  }

  /** Uncontracting v right after its contraction reports the nets of v that u shares as returning, and
      all other nets of v as staying. */
  lemma UncontractReports(a: Incidence, u: nat, v: nat, shared: set<nat>)
    requires CanContract(a, u, v) && shared == a.NetsOf(u) * a.NetsOf(v)
    ensures Contracted(a, u, v, shared).chain.circ[v] == a.chain.circ[v]
    ensures NetsReturned(Contracted(a, u, v, shared).levels, a.chain.circ[v]) == a.NetsOf(u) * a.NetsOf(v)
    ensures NetsIn(Contracted(a, u, v, shared).levels, a.chain.circ[v]) == a.NetsOf(v) - a.NetsOf(u)
  {
    RemovedReturn(a.levels, a.chain.circ[v], a.chain.circ[v], shared);
    ReducedNets(a.levels, a.chain.circ[v], a.chain.circ[v], shared);
  }

  lemma LevelsReturn(a: Incidence, u: nat, v: nat, shared: set<nat>)
    requires CanContract(a, u, v) && CanUncontract(Contracted(a, u, v, shared), u, v, |a.chain.circ[u]|)
    ensures Uncontracted(Contracted(a, u, v, shared), u, v, |a.chain.circ[u]|).levels == a.levels
  {
    ReducedThenRestored(a.levels, a.chain.circ[v], shared);
  }

  lemma ChainReturns(a: Incidence, u: nat, v: nat, shared: set<nat>)
    requires CanContract(a, u, v) && CanUncontract(Contracted(a, u, v, shared), u, v, |a.chain.circ[u]|)
    ensures Uncontracted(Contracted(a, u, v, shared), u, v, |a.chain.circ[u]|).chain == a.chain
  {
    SplicedUndoesAppended(a.chain, u, v);
  }

  lemma DegreesReturn(a: Incidence, u: nat, v: nat, shared: set<nat>)
    requires InRange(a, u, v) && u != v
    ensures Uncontracted(Contracted(a, u, v, shared), u, v, |a.chain.circ[u]|).degree == a.degree
  {
    hide Entries, LevelsReduced, LevelsRestored, Spliced, JoinedDegrees, PartedDegrees;
    var d := a.chain.circ[v];
    var reduced := LevelsReduced(a.levels, d, shared);
    EntriesReturn(a.levels, d, shared);
    DegreeValuesReturn(a.degree, u, v, Entries(a.levels, d), Entries(reduced, d), Entries(LevelsRestored(reduced, d), d));
  }

  lemma EntriesReturn(levels: seq<seq<set<nat>>>, d: seq<nat>, shared: set<nat>)
    ensures Entries(LevelsRestored(LevelsReduced(levels, d, shared), d), d) == Entries(levels, d)
  {
    ReducedThenRestored(levels, d, shared);
  }

  lemma DegreeValuesReturn(degree: seq<int>, u: nat, v: nat, before: int, between: int, after: int)
    requires u < |degree| && v < |degree| && u != v && after == before
    ensures PartedDegrees(JoinedDegrees(degree, u, v, between - before), u, v, after - between) == degree
  {
    DegreesPart(degree, u, v, between - before);
  }

  /** Degrees go on counting active entries. */
  lemma ContractedDegrees(a: Incidence, u: nat, v: nat, shared: set<nat>)
    requires CanContract(a, u, v) && a.DegreesOk() && Contracted(a, u, v, shared).Shape()
    ensures Contracted(a, u, v, shared).DegreesOk()
  {
    var b := Contracted(a, u, v, shared);
    var c, d := a.chain.circ[u], a.chain.circ[v];
    forall h: nat | h < |b.degree| ensures b.DegreeOk(h) {
      if b.chain.isHead[h] {
        CirclesDisjoint(a.chain, h, v);
        assert a.chain.CircleOk(h) && a.chain.CircleOk(v) && a.DegreeOk(h) && a.DegreeOk(v);
        EntriesFrame(a.levels, b.levels, a.chain.circ[h]);
        if h == u { EntriesAppend(b.levels, c, d); }
      }
    }
  }

  /** When the shared nets are those that v has in common with u, the contracted node has exactly the
      nets of both, none of them twice. */
  lemma ContractionMerges(a: Incidence, u: nat, v: nat, shared: set<nat>)
    requires CanContract(a, u, v) && Contracted(a, u, v, shared).Shape()
    requires shared == a.NetsOf(u) * a.NetsOf(v)
    ensures Contracted(a, u, v, shared).NetsOf(u) == a.NetsOf(u) + a.NetsOf(v)
    ensures a.ListedOnce(u) && a.ListedOnce(v) ==> Contracted(a, u, v, shared).ListedOnce(u)
  {
    var b, c, d := Contracted(a, u, v, shared), a.chain.circ[u], a.chain.circ[v];
    CirclesDisjoint(a.chain, u, v);
    NetsAppend(b.levels, c, d);
    EntriesAppend(b.levels, c, d);
    NetsFrame(a.levels, b.levels, c);
    EntriesFrame(a.levels, b.levels, c);
    ReducedNets(a.levels, d, d, shared);
    UnionSize(a.NetsOf(u), a.NetsOf(v) - shared);
    assert a.NetsOf(u) !! a.NetsOf(v) - shared;
  }

  /** Other nodes keep their nets. */
  lemma OthersKeepNets(a: Incidence, u: nat, v: nat, shared: set<nat>, h: nat)
    requires CanContract(a, u, v) && Contracted(a, u, v, shared).Shape()
    requires h < |a.levels| && a.chain.isHead[h] && h != u && h != v
    ensures Contracted(a, u, v, shared).NetsOf(h) == a.NetsOf(h)
    ensures a.ListedOnce(h) ==> Contracted(a, u, v, shared).ListedOnce(h)
  {
    CirclesDisjoint(a.chain, h, v);
    NetsFrame(a.levels, Contracted(a, u, v, shared).levels, a.chain.circ[h]);
    EntriesFrame(a.levels, Contracted(a, u, v, shared).levels, a.chain.circ[h]);
  }
}
