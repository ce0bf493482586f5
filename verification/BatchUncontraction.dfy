/** Undoing a batch of contractions, in any order. */
module BatchUncontraction {
  import opened Rings
  import opened Chains
  import opened IncidentNets
  import opened Hypergraphs
  import opened ContractionOrder

  // A batch are the last contractions, and none of its partners is a representative in it. While it is being
  // undone some of its contractions are left; the nets each of them shared are those of the time it was made.

  /** The contraction of v into u; the nets in `back` had both as pins, those in `stay` only v. */
  datatype Merge = Merge(u: nat, v: nat, back: set<nat>, stay: set<nat>)

  ghost predicate Independent(left: seq<Merge>) {
    && (forall i, j :: 0 <= i < |left| && 0 <= j < |left| ==> left[i].u != left[j].v)
    && (forall i, j :: 0 <= i < j < |left| ==> left[i].v != left[j].v)
  }

  function Removing(left: seq<Merge>, k: nat): (r: seq<Merge>)
    requires k < |left|
    ensures |r| == |left| - 1
  {
    left[..k] + left[k + 1..]
  }

  lemma RemovingMembers(left: seq<Merge>, k: nat)
    requires Independent(left) && k < |left|
    ensures Independent(Removing(left, k))
    ensures forall s :: s in Removing(left, k) <==> s in left && s != left[k]
  {
    var r := Removing(left, k);
    assert forall i :: 0 <= i < |r| ==> r[i] == left[if i < k then i else i + 1];
    forall s | s in left && s != left[k] ensures s in r {
      var i :| 0 <= i < |left| && left[i] == s;
      assert r[if i < k then i else i - 1] == s;
    }
  }

  // ---------- Incident nets ----------

  ghost predicate CanJoinAll(a: Incidence, left: seq<Merge>)
    decreases |left|, 0
  {
    && a.Shape()
    && (left == [] ||
        var front, s := left[..|left| - 1], left[|left| - 1];
        CanJoinAll(a, front) && IncidentNets.CanContract(JoinedAll(a, front), s.u, s.v))
  }

  /** The incident nets when only the contractions `left` were made. */
  ghost function JoinedAll(a: Incidence, left: seq<Merge>): Incidence
    requires CanJoinAll(a, left)
    decreases |left|, 1
  {
    if left == [] then a
    else
      var front, s := left[..|left| - 1], left[|left| - 1];
      IncidentNets.Contracted(JoinedAll(a, front), s.u, s.v, s.back)
  }

  /** A later contraction of other nodes and the undoing of an earlier one commute. */
  lemma UncontractPasses(b: Incidence, u: nat, v: nat, k: nat, x: nat, y: nat, t: set<nat>)
    requires IncidentNets.CanUncontract(b, u, v, k) && IncidentNets.CanContract(b, x, y) && y != u
    requires IncidentNets.Uncontracted(b, u, v, k).Shape()
    ensures IncidentNets.CanUncontract(IncidentNets.Contracted(b, x, y, t), u, v, k)
    ensures IncidentNets.CanContract(IncidentNets.Uncontracted(b, u, v, k), x, y)
    ensures IncidentNets.Uncontracted(IncidentNets.Contracted(b, x, y, t), u, v, k) == IncidentNets.Contracted(IncidentNets.Uncontracted(b, u, v, k), x, y, t)
  {
    hide LevelsReduced, LevelsRestored, Entries, JoinedDegrees, PartedDegrees, Appended, Spliced, Incidence.Shape, Restorable, Chains.Valid;
    PassRange(b, u, v, k, x, y, t);
    UndoStillPossible(b, u, v, k, x, y, t);
    ChainPasses(b.chain, u, v, k, x, y);
    SegmentApart(b, u, v, k, y);
    var c, d := b.chain.circ[v], b.chain.circ[y];
    LevelsPass(b.levels, c, d, t);
    RestoreLossUnchanged(b.levels, c, d, t);
    DegreesPass(b.degree, u, v, Entries(LevelsRestored(b.levels, c), c) - Entries(b.levels, c), x, y, Entries(LevelsReduced(b.levels, d, t), d) - Entries(b.levels, d));
  }

  lemma PassRange(b: Incidence, u: nat, v: nat, k: nat, x: nat, y: nat, t: set<nat>)
    requires IncidentNets.CanUncontract(b, u, v, k) && IncidentNets.CanContract(b, x, y) && y != u
    requires IncidentNets.Uncontracted(b, u, v, k).Shape()
    ensures !b.chain.isHead[v] && |b.degree| == |b.chain.rep| == |b.chain.isHead| == |b.chain.circ|
    ensures IncidentNets.CanContract(IncidentNets.Uncontracted(b, u, v, k), x, y)
    ensures IncidentNets.Contracted(b, x, y, t).chain.circ[v] == b.chain.circ[v] && IncidentNets.Uncontracted(b, u, v, k).chain.circ[y] == b.chain.circ[y]
  {
    NotHead(b, u, v);
  }

  lemma NotHead(b: Incidence, u: nat, v: nat)
    requires b.Shape() && u < |b.degree| && v < |b.degree| && u != v && b.chain.rep[v] == u
    ensures !b.chain.isHead[v]
  {
    assert b.chain.CircleOk(v);
  }

  lemma UndoStillPossible(b: Incidence, u: nat, v: nat, k: nat, x: nat, y: nat, t: set<nat>)
    requires IncidentNets.CanUncontract(b, u, v, k) && IncidentNets.CanContract(b, x, y) && y != u && !b.chain.isHead[v]
    ensures IncidentNets.CanUncontract(IncidentNets.Contracted(b, x, y, t), u, v, k)
  {
    IncidentNets.ContractedShape(b, x, y, t);
    SegmentApart(b, u, v, k, y);
    var b', c := IncidentNets.Contracted(b, x, y, t), b.chain.circ[v];
    assert b'.chain.circ[v] == c;
    forall w: nat | w in c ensures RestorableAt(b'.levels, w) {
      NotInBoth(c, b.chain.circ[y], w);
      assert RestorableAt(b.levels, w);
      assert w < |b.levels| ==> b'.levels[w] == ReducedAt(b.levels, b.chain.circ[y], t, w);
    }
    SegmentStays(b.chain, u, v, k, x, y);
  }

  lemma SegmentStays(g: Chains, u: nat, v: nat, k: nat, x: nat, y: nat)
    requires u < |g.circ| && v < |g.circ| && x < |g.circ| && y < |g.circ| && y < |g.isHead| && IsSegment(g, u, v, k) && v != x
    ensures IsSegment(Appended(g, x, y), u, v, k)
  {
    var c, d := g.circ[u], g.circ[y];
    assert (c + d)[k..k + |g.circ[v]|] == c[k..k + |g.circ[v]|];
  }

  /** The former circle of v is part of that of u, and so disjoint from the others. */
  lemma SegmentApart(b: Incidence, u: nat, v: nat, k: nat, y: nat)
    requires b.Shape() && u < |b.degree| && v < |b.degree| && b.chain.isHead[u] && IsSegment(b.chain, u, v, k)
    requires y < |b.degree| && b.chain.isHead[y] && y != u
    ensures Disjoint(b.chain.circ[v], b.chain.circ[y])
  {
    CirclesDisjoint(b.chain, u, y);
    var c, d := b.chain.circ[u], b.chain.circ[v];
    assert forall i :: 0 <= i < |d| ==> d[i] == c[k + i];
  }

  lemma ChainPasses(g: Chains, u: nat, v: nat, k: nat, x: nat, y: nat)
    requires |g.rep| == |g.isHead| == |g.circ| && u < |g.rep| && v < |g.rep| && x < |g.rep| && y < |g.rep|
    requires u != v && x != y && y != u && x != v && y != v && IsSegment(g, u, v, k)
    ensures IsSegment(Appended(g, x, y), u, v, k)
    ensures Spliced(Appended(g, x, y), u, v, k) == Appended(Spliced(g, u, v, k), x, y)
  {
    SegmentStays(g, u, v, k, x, y);
    var c, d := g.circ[v], g.circ[y];
    var a, b := AllReturned(AllRenamed(g.rep, y, x), c, v), AllRenamed(AllReturned(g.rep, c, v), y, x);
    forall w: nat | w < |g.rep| ensures a[w] == b[w] {
      assert AllRenamed(g.rep, y, x)[w] == Renamed(g.rep[w], y, x);
    }
    assert a == b;
    assert g.isHead[y := false][v := true] == g.isHead[v := true][y := false];
    CutBefore(g.circ[u], d, k, k + |c|);
    if x != u {
      assert g.circ[x := g.circ[x] + d][u := Without(g.circ[u], k, k + |c|)] == g.circ[u := Without(g.circ[u], k, k + |c|)][x := g.circ[x] + d];
    }
  }

  lemma CutBefore(c: seq<nat>, d: seq<nat>, p: nat, q: nat)
    requires p <= q <= |c|
    ensures Without(c + d, p, q) == Without(c, p, q) + d
  {
  }

  lemma LevelsPass(levels: seq<seq<set<nat>>>, c: seq<nat>, d: seq<nat>, t: set<nat>)
    requires Disjoint(c, d)
    ensures LevelsRestored(LevelsReduced(levels, d, t), c) == LevelsReduced(LevelsRestored(levels, c), d, t)
  {
    var a, b := LevelsReduced(levels, d, t), LevelsRestored(levels, c);
    forall w: nat | w < |levels| ensures LevelsRestored(a, c)[w] == LevelsReduced(b, d, t)[w] {
      NotInBoth(c, d, w);
      assert a[w] == ReducedAt(levels, d, t, w) && LevelsReduced(b, d, t)[w] == ReducedAt(b, d, t, w);
    }
  }

  lemma RestoreLossUnchanged(levels: seq<seq<set<nat>>>, c: seq<nat>, d: seq<nat>, t: set<nat>)
    requires Disjoint(c, d)
    ensures var a := LevelsReduced(levels, d, t);
            Entries(a, c) == Entries(levels, c) && Entries(LevelsRestored(a, c), c) == Entries(LevelsRestored(levels, c), c)
    ensures var b := LevelsRestored(levels, c);
            Entries(b, d) == Entries(levels, d) && Entries(LevelsReduced(b, d, t), d) == Entries(LevelsReduced(levels, d, t), d)
  {
    var a, b := LevelsReduced(levels, d, t), LevelsRestored(levels, c);
    forall w: nat | w < |levels|
      ensures w in c ==> a[w] == levels[w] && LevelsRestored(a, c)[w] == b[w]
      ensures w in d ==> b[w] == levels[w] && LevelsReduced(b, d, t)[w] == a[w]
    {
      NotInBoth(c, d, w);
      assert a[w] == ReducedAt(levels, d, t, w) && LevelsReduced(b, d, t)[w] == ReducedAt(b, d, t, w);
    }
    EntriesFrame(levels, a, c);
    EntriesFrame(b, LevelsRestored(a, c), c);
    EntriesFrame(levels, b, d);
    EntriesFrame(a, LevelsReduced(b, d, t), d);
  }

  lemma DegreesPass(degree: seq<int>, u: nat, v: nat, a: int, x: nat, y: nat, b: int)
    requires u < |degree| && v < |degree| && x < |degree| && y < |degree|
    requires u != v && x != y && y != u && x != v && y != v
    ensures PartedDegrees(JoinedDegrees(degree, x, y, b), u, v, a) == JoinedDegrees(PartedDegrees(degree, u, v, a), x, y, b)
  {
  }

  /** Any of the contractions left can be undone, as if it had never been made. */
  lemma {:induction false} UndoInTheMiddle(a: Incidence, left: seq<Merge>, k: nat) returns (pos: nat)
    requires CanJoinAll(a, left) && Independent(left) && k < |left|
    ensures IncidentNets.CanUncontract(JoinedAll(a, left), left[k].u, left[k].v, pos)
    ensures CanJoinAll(a, Removing(left, k))
    ensures IncidentNets.Uncontracted(JoinedAll(a, left), left[k].u, left[k].v, pos) == JoinedAll(a, Removing(left, k))
    decreases |left|
  {
    hide IncidentNets.CanUncontract, IncidentNets.Uncontracted, IncidentNets.Contracted, IncidentNets.CanContract;
    var n := |left| - 1;
    var front, s, m := left[..n], left[n], left[k];
    if k == n {
      assert Removing(left, k) == front;
      IncidentNets.UncontractRestores(JoinedAll(a, front), s.u, s.v, s.back);
      assert IncidentNets.InRange(JoinedAll(a, front), s.u, s.v) by { PairInRange(JoinedAll(a, front), s.u, s.v); }
      pos := |JoinedAll(a, front).chain.circ[s.u]|;
    } else {
      assert Independent(front) && front[k] == m;
      pos := UndoInTheMiddle(a, front, k);
      var rest := Removing(left, k);
      assert rest[..|rest| - 1] == Removing(front, k) && rest[|rest| - 1] == s;
      ShapeOfJoined(a, Removing(front, k));
      UncontractPasses(JoinedAll(a, front), m.u, m.v, pos, s.u, s.v, s.back);
    }
  }

  lemma PairInRange(a: Incidence, u: nat, v: nat)
    requires IncidentNets.CanContract(a, u, v)
    ensures IncidentNets.InRange(a, u, v)
  {
  }

  lemma ShapeOfJoined(a: Incidence, left: seq<Merge>)
    requires CanJoinAll(a, left)
    ensures JoinedAll(a, left).Shape()
  {
    if left != [] {
      var s := left[|left| - 1];
      IncidentNets.ContractedShape(JoinedAll(a, left[..|left| - 1]), s.u, s.v, s.back);
    }
  }

  // ---------- What the undoing of a contraction reports ----------

  /** The nets of v are those it shared and those it had alone, at most once each. */
  ghost predicate MergeOk(a: Incidence, s: Merge) {
    && s.v < |a.chain.circ| && a.NetsOf(s.v) == s.back + s.stay && s.back !! s.stay && a.ListedOnce(s.v)
  }

  /** Nodes that no contraction of the batch touches keep their circle and their lists. */
  lemma {:induction false} UntouchedNode(a: Incidence, left: seq<Merge>, y: nat)
    requires CanJoinAll(a, left) && y < |a.degree| && a.chain.isHead[y]
    requires forall i :: 0 <= i < |left| ==> left[i].u != y && left[i].v != y
    ensures var b := JoinedAll(a, left);
            && |b.levels| == |b.degree| == |b.chain.circ| == |b.chain.isHead| == |a.degree| && b.chain.isHead[y] && b.chain.circ[y] == a.chain.circ[y]
            && forall w: nat :: w in a.chain.circ[y] && w < |a.levels| ==> b.levels[w] == a.levels[w]
    decreases |left|
  {
    if left != [] {
      var front, s := left[..|left| - 1], left[|left| - 1];
      UntouchedNode(a, front, y);
      ContractionElsewhere(JoinedAll(a, front), s.u, s.v, s.back, y);
    }
  }

  lemma ContractionElsewhere(b: Incidence, u: nat, v: nat, shared: set<nat>, y: nat)
    requires IncidentNets.CanContract(b, u, v) && y < |b.degree| && b.chain.isHead[y] && y != u && y != v
    ensures var b' := IncidentNets.Contracted(b, u, v, shared);
            && |b'.levels| == |b'.degree| == |b'.chain.circ| == |b'.chain.isHead| == |b.degree| && b'.chain.isHead[y] && b'.chain.circ[y] == b.chain.circ[y]
            && forall w: nat :: w in b.chain.circ[y] && w < |b.levels| ==> b'.levels[w] == b.levels[w]
  {
    CirclesDisjoint(b.chain, y, v);
    ListsElsewhere(b.levels, b.chain.circ[y], b.chain.circ[v], shared);
  }

  lemma ListsElsewhere(levels: seq<seq<set<nat>>>, c: seq<nat>, d: seq<nat>, t: set<nat>)
    requires Disjoint(c, d)
    ensures forall w: nat :: w in c && w < |levels| ==> LevelsReduced(levels, d, t)[w] == levels[w]
  {
    forall w: nat | w in c && w < |levels| ensures LevelsReduced(levels, d, t)[w] == levels[w] {
      NotInBoth(c, d, w);
      assert LevelsReduced(levels, d, t)[w] == ReducedAt(levels, d, t, w);
    }
  }

  /** The lists of a partner have gone one version on, whatever else is left. */
  lemma {:induction false} PartnerLists(a: Incidence, left: seq<Merge>, k: nat)
    requires CanJoinAll(a, left) && Independent(left) && k < |left|
    ensures var b, v := JoinedAll(a, left), left[k].v;
            && v < |a.degree| == |a.chain.circ| == |b.chain.circ| && |b.levels| == |a.levels| == |a.degree| && a.chain.isHead[v]
            && b.chain.circ[v] == a.chain.circ[v]
            && forall w: nat :: w in a.chain.circ[v] && w < |a.levels| ==> b.levels[w] == LevelsReduced(a.levels, a.chain.circ[v], left[k].back)[w]
    decreases |left|
  {
    var n := |left| - 1;
    var front, s := left[..n], left[n];
    assert Independent(front);
    if k == n {
      HeadAtFirst(a, front, s.v);
      UntouchedNode(a, front, s.v);
      JoinedLists(a, JoinedAll(a, front), s.u, s.v, s.back);
    } else {
      PartnerLists(a, front, k);
      HeadAtFirst(a, front, s.v);
      LaterElsewhere(a, front, left[k].v, s);
    }
  }

  lemma JoinedLists(a: Incidence, b: Incidence, u: nat, v: nat, shared: set<nat>)
    requires IncidentNets.CanContract(b, u, v) && |a.levels| == |b.levels| && v < |a.chain.circ| && b.chain.circ[v] == a.chain.circ[v]
    requires forall w: nat :: w in a.chain.circ[v] && w < |a.levels| ==> b.levels[w] == a.levels[w]
    ensures var b' := IncidentNets.Contracted(b, u, v, shared);
            && |b'.chain.circ| == |b.chain.circ| && |b'.levels| == |b.levels| && b'.chain.circ[v] == a.chain.circ[v]
            && forall w: nat :: w in a.chain.circ[v] && w < |a.levels| ==> b'.levels[w] == LevelsReduced(a.levels, a.chain.circ[v], shared)[w]
  {
    var c := a.chain.circ[v];
    forall w: nat | w in c && w < |a.levels| ensures LevelsReduced(b.levels, c, shared)[w] == LevelsReduced(a.levels, c, shared)[w] {
      assert LevelsReduced(b.levels, c, shared)[w] == ReducedAt(b.levels, c, shared, w);
      assert LevelsReduced(a.levels, c, shared)[w] == ReducedAt(a.levels, c, shared, w);
    }
  }

  /** Heads stay heads in the past. */
  lemma {:induction false} HeadAtFirst(a: Incidence, left: seq<Merge>, y: nat)
    requires CanJoinAll(a, left) && y < |JoinedAll(a, left).chain.isHead| && JoinedAll(a, left).chain.isHead[y]
    ensures y < |a.chain.isHead| == |a.degree| == |a.levels| == |a.chain.circ| && a.chain.isHead[y]
    decreases |left|
  {
    if left != [] {
      HeadAtFirst(a, left[..|left| - 1], y);
    }
  }

  lemma LaterElsewhere(a: Incidence, front: seq<Merge>, v: nat, s: Merge)
    requires CanJoinAll(a, front) && IncidentNets.CanContract(JoinedAll(a, front), s.u, s.v) && s.u != v && s.v != v
    requires a.Shape() && v < |a.degree| && a.chain.isHead[v] && s.v < |a.degree| && a.chain.isHead[s.v]
    requires forall i :: 0 <= i < |front| ==> front[i].u != s.v && front[i].v != s.v
    requires v < |JoinedAll(a, front).chain.circ| && JoinedAll(a, front).chain.circ[v] == a.chain.circ[v]
    ensures var b, b' := JoinedAll(a, front), IncidentNets.Contracted(JoinedAll(a, front), s.u, s.v, s.back);
            && |b'.levels| == |b.levels| && |b'.chain.circ| == |b.chain.circ| && b'.chain.circ[v] == b.chain.circ[v]
            && forall w: nat :: w in a.chain.circ[v] && w < |b.levels| ==> b'.levels[w] == b.levels[w]
  {
    CirclesDisjoint(a.chain, v, s.v);
    UntouchedNode(a, front, s.v);
    ListsElsewhere(JoinedAll(a, front).levels, a.chain.circ[v], a.chain.circ[s.v], s.back);
  }

  lemma {:induction false} ReturnedFrame(levels: seq<seq<set<nat>>>, levels': seq<seq<set<nat>>>, c: seq<nat>)
    requires |levels| == |levels'| && forall w: nat :: w in c && w < |levels| ==> levels'[w] == levels[w]
    ensures NetsReturned(levels', c) == NetsReturned(levels, c)
  {
    if c != [] {
      assert c[|c| - 1] in c;
      ReturnedFrame(levels, levels', c[..|c| - 1]);
    }
  }

  /** Undoing a contraction reports the nets that it shared and those it had alone, whatever else is left. */
  lemma ReportsOf(a: Incidence, left: seq<Merge>, k: nat)
    requires CanJoinAll(a, left) && Independent(left) && k < |left| && MergeOk(a, left[k])
    ensures var b, v := JoinedAll(a, left), left[k].v;
            && v < |b.chain.circ| && NetsReturned(b.levels, b.chain.circ[v]) == left[k].back && NetsIn(b.levels, b.chain.circ[v]) == left[k].stay
            && Entries(b.levels, b.chain.circ[v]) == |left[k].stay|
  {
    hide CanJoinAll, JoinedAll, LevelsReduced, NetsIn, NetsReturned, Entries;
    PartnerLists(a, left, k);
    var b, v, back := JoinedAll(a, left), left[k].v, left[k].back;
    var c := a.chain.circ[v];
    var r := LevelsReduced(a.levels, c, back);
    NetsFrame(r, b.levels, c);
    EntriesFrame(r, b.levels, c);
    ReturnedFrame(r, b.levels, c);
    ReducedNets(a.levels, c, c, back);
    RemovedReturn(a.levels, c, c, back);
    assert (back + left[k].stay) - back == left[k].stay && (back + left[k].stay) * back == back;
  }

  // ---------- Weights and flags of the nodes ----------

  ghost predicate NodesFit(weight: seq<int>, enabled: seq<bool>, left: seq<Merge>) {
    |weight| == |enabled| && forall i :: 0 <= i < |left| ==> left[i].u < |weight| && left[i].v < |weight| && enabled[left[i].v]
  }

  ghost function WeightsLeft(weight: seq<int>, left: seq<Merge>): (r: seq<int>)
    requires forall i :: 0 <= i < |left| ==> left[i].u < |weight| && left[i].v < |weight|
    ensures |r| == |weight|
  {
    if left == [] then weight
    else
      var w, s := WeightsLeft(weight, left[..|left| - 1]), left[|left| - 1];
      w[s.u := w[s.u] + w[s.v]]
  }

  ghost function FlagsLeft(enabled: seq<bool>, left: seq<Merge>): (r: seq<bool>)
    requires forall i :: 0 <= i < |left| ==> left[i].v < |enabled|
    ensures |r| == |enabled|
  {
    if left == [] then enabled else FlagsLeft(enabled, left[..|left| - 1])[left[|left| - 1].v := false]
  }

  /** Partners keep the weight they had. */
  lemma {:induction false} PartnerWeight(weight: seq<int>, left: seq<Merge>, v: nat)
    requires v < |weight| && forall i :: 0 <= i < |left| ==> left[i].u < |weight| && left[i].v < |weight| && left[i].u != v
    ensures WeightsLeft(weight, left)[v] == weight[v]
  {
    if left != [] { PartnerWeight(weight, left[..|left| - 1], v); }
  }

  lemma FitsRemoving(weight: seq<int>, enabled: seq<bool>, left: seq<Merge>, k: nat)
    requires NodesFit(weight, enabled, left) && Independent(left) && k < |left|
    ensures NodesFit(weight, enabled, Removing(left, k))
  {
    RemovingMembers(left, k);
    var r := Removing(left, k);
    forall i | 0 <= i < |r| ensures r[i].u < |weight| && r[i].v < |weight| && enabled[r[i].v] {
      assert r[i] in r;
    }
  }

  /** The last contraction stays the last when an earlier one is taken out. */
  lemma RemovingEarlier(left: seq<Merge>, k: nat)
    requires k < |left| - 1
    ensures var n := |left| - 1; var r := Removing(left, k); |r| == n && r[n - 1] == left[n] && r[..n - 1] == Removing(left[..n], k)
  {
  }

  lemma PrefixFits(weight: seq<int>, enabled: seq<bool>, left: seq<Merge>, k: nat)
    requires NodesFit(weight, enabled, left) && Independent(left) && k < |left|
    ensures var n := |left| - 1; var front, s := left[..n], left[n];
            && Independent(front) && NodesFit(weight, enabled, front) && s.u < |weight| && s.v < |weight| == |enabled|
            && WeightsLeft(weight, left) == Heavier(WeightsLeft(weight, front), s) && FlagsLeft(enabled, left) == FlagsLeft(enabled, front)[s.v := false]
            && left[k].u < |weight| && left[k].v < |weight| && WeightsLeft(weight, left)[left[k].v] == weight[left[k].v]
            && (k < n ==> front[k] == left[k] && left[k].v != s.v && left[k].v != s.u && left[k].u != s.v)
  {
    PartnerWeight(weight, left, left[k].v);
  }

  function Heavier(w: seq<int>, s: Merge): (r: seq<int>)
    requires s.u < |w| && s.v < |w|
    ensures |r| == |w|
  {
    w[s.u := w[s.u] + w[s.v]]
  }

  function Lighter(w: seq<int>, s: Merge): (r: seq<int>)
    requires s.u < |w| && s.v < |w|
    ensures |r| == |w|
  {
    w[s.u := w[s.u] - w[s.v]]
  }

  lemma WeightsPass(w: seq<int>, m: Merge, s: Merge)
    requires m.u < |w| && m.v < |w| && s.u < |w| && s.v < |w| && m.v != s.v && m.v != s.u && m.u != s.v
    ensures Lighter(Heavier(w, s), m) == Heavier(Lighter(w, m), s)
  {
  }

  lemma WeightLast(weight: seq<int>, enabled: seq<bool>, left: seq<Merge>, k: nat)
    requires NodesFit(weight, enabled, left) && Independent(left) && k < |left| - 1 && NodesFit(weight, enabled, Removing(left, k))
    ensures var n := |left| - 1; var rest, s := Removing(left[..n], k), left[n];
            && NodesFit(weight, enabled, rest) && s.u < |weight| && s.v < |weight|
            && WeightsLeft(weight, Removing(left, k)) == Heavier(WeightsLeft(weight, rest), s)
            && FlagsLeft(enabled, Removing(left, k)) == FlagsLeft(enabled, rest)[s.v := false]
  {
    RemovingEarlier(left, k);
    PrefixFits(weight, enabled, left, k);
    FitsRemoving(weight, enabled, left[..|left| - 1], k);
    hide Removing, Independent, NodesFit;
  }

  lemma {:induction false} NodeReturns(weight: seq<int>, enabled: seq<bool>, left: seq<Merge>, k: nat)
    requires NodesFit(weight, enabled, left) && Independent(left) && k < |left| && NodesFit(weight, enabled, Removing(left, k))
    ensures left[k].u < |weight| && left[k].v < |weight| == |enabled|
    ensures WeightsLeft(weight, Removing(left, k)) == Lighter(WeightsLeft(weight, left), left[k])
    ensures FlagsLeft(enabled, Removing(left, k)) == FlagsLeft(enabled, left)[left[k].v := true]
    decreases |left|
  {
    hide Independent, NodesFit, Removing, WeightsLeft, FlagsLeft, Heavier, Lighter;
    var n := |left| - 1;
    PrefixFits(weight, enabled, left, k);
    if k == n {
      LastReturns(weight, enabled, left);
    } else {
      FitsRemoving(weight, enabled, left[..n], k);
      NodeReturns(weight, enabled, left[..n], k);
      WeightLast(weight, enabled, left, k);
      WeightsPass(WeightsLeft(weight, left[..n]), left[k], left[n]);
    }
  }

  lemma LastReturns(weight: seq<int>, enabled: seq<bool>, left: seq<Merge>)
    requires NodesFit(weight, enabled, left) && Independent(left) && left != []
    ensures var n := |left| - 1; var s := left[n];
            && NodesFit(weight, enabled, Removing(left, n)) && s.u < |weight| && s.v < |weight| == |enabled|
            && WeightsLeft(weight, Removing(left, n)) == Lighter(WeightsLeft(weight, left), s)
            && FlagsLeft(enabled, Removing(left, n)) == FlagsLeft(enabled, left)[s.v := true]
  {
    var n := |left| - 1;
    assert Removing(left, n) == left[..n];
    PartnerWeight(weight, left[..n], left[n].v);
    StillEnabled(enabled, left[..n], left[n].v);
  }

  lemma {:induction false} StillEnabled(enabled: seq<bool>, left: seq<Merge>, y: nat)
    requires y < |enabled| && forall i :: 0 <= i < |left| ==> left[i].v < |enabled| && left[i].v != y
    ensures FlagsLeft(enabled, left)[y] == enabled[y]
  {
    if left != [] { StillEnabled(enabled, left[..|left| - 1], y); }
  }

  // ---------- Pins ----------

  ghost function BackOf(left: seq<Merge>, e: nat): set<nat> {
    set s | s in left && e in s.back :: s.v
  }

  ghost function StayOf(left: seq<Merge>, e: nat): set<nat> {
    set s | s in left && e in s.stay :: s.v
  }

  ghost function RepsOf(left: seq<Merge>, e: nat): set<nat> {
    set s | s in left && e in s.stay :: s.u
  }

  /** Net e when only the contractions `left` were made; `resized` says that the pins that they removed are
      valid again all the same. */
  ghost function NetLeft(n: Net, e: nat, left: seq<Merge>, resized: bool): Net {
    var gone := if resized then {} else BackOf(left, e);
    Net(n.pins - StayOf(left, e) - gone + RepsOf(left, e), n.removed + gone, n.weight, n.enabled)
  }

  /** A partner was a pin of its nets, and took the place of its representative in those it had alone. */
  ghost predicate NetFits(n: Net, e: nat, left: seq<Merge>) {
    && (forall s {:trigger PinFits(n, e, s)} :: s in left ==> PinFits(n, e, s))
    && (forall s, s' :: s in left && s' in left && e in s.stay && e in s'.stay && s.u == s'.u ==> s == s')
  }

  ghost predicate PinFits(n: Net, e: nat, s: Merge) {
    && (e in s.back || e in s.stay ==> s.v in n.pins && s.v !in n.removed)
    && (e in s.stay ==> s.u !in n.pins && e !in s.back)
  }

  lemma PartnersAfter(left: seq<Merge>, k: nat, e: nat)
    requires Independent(left) && k < |left|
    ensures var r, s := Removing(left, k), left[k];
            && BackOf(r, e) == BackOf(left, e) - (if e in s.back then {s.v} else {})
            && StayOf(r, e) == StayOf(left, e) - (if e in s.stay then {s.v} else {})
  {
    RemovingMembers(left, k);
    var r, s := Removing(left, k), left[k];
    assert forall x :: x in left && x != s ==> x.v != s.v;
  }

  lemma RepsAfter(n: Net, left: seq<Merge>, k: nat, e: nat)
    requires Independent(left) && k < |left| && NetFits(n, e, left)
    ensures var r, s := Removing(left, k), left[k]; RepsOf(r, e) == RepsOf(left, e) - (if e in s.stay then {s.u} else {})
    ensures NetFits(n, e, Removing(left, k))
  {
    RemovingMembers(left, k);
    hide PinFits;
  }

  lemma NoPartnerRepresents(left: seq<Merge>, e: nat)
    requires Independent(left)
    ensures RepsOf(left, e) !! StayOf(left, e) + BackOf(left, e)
    ensures forall s :: s in left ==> s.v !in RepsOf(left, e) && s.u !in StayOf(left, e) + BackOf(left, e)
  {
  }

  lemma BackNotStay(n: Net, e: nat, left: seq<Merge>)
    requires Independent(left) && NetFits(n, e, left)
    ensures BackOf(left, e) !! StayOf(left, e) && BackOf(left, e) <= n.pins && BackOf(left, e) !! n.removed
  {
    forall s, s' | s in left && s' in left && e in s.back && e in s'.stay ensures s.v != s'.v {
      assert PinFits(n, e, s');
    }
    forall s | s in left && e in s.back ensures s.v in n.pins && s.v !in n.removed {
      assert PinFits(n, e, s);
    }
  }

  /** v alone had net e: it takes the place of u. */
  lemma PinTakesPlace(n: Net, e: nat, left: seq<Merge>, k: nat, resized: bool)
    requires Independent(left) && k < |left| && NetFits(n, e, left) && e in left[k].stay
    ensures var m, s := NetLeft(n, e, left, resized), left[k];
            && s.u in m.pins && s.v !in m.pins && s.v !in m.removed
            && NetLeft(n, e, Removing(left, k), resized) == m.(pins := m.pins - {s.u} + {s.v})
  {
    var s := left[k];
    assert PinFits(n, e, s);
    PartnersAfter(left, k, e);
    RepsAfter(n, left, k, e);
    NoPartnerRepresents(left, e);
    BackNotStay(n, e, left);
    hide Independent, NetFits, PinFits, Removing;
    assert s.v in StayOf(left, e) && s.u in RepsOf(left, e);
  }

  /** The first contraction undone that shared net e makes all pins of the batch valid in it. */
  lemma PinsAllReturn(n: Net, e: nat, left: seq<Merge>, k: nat)
    requires Independent(left) && k < |left| && NetFits(n, e, left) && e in left[k].back
    ensures var m, back := NetLeft(n, e, left, false), BackOf(left, e);
            && NetLeft(n, e, Removing(left, k), true) == Net(m.pins + back, m.removed - back, n.weight, n.enabled)
            && m.removed == n.removed + back && back !! n.removed && back !! m.pins && m.weight == n.weight && m.enabled == n.enabled
    ensures NetLeft(n, e, Removing(left, k), true) == NetLeft(n, e, left, true)
  {
    assert PinFits(n, e, left[k]);
    PartnersAfter(left, k, e);
    RepsAfter(n, left, k, e);
    NoPartnerRepresents(left, e);
    BackNotStay(n, e, left);
  }

  lemma OtherNet(n: Net, e: nat, left: seq<Merge>, k: nat, resized: bool)
    requires Independent(left) && k < |left| && NetFits(n, e, left) && e !in left[k].back && e !in left[k].stay
    ensures NetLeft(n, e, Removing(left, k), resized) == NetLeft(n, e, left, resized)
  {
    PartnersAfter(left, k, e);
    RepsAfter(n, left, k, e);
  }

  // ---------- A sequence of contractions as a batch ----------

  lemma LastContraction(h: Hypergraph, c: seq<Memento>)
    requires CanContractAll(h, c) && c != []
    ensures var front, m := c[..|c| - 1], c[|c| - 1];
            && CanContractAll(h, front) && Hypergraphs.CanContract(ContractedAll(h, front), m.u, m.v)
            && ContractedAll(h, c) == After(ContractedAll(h, front), m)
  {
    var front, m := c[..|c| - 1], c[|c| - 1];
    assert c == front + [m];
    ContractConcat(h, front, [m]);
    First(ContractedAll(h, front), m, []);
  }

  ghost function MergeAt(h: Hypergraph, m: Memento): Merge
    requires Hypergraphs.CanContract(h, m.u, m.v)
  {
    Merge(m.u, m.v, h.inc.NetsOf(m.u) * h.inc.NetsOf(m.v), h.inc.NetsOf(m.v) - h.inc.NetsOf(m.u))
  }

  ghost function MergesOf(h: Hypergraph, c: seq<Memento>): (r: seq<Merge>)
    requires CanContractAll(h, c)
    ensures |r| == |c| && forall i :: 0 <= i < |c| ==> r[i].u == c[i].u && r[i].v == c[i].v
  {
    if c == [] then []
    else
      LastContraction(h, c);
      MergesOf(h, c[..|c| - 1]) + [MergeAt(ContractedAll(h, c[..|c| - 1]), c[|c| - 1])]
  }

  /** No partner of the sequence is a representative in it. */
  ghost predicate RepsStay(c: seq<Memento>) {
    forall i, j :: 0 <= i < |c| && 0 <= j < |c| ==> c[i].u != c[j].v
  }

  lemma MergesIndependent(h: Hypergraph, c: seq<Memento>)
    requires CanContractAll(h, c) && RepsStay(c)
    ensures Independent(MergesOf(h, c))
  {
    forall i, j | 0 <= i < j < |c| ensures c[i].v != c[j].v {
      NodesOfSequence(h, c, j);
    }
  }

  /** The hypergraph when only the contractions `left` were made and the nets in `resized` have their pins back. */
  ghost function BatchState(h: Hypergraph, left: seq<Merge>, resized: set<nat>): Hypergraph
    requires CanJoinAll(h.inc, left) && NodesFit(h.weight, h.enabled, left)
  {
    Hypergraph(NetsLeft(h.nets, left, resized), WeightsLeft(h.weight, left), FlagsLeft(h.enabled, left), JoinedAll(h.inc, left))
  }

  ghost function NetsLeft(nets: seq<Net>, left: seq<Merge>, resized: set<nat>): (r: seq<Net>)
    ensures |r| == |nets|
  {
    seq(|nets|, e requires 0 <= e < |nets| => NetLeftAt(nets, left, resized, e))
  }

  ghost function NetLeftAt(nets: seq<Net>, left: seq<Merge>, resized: set<nat>, e: nat): Net
    requires e < |nets|
  {
    NetLeft(nets[e], e, left, e in resized)
  }

  /** What is known of the contractions of a batch that are left. */
  ghost predicate BatchOk(h: Hypergraph, left: seq<Merge>) {
    && CanJoinAll(h.inc, left) && Independent(left) && NodesFit(h.weight, h.enabled, left)
    && (forall s {:trigger MergeOk(h.inc, s)} :: s in left ==> MergeOk(h.inc, s))
    && (forall e: nat {:trigger NetFits(h.nets[e], e, left)} :: e < |h.nets| ==> NetFits(h.nets[e], e, left))
  }

  lemma NothingLeft(h: Hypergraph, resized: set<nat>)
    ensures CanJoinAll(h.inc, []) <==> h.inc.Shape()
    ensures h.inc.Shape() && |h.weight| == |h.enabled| ==> BatchState(h, [], resized) == h
  {
    forall e: nat | e < |h.nets| ensures NetsLeft(h.nets, [], resized)[e] == h.nets[e] {
      assert NetsLeft(h.nets, [], resized)[e] == NetLeftAt(h.nets, [], resized, e);
      NoPartners(h.nets[e], e, e in resized);
    }
    assert NetsLeft(h.nets, [], resized) == h.nets;
  }

  lemma NoPartners(n: Net, e: nat, resized: bool)
    ensures NetLeft(n, e, [], resized) == n
  {
    assert BackOf([], e) == {} && StayOf([], e) == {} && RepsOf([], e) == {};
  }

  /** One more contraction at the end of a batch. */
  lemma BatchGrows(h: Hypergraph, left: seq<Merge>, g: Hypergraph, m: Memento)
    requires h.Agree() && BatchOk(h, left) && g == BatchState(h, left, {}) && Hypergraphs.CanContract(g, m.u, m.v)
    requires Independent(left + [MergeAt(g, m)])
    ensures BatchOk(h, left + [MergeAt(g, m)]) && BatchState(h, left + [MergeAt(g, m)], {}) == After(g, m)
  {
    var s := MergeAt(g, m);
    var all := left + [s];
    assert all[..|all| - 1] == left;
    NodesContractable(g, m.u, m.v);
    PartnerUntouched(h, left, g, m);
    assert NodesFit(h.weight, h.enabled, all);
    forall e: nat | e < |h.nets| ensures NetFits(h.nets[e], e, all) && NetLeftAt(h.nets, all, {}, e) == After(g, m).nets[e] {
      NetGrows(h, left, g, m, e);
    }
    hide NetLeft, NetFits, Independent, MergeOk;
    forall x | x in all ensures MergeOk(h.inc, x) {
      assert x in left || x == s;
    }
    assert NetsLeft(h.nets, all, {}) == After(g, m).nets;
  }

  lemma PartnerUntouched(h: Hypergraph, left: seq<Merge>, g: Hypergraph, m: Memento)
    requires h.Agree() && BatchOk(h, left) && g == BatchState(h, left, {}) && Hypergraphs.CanContract(g, m.u, m.v)
    requires Independent(left + [MergeAt(g, m)])
    ensures m.u < |h.weight| == |h.enabled| && m.v < |h.weight| && h.enabled[m.v] && MergeOk(h.inc, MergeAt(g, m))
  {
    var s := MergeAt(g, m);
    var all := left + [s];
    assert forall i :: 0 <= i < |left| ==> all[i] == left[i] && left[i].u != m.v && left[i].v != m.v by {
      assert all[|left|] == s;
    }
    NodesContractable(g, m.u, m.v);
    HeadAtFirst(h.inc, left, m.v);
    UntouchedNode(h.inc, left, m.v);
    NetsFrame(h.inc.levels, g.inc.levels, h.inc.chain.circ[m.v]);
    EntriesFrame(h.inc.levels, g.inc.levels, h.inc.chain.circ[m.v]);
    StillEnabled(h.enabled, left, m.v);
    assert h.NodeOk(m.v);
  }

  lemma NetGrows(h: Hypergraph, left: seq<Merge>, g: Hypergraph, m: Memento, e: nat)
    requires h.Agree() && BatchOk(h, left) && g == BatchState(h, left, {}) && Hypergraphs.CanContract(g, m.u, m.v) && e < |h.nets|
    requires Independent(left + [MergeAt(g, m)]) && MergeOk(h.inc, MergeAt(g, m)) && m.v < |h.enabled| && h.enabled[m.v]
    ensures var all := left + [MergeAt(g, m)];
            NetFits(h.nets[e], e, all) && NetLeft(h.nets[e], e, all, false) == After(g, m).nets[e]
  {
    var s := MergeAt(g, m);
    assert g.AgreeAt(m.u, e) && g.AgreeAt(m.v, e) && h.AgreeAt(m.v, e) && h.PinsOk(e);
    assert g.nets[e] == NetLeftAt(h.nets, left, {}, e);
    assert After(g, m).nets[e] == ContractedAt(g.nets, g.inc.NetsOf(m.v), m.u, m.v, e);
    hide Hypergraph.Agree, CanJoinAll, JoinedAll, NodesFit, Incidence.NetsOf;
    OneMorePartner(h.nets[e], e, left, s);
  }

  lemma OneMorePartner(n: Net, e: nat, left: seq<Merge>, s: Merge)
    requires NetFits(n, e, left) && Independent(left + [s]) && s.back !! s.stay
    requires e in s.back + s.stay ==> s.v in n.pins && s.v !in n.removed
    requires e in s.back ==> s.u in NetLeft(n, e, left, false).pins
    requires e in s.stay ==> s.u !in NetLeft(n, e, left, false).pins
    ensures NetFits(n, e, left + [s])
    ensures NetLeft(n, e, left + [s], false)
            == if e in s.back + s.stay then ContractedNet(NetLeft(n, e, left, false), s.u, s.v) else NetLeft(n, e, left, false)
  {
    NoPartnerRepresents(left + [s], e);
    assert s in left + [s];
    FitsOneMore(n, e, left, s);
    PartnersWith(left, s, e);
    hide Independent, PinFits, NetFits, BackOf, StayOf, RepsOf;
    MorePins(n.pins, StayOf(left, e), BackOf(left, e), RepsOf(left, e), s, e);
  }

  lemma FitsOneMore(n: Net, e: nat, left: seq<Merge>, s: Merge)
    requires NetFits(n, e, left) && s.back !! s.stay
    requires e in s.back + s.stay ==> s.v in n.pins && s.v !in n.removed
    requires e in s.stay ==> s.u !in NetLeft(n, e, left, false).pins && s.u !in StayOf(left + [s], e) + BackOf(left + [s], e)
    ensures NetFits(n, e, left + [s])
  {
    PartnersWith(left, s, e);
    var all := left + [s];
    assert forall x :: x in all <==> x in left || x == s;
    forall x | x in all ensures PinFits(n, e, x) {
      if x != s { assert PinFits(n, e, x); }
    }
    hide PinFits;
    forall x | x in left && e in x.stay && e in s.stay ensures x.u != s.u {
      assert x.u in RepsOf(left, e);
    }
  }

  lemma MorePins(pins: set<nat>, stay: set<nat>, back: set<nat>, reps: set<nat>, s: Merge, e: nat)
    requires s.v !in reps && s.u != s.v && s.back !! s.stay
    requires e in s.back ==> s.u in pins - stay - back + reps
    ensures var (b, t) := (if e in s.back then {s.v} else {}, if e in s.stay then {s.v} else {});
            pins - (stay + t) - (back + b) + (reps + if e in s.stay then {s.u} else {})
            == if e in s.back + s.stay then (pins - stay - back + reps) - {s.v} + {s.u} else pins - stay - back + reps
  {
  }

  lemma PartnersWith(left: seq<Merge>, s: Merge, e: nat)
    ensures BackOf(left + [s], e) == BackOf(left, e) + (if e in s.back then {s.v} else {})
    ensures StayOf(left + [s], e) == StayOf(left, e) + (if e in s.stay then {s.v} else {})
    ensures RepsOf(left + [s], e) == RepsOf(left, e) + (if e in s.stay then {s.u} else {})
  {
    assert forall x :: x in left + [s] <==> x in left || x == s;
  }

  /** A sequence of contractions without chains is a batch of which everything is left. */
  lemma {:induction false} SequenceIsBatch(h: Hypergraph, c: seq<Memento>)
    requires CanContractAll(h, c) && RepsStay(c)
    ensures BatchOk(h, MergesOf(h, c)) && ContractedAll(h, c) == BatchState(h, MergesOf(h, c), {})
  {
    hide BatchState, Hypergraphs.CanContract, After;
    MergesIndependent(h, c);
    if c == [] {
      BatchOfNone(h);
    } else {
      LastContraction(h, c);
      var front, m := c[..|c| - 1], c[|c| - 1];
      SequenceIsBatch(h, front);
      BatchGrows(h, MergesOf(h, front), ContractedAll(h, front), m);
    }
  }

  lemma BatchOfNone(h: Hypergraph)
    requires h.Agree()
    ensures BatchOk(h, []) && BatchState(h, [], {}) == h
  {
    NothingLeft(h, {});
  }

  /** Undoing one more contraction leaves a batch again. */
  lemma BatchShrinks(h: Hypergraph, left: seq<Merge>, k: nat)
    requires BatchOk(h, left) && k < |left|
    ensures BatchOk(h, Removing(left, k))
  {
    var r := Removing(left, k);
    var pos := UndoInTheMiddle(h.inc, left, k);
    RemovingMembers(left, k);
    FitsRemoving(h.weight, h.enabled, left, k);
    hide CanJoinAll, JoinedAll, Independent, NodesFit, Removing, MergeOk, NetFits;
    forall e: nat | e < |h.nets| ensures NetFits(h.nets[e], e, r) {
      assert NetFits(h.nets[e], e, left);
      RepsAfter(h.nets[e], left, k, e);
    }
    forall s | s in r ensures MergeOk(h.inc, s) {
      assert s in left;
    }
  }

  /** With the nets that a contraction shared already resized, it only remains to give v its place in the
      nets that it had alone. */
  lemma OnlyOwnNets(h: Hypergraph, left: seq<Merge>, k: nat, resized: set<nat>, e: nat)
    requires BatchOk(h, left) && k < |left| && e < |h.nets| && left[k].back <= resized && e !in left[k].stay
    ensures NetLeftAt(h.nets, Removing(left, k), resized, e) == NetLeftAt(h.nets, left, resized, e)
  {
    assert NetFits(h.nets[e], e, left);
    hide CanJoinAll, JoinedAll, NodesFit, MergeOk, NetFits, Independent, NetLeft;
    if e in left[k].back {
      PinsAllReturn(h.nets[e], e, left, k);
    } else {
      OtherNet(h.nets[e], e, left, k, e in resized);
    }
  }

  // ---------- Batch after batch ----------

  /** Of two contractions, the later one onto the same representative is not undone in a later batch, and the
      one of the representative itself is undone in an earlier batch. Batches are undone from the largest index
      down. */
  ghost predicate PairInOrder(index: seq<nat>, a: Memento, b: Memento) {
    && a.v < |index| && b.v < |index|
    && (b.u == a.u ==> index[a.v] <= index[b.v])
    && (b.v == a.u ==> index[a.v] < index[b.v])
  }

  ghost predicate InBatchOrder(index: seq<nat>, c: seq<Memento>) {
    c == [] || (c[0].v < |index| && (forall m :: m in c[1..] ==> PairInOrder(index, c[0], m)) && InBatchOrder(index, c[1..]))
  }

  ghost function FromBatch(index: seq<nat>, b: nat): set<nat> {
    set v: nat | v < |index| && index[v] >= b
  }

  /** The contractions of all batches below b, in the order in which they were made. */
  ghost function Remaining(c: seq<Memento>, index: seq<nat>, b: nat): seq<Memento> {
    Outside(c, FromBatch(index, b))
  }

  ghost function BatchOf(c: seq<Memento>, index: seq<nat>, b: nat): seq<Memento> {
    Inside(Remaining(c, index, b + 1), FromBatch(index, b))
  }

  lemma {:induction false} PairsInOrder(index: seq<nat>, c: seq<Memento>, i: nat, j: nat)
    requires InBatchOrder(index, c) && i < j < |c|
    ensures PairInOrder(index, c[i], c[j])
  {
    if i == 0 {
      assert c[1..][j - 1] == c[j];
    } else {
      PairsInOrder(index, c[1..], i - 1, j - 1);
    }
  }

  lemma {:induction false} AllIndexed(index: seq<nat>, c: seq<Memento>)
    requires InBatchOrder(index, c)
    ensures forall m :: m in c ==> m.v < |index|
  {
    if c != [] {
      AllIndexed(index, c[1..]);
      assert c == [c[0]] + c[1..];
    }
  }

  lemma {:induction false} PartsInOrder(index: seq<nat>, c: seq<Memento>, s: set<nat>)
    requires InBatchOrder(index, c)
    ensures InBatchOrder(index, Outside(c, s)) && InBatchOrder(index, Inside(c, s))
  {
    if c != [] {
      PartsInOrder(index, c[1..], s);
      OutsideMembers(c[1..], s);
      InsideMembers(c[1..], s);
      var out, ins := Outside(c[1..], s), Inside(c[1..], s);
      assert ([c[0]] + out)[1..] == out && ([c[0]] + ins)[1..] == ins;
    }
  }

  lemma {:induction false} OutsideTwice(c: seq<Memento>, s: set<nat>, t: set<nat>)
    requires s <= t
    ensures Outside(Outside(c, s), t) == Outside(c, t)
  {
    if c != [] {
      OutsideTwice(c[1..], s, t);
      var out := Outside(c[1..], s);
      assert ([c[0]] + out)[1..] == out;
    }
  }

  lemma {:induction false} NothingInside(c: seq<Memento>, s: set<nat>)
    requires forall m :: m in c ==> m.v !in s
    ensures Outside(c, s) == c
  {
    if c != [] {
      assert c == [c[0]] + c[1..];
      NothingInside(c[1..], s);
    }
  }

  /** Whatever is left in front of a batch could have been contracted alone. */
  lemma RemainingPossible(h: Hypergraph, c: seq<Memento>, index: seq<nat>, b: nat)
    requires CanContractAll(h, c) && InBatchOrder(index, c)
    ensures CanContractAll(h, Remaining(c, index, b))
  {
    var s := FromBatch(index, b);
    BatchesSeparable(index, c, b);
    SetApart(h, c, s);
    ContractConcat(h, Outside(c, s), Inside(c, s));
  }

  lemma BatchesSeparable(index: seq<nat>, c: seq<Memento>, b: nat)
    requires InBatchOrder(index, c)
    ensures Separable(c, FromBatch(index, b))
  {
    forall i, j | 0 <= i < j < |c| && c[i].v in FromBatch(index, b) && c[j].v !in FromBatch(index, b) ensures c[j].u != c[i].u && c[j].v != c[i].u {
      PairsInOrder(index, c, i, j);
    }
  }

  /** In front of batch b the hypergraph is the one in which only the contractions of the batches up to b were
      made; those of batch b could have been made last, and its partners are no representatives in it. */
  lemma LastBatch(h: Hypergraph, c: seq<Memento>, index: seq<nat>, b: nat)
    requires CanContractAll(h, c) && InBatchOrder(index, c)
    ensures CanContractAll(h, Remaining(c, index, b)) && CanContractAll(h, Remaining(c, index, b + 1))
    ensures var base := ContractedAll(h, Remaining(c, index, b));
            && CanContractAll(base, BatchOf(c, index, b)) && RepsStay(BatchOf(c, index, b))
            && ContractedAll(h, Remaining(c, index, b + 1)) == ContractedAll(base, BatchOf(c, index, b))
    ensures forall m :: m in BatchOf(c, index, b) <==> m in c && m.v < |index| && index[m.v] == b
  {
    var s, more := FromBatch(index, b), Remaining(c, index, b + 1);
    RemainingPossible(h, c, index, b);
    RemainingPossible(h, c, index, b + 1);
    PartsInOrder(index, c, FromBatch(index, b + 1));
    BatchesSeparable(index, more, b);
    SetApart(h, more, s);
    OutsideTwice(c, FromBatch(index, b + 1), s);
    hide CanContractAll, ContractedAll, InBatchOrder;
    ContractConcat(h, Outside(more, s), Inside(more, s));
    BatchMembers(c, index, b);
    RepsStayInBatch(h, c, index, b);
  }

  lemma BatchMembers(c: seq<Memento>, index: seq<nat>, b: nat)
    requires InBatchOrder(index, c)
    ensures forall m :: m in BatchOf(c, index, b) <==> m in c && m.v < |index| && index[m.v] == b
  {
    AllIndexed(index, c);
    OutsideMembers(c, FromBatch(index, b + 1));
    InsideMembers(Remaining(c, index, b + 1), FromBatch(index, b));
  }

  lemma RepsStayInBatch(h: Hypergraph, c: seq<Memento>, index: seq<nat>, b: nat)
    requires CanContractAll(h, c) && InBatchOrder(index, c) && CanContractAll(h, Remaining(c, index, b)) && CanContractAll(ContractedAll(h, Remaining(c, index, b)), BatchOf(c, index, b))
    ensures RepsStay(BatchOf(c, index, b))
  {
    var base, d := ContractedAll(h, Remaining(c, index, b)), BatchOf(c, index, b);
    PartsInOrder(index, c, FromBatch(index, b + 1));
    PartsInOrder(index, Remaining(c, index, b + 1), FromBatch(index, b));
    BatchMembers(c, index, b);
    hide CanContractAll, ContractedAll, InBatchOrder, BatchOf;
    forall i, j | 0 <= i < |d| && 0 <= j < |d| ensures d[i].u != d[j].v {
      NodesOfSequence(base, d, i);
      if i < j {
        assert d[i] in d && d[j] in d;
        PairsInOrder(index, d, i, j);
      }
    }
  }

  /** All contractions are left at the beginning, and none at the end. */
  lemma RemainingEnds(c: seq<Memento>, index: seq<nat>, lo: nat, hi: nat)
    requires forall m :: m in c ==> m.v < |index| && lo <= index[m.v] < hi
    ensures Remaining(c, index, hi) == c && Remaining(c, index, lo) == []
  {
    NothingInside(c, FromBatch(index, hi));
    OutsideMembers(c, FromBatch(index, lo));
    NoMembers(Remaining(c, index, lo));
  }

  lemma NoMembers(r: seq<Memento>)
    ensures (forall m :: m !in r) ==> r == []
  {
    if r != [] { assert r[0] in r; }
  }

  /** Removed pins were removed before, or are partners of the sequence. */
  lemma {:induction false} RemovedPins(h: Hypergraph, c: seq<Memento>, e: nat)
    requires CanContractAll(h, c) && e < |h.nets|
    ensures |ContractedAll(h, c).nets| == |h.nets|
    ensures forall p :: p in ContractedAll(h, c).nets[e].removed ==> p in h.nets[e].removed || exists m :: m in c && m.v == p
    decreases |c|
  {
    if c != [] {
      assert After(h, c[0]).nets[e] == ContractedAt(h.nets, h.inc.NetsOf(c[0].v), c[0].u, c[0].v, e);
      RemovedPins(After(h, c[0]), c[1..], e);
      hide Hypergraph.Agree, Hypergraphs.CanContract;
      forall p | p in ContractedAll(h, c).nets[e].removed && p !in h.nets[e].removed ensures exists m :: m in c && m.v == p {
        if p in After(h, c[0]).nets[e].removed {
          assert c[0] in c;
        } else {
          var m :| m in c[1..] && m.v == p;
          assert m in c;
        }
      }
    }
  }

  /** Between two batches both representations of the hypergraph agree. */
  lemma {:induction false} AgreesBetweenBatches(h: Hypergraph, c: seq<Memento>, index: seq<nat>, b: nat)
    requires CanContractAll(h, c) && InBatchOrder(index, c)
    ensures CanContractAll(h, Remaining(c, index, b)) && ContractedAll(h, Remaining(c, index, b)).Agree()
  {
    RemainingPossible(h, c, index, b);
    SequenceAgrees(h, Remaining(c, index, b));
  }

  lemma {:induction false} SequenceAgrees(h: Hypergraph, c: seq<Memento>)
    requires CanContractAll(h, c)
    ensures ContractedAll(h, c).Agree()
    decreases |c|
  {
    hide Hypergraph.Agree;
    if c != [] { SequenceAgrees(After(h, c[0]), c[1..]); }
  }

  /** Why siblings must be undone in the order of their contractions: v, then w were contracted into u. If v is
      undone first, in a batch of its own, the hypergraph is the one in which only w was contracted exactly if
      no net of both v and w misses u. */
  lemma EarlierSiblingFirst(h: Hypergraph, u: nat, v: nat, w: nat)
    requires CanContractAll(h, [Memento(u, v), Memento(u, w)])
    ensures var left := MergesOf(h, [Memento(u, v), Memento(u, w)]);
            && |left| == 2 && CanJoinAll(h.inc, [left[1]]) && NodesFit(h.weight, h.enabled, [left[1]]) && Hypergraphs.CanContract(h, u, w)
            && u < |h.inc.chain.circ| && v < |h.inc.chain.circ| && w < |h.inc.chain.circ|
            && (BatchState(h, [left[1]], {}) == After(h, Memento(u, w)) <==>
                forall e :: e in h.inc.NetsOf(v) && e in h.inc.NetsOf(w) ==> e in h.inc.NetsOf(u))
  {
    var c := [Memento(u, v), Memento(u, w)];
    var left := MergesOf(h, c);
    NodesOfSequence(h, c, 0);
    NodesOfSequence(h, c, 1);
    SequenceIsBatch(h, c);
    BatchShrinks(h, left, 0);
    assert Removing(left, 0) == [left[1]];
    SecondMerge(h, u, v, w);
    OnlySecond(h, u, v, w, left[1]);
  }

  /** What the second contraction shared: the nets of u by then are those of u and v. */
  lemma SecondMerge(h: Hypergraph, u: nat, v: nat, w: nat)
    requires CanContractAll(h, [Memento(u, v), Memento(u, w)])
    ensures u < |h.inc.chain.circ| && v < |h.inc.chain.circ| && w < |h.inc.chain.circ| && Hypergraphs.CanContract(h, u, w) && w != v
    ensures var s := MergesOf(h, [Memento(u, v), Memento(u, w)])[1];
            && s.u == u && s.v == w && s.back == (h.inc.NetsOf(u) + h.inc.NetsOf(v)) * h.inc.NetsOf(w) && s.stay == h.inc.NetsOf(w) - (h.inc.NetsOf(u) + h.inc.NetsOf(v))
  {
    var m, n := Memento(u, v), Memento(u, w);
    var c := [m, n];
    NodesOfSequence(h, c, 0);
    NodesOfSequence(h, c, 1);
    assert c[..1] == [m] && [m][..0] == [] && c[1..] == [n];
    First(h, m, [n]);
    NodesContractable(h, u, v);
    NodesContractable(h, u, w);
    IncidentNets.ContractedShape(h.inc, u, v, h.inc.NetsOf(u) * h.inc.NetsOf(v));
    ContractionMerges(h.inc, u, v, h.inc.NetsOf(u) * h.inc.NetsOf(v));
    NetsUnchanged(h, u, v, w);
    LastContraction(h, c);
    First(h, m, []);
    assert MergesOf(h, c)[1] == MergeAt(ContractedAll(h, [m]), n);
  }

  lemma OnlySecond(h: Hypergraph, u: nat, v: nat, w: nat, s: Merge)
    requires h.Agree() && Hypergraphs.CanContract(h, u, w) && v < |h.enabled| && h.enabled[v] && u != w && v != w && v != u
    requires u < |h.inc.chain.circ| && v < |h.inc.chain.circ| && w < |h.inc.chain.circ|
    requires CanJoinAll(h.inc, [s]) && NodesFit(h.weight, h.enabled, [s]) && s.u == u && s.v == w
    requires s.back == (h.inc.NetsOf(u) + h.inc.NetsOf(v)) * h.inc.NetsOf(w) && s.stay == h.inc.NetsOf(w) - (h.inc.NetsOf(u) + h.inc.NetsOf(v))
    ensures BatchState(h, [s], {}) == After(h, Memento(u, w)) <==>
              forall e :: e in h.inc.NetsOf(v) && e in h.inc.NetsOf(w) ==> e in h.inc.NetsOf(u)
  {
    var m := Memento(u, w);
    if e: nat :| e in h.inc.NetsOf(v) && e in h.inc.NetsOf(w) && e !in h.inc.NetsOf(u) {
      LostRepresentative(h, u, v, w, s, e);
    } else {
      assert s == MergeAt(h, m);
      NothingLeft(h, {});
      assert [] + [s] == [s];
      BatchOfNone(h);
      BatchGrows(h, [], h, m);
    }
  }

  /** Net e has lost u, although w is still contracted into it. */
  lemma LostRepresentative(h: Hypergraph, u: nat, v: nat, w: nat, s: Merge, e: nat)
    requires h.Agree() && Hypergraphs.CanContract(h, u, w) && v < |h.enabled| && h.enabled[v]
    requires u < |h.inc.chain.circ| && v < |h.inc.chain.circ| && w < |h.inc.chain.circ|
    requires CanJoinAll(h.inc, [s]) && NodesFit(h.weight, h.enabled, [s]) && s.u == u && s.v == w
    requires s.back == (h.inc.NetsOf(u) + h.inc.NetsOf(v)) * h.inc.NetsOf(w) && s.stay == h.inc.NetsOf(w) - (h.inc.NetsOf(u) + h.inc.NetsOf(v))
    requires e in h.inc.NetsOf(v) && e in h.inc.NetsOf(w) && e !in h.inc.NetsOf(u)
    ensures e < |h.nets| && u !in BatchState(h, [s], {}).nets[e].pins && u in After(h, Memento(u, w)).nets[e].pins
  {
    assert h.AgreeAt(u, e) && h.AgreeAt(v, e) && h.AgreeAt(w, e);
    assert BatchState(h, [s], {}).nets[e] == NetLeftAt(h.nets, [s], {}, e);
    assert RepsOf([s], e) == {};
    assert After(h, Memento(u, w)).nets[e] == ContractedAt(h.nets, h.inc.NetsOf(w), u, w, e);
  }
}
