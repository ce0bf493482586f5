/** In which order a thread schedules: level by level, largest subtree first, and siblings only together if they meet. */
module ScheduleOrder {
  import opened BatchSchedule
  import B = BatchThreads

  /** How many contractions of the version lie above the children of u. */
  ghost function Level(h: Hierarchy, ver: nat, u: nat): nat
    requires h.Valid() && u < |h.parent|
    decreases h.depth[u]
  {
    assert h.ParentOk(u);
    if h.parent[u] == u || h.version[u] != ver then 0 else Level(h, ver, h.parent[u]) + 1
  }

  // ---------- The laws ----------

  /** The first entry of a group. */
  ghost predicate HasFirst(h: Hierarchy, out: seq<Assignment>, g: Group) {
    g.lo < |out| && out[g.lo].u < |h.parent| && out[g.lo].v < |h.subtreeSize|
  }

  /** No group from i up to j places children of u. */
  ghost predicate NoneOf(h: Hierarchy, out: seq<Assignment>, groups: seq<Group>, i: nat, j: nat, u: nat) {
    forall k :: i <= k < j && k < |groups| && groups[k].lo < |out| ==> out[groups[k].lo].u != u
  }

  /** Group j does not come from a higher level than group i before it; and if it was ready to be chosen when
      group i was, the subtree of the first node of group i is at least as large. */
  ghost predicate LargerFirst(h: Hierarchy, ver: nat, out: seq<Assignment>, groups: seq<Group>, i: nat, j: nat) {
    h.Valid() && i < |groups| && j < |groups| && HasFirst(h, out, groups[i]) && HasFirst(h, out, groups[j]) &&
    var (a, b) := (out[groups[i].lo], out[groups[j].lo]);
    && Level(h, ver, a.u) <= Level(h, ver, b.u)
    && (Level(h, ver, a.u) == Level(h, ver, b.u) && NoneOf(h, out, groups, i, j, b.u) ==> h.subtreeSize[a.v] >= h.subtreeSize[b.v])
  }

  /** Entry k of the group places the child of u at position from + k. */
  ghost predicate Places(h: Hierarchy, out: seq<Assignment>, lo: nat, u: nat, from: nat, k: nat) {
    && lo + k < |out| && u < |h.childs| && from + k < |h.childs[u]|
    && out[lo + k].u == u && out[lo + k].v == h.childs[u][from + k]
  }

  ghost predicate DoMeet(h: Hierarchy, u: nat, i: nat, j: nat)
    requires h.Shape() && u < |h.childs| && i < |h.childs[u]| && j < |h.childs[u]|
  {
    h.interval[h.childs[u][i]].Meets(h.interval[h.childs[u][j]])
  }

  ghost predicate MeetsNone(h: Hierarchy, u: nat, from: nat, until: nat)
    requires h.Shape() && u < |h.childs| && until < |h.childs[u]|
  {
    forall i: nat {:trigger DoMeet(h, u, i, until)} :: from <= i < until ==> !DoMeet(h, u, i, until)
  }

  /** A group are siblings in a row, each of which but the first meets one before it, and the next sibling of the
      version meets none of them. */
  ghost predicate GroupIsTight(h: Hierarchy, ver: nat, out: seq<Assignment>, g: Group, u: nat, from: nat) {
    h.Valid() && u < |h.parent| && g.num > 0 && from + g.num <= |h.childs[u]|
    && (forall k: nat {:trigger Places(h, out, g.lo, u, from, k)} :: k < g.num ==> Places(h, out, g.lo, u, from, k))
    && (forall i: nat {:trigger MeetsEarlier(h, u, from, i)} :: from < i < from + g.num ==> MeetsEarlier(h, u, from, i))
    && (h.More(u, ver, from + g.num) ==> MeetsNone(h, u, from, from + g.num))
  }

  ghost predicate Tight(h: Hierarchy, ver: nat, out: seq<Assignment>, g: Group) {
    exists u: nat, from: nat :: GroupIsTight(h, ver, out, g, u, from)
  }

  // ---------- The invariant ----------

  ghost predicate ElementOk(h: Hierarchy, ver: nat, e: Element, level: nat) {
    h.Valid() && e.u < |h.parent| && Level(h, ver, e.u) == level && e.pos < |h.childs[e.u]|
    && e.objective == h.subtreeSize[h.childs[e.u][e.pos]]
  }

  ghost predicate OfLevel(h: Hierarchy, ver: nat, q: seq<Element>, level: nat) {
    forall i :: 0 <= i < |q| ==> ElementOk(h, ver, q[i], level)
  }

  /** What is queued and was ready when group i was chosen is no larger. */
  ghost predicate NoLarger(h: Hierarchy, ver: nat, out: seq<Assignment>, groups: seq<Group>, i: nat, e: Element, level: nat) {
    h.Valid() && i < |groups| && HasFirst(h, out, groups[i]) &&
    (Level(h, ver, out[groups[i].lo].u) == level && NoneOf(h, out, groups, i, |groups|, e.u) ==> h.subtreeSize[out[groups[i].lo].v] >= e.objective)
  }

  ghost predicate Ranked(h: Hierarchy, ver: nat, w: Work, level: nat) {
    && h.Valid() && OfLevel(h, ver, w.pq, level) && OfLevel(h, ver, w.next, level + 1)
    && (forall i: nat {:trigger w.groups[i]} :: i < |w.groups| ==> HasFirst(h, w.out, w.groups[i]) && Level(h, ver, w.out[w.groups[i].lo].u) <= level)
    && (forall i: nat, j: nat {:trigger LargerFirst(h, ver, w.out, w.groups, i, j)} :: i < j < |w.groups| ==> LargerFirst(h, ver, w.out, w.groups, i, j))
    && (forall i: nat, m: nat {:trigger NoLarger(h, ver, w.out, w.groups, i, w.pq[m], level)} :: i < |w.groups| && m < |w.pq| ==> NoLarger(h, ver, w.out, w.groups, i, w.pq[m], level))
    && (forall i: nat {:trigger Tight(h, ver, w.out, w.groups[i])} :: i < |w.groups| ==> Tight(h, ver, w.out, w.groups[i]))
  }

  // ---------- Queues ----------

  lemma EnterOneLevel(h: Hierarchy, ver: nat, q: seq<Element>, u: nat, level: nat)
    requires h.Valid() && u < |h.parent| && Level(h, ver, u) == level && OfLevel(h, ver, q, level)
    ensures OfLevel(h, ver, EnterOne(h, ver, q, u), level)
  {
  }

  lemma {:induction false} EnterAllLevel(h: Hierarchy, ver: nat, q: seq<Element>, u: nat, from: nat, until: nat)
    requires h.Valid() && u < |h.parent| && from <= until <= |h.childs[u]| && OfLevel(h, ver, q, Level(h, ver, u) + 1)
    requires forall i :: from <= i < until ==> h.version[h.childs[u][i]] == ver
    ensures OfLevel(h, ver, EnterAll(h, ver, q, u, from, until), Level(h, ver, u) + 1)
    decreases until
  {
    if from < until {
      EnterAllLevel(h, ver, q, u, from, until - 1);
      var v := h.childs[u][until - 1];
      assert h.ChildsOk(u);
      EnterOneLevel(h, ver, EnterAll(h, ver, q, u, from, until - 1), v, Level(h, ver, u) + 1);
    }
  }

  lemma {:induction false} RootsLevel(h: Hierarchy, ver: nat, roots: seq<nat>)
    requires h.Valid() && (forall r :: r in roots ==> r < |h.parent| && h.version[r] != ver)
    ensures OfLevel(h, ver, QueueOfRoots(h, ver, roots), 0)
  {
    if roots != [] {
      var front, r := roots[..|roots| - 1], roots[|roots| - 1];
      assert roots == front + [r] && r in roots;
      assert forall x :: x in front ==> x in roots;
      RootsLevel(h, ver, front);
      EnterOneLevel(h, ver, QueueOfRoots(h, ver, front), r, 0);
    }
  }

  lemma StartRanked(h: Hierarchy, ver: nat, roots: seq<nat>)
    requires h.Valid() && (forall r :: r in roots ==> r < |h.parent| && h.version[r] != ver)
    ensures Ranked(h, ver, StartWork(h, ver, roots), 0)
  {
    RootsLevel(h, ver, roots);
  }

  // ---------- One turn ----------

  /** The new group, and the entries it adds. */
  ghost predicate Added(h: Hierarchy, ver: nat, w: Work, k: nat, until: nat, hull: Interval, out: seq<Assignment>, groups: seq<Group>) {
    && Chosen(h, ver, w, k, until, hull) && |out| == |w.out| + (until - w.pq[k].pos) && out[..|w.out|] == w.out
    && (forall i: nat {:trigger Places(h, out, |w.out|, w.pq[k].u, w.pq[k].pos, i)} :: i < until - w.pq[k].pos ==> Places(h, out, |w.out|, w.pq[k].u, w.pq[k].pos, i))
    && |groups| == |w.groups| + 1 && groups[..|w.groups|] == w.groups
    && groups[|w.groups|].lo == |w.out| && groups[|w.groups|].num == until - w.pq[k].pos
  }

  lemma TurnAdds(h: Hierarchy, ver: nat, w: Work, k: nat, until: nat, hull: Interval, b: nat, base: nat)
    requires Chosen(h, ver, w, k, until, hull)
    ensures var w' := Turned(h, ver, w, k, until, hull, b, base); Added(h, ver, w, k, until, hull, w'.out, w'.groups)
  {
    var w' := Turned(h, ver, w, k, until, hull, b, base);
    assert w'.out[..|w.out|] == w.out && w'.groups[..|w.groups|] == w.groups;
  }

  lemma OldFirst(h: Hierarchy, ver: nat, w: Work, k: nat, until: nat, hull: Interval, out: seq<Assignment>, groups: seq<Group>, i: nat)
    requires Added(h, ver, w, k, until, hull, out, groups) && i < |w.groups| && w.groups[i].lo < |w.out|
    ensures i < |groups| && groups[i] == w.groups[i] && groups[i].lo < |out| && out[groups[i].lo] == w.out[w.groups[i].lo]
  {
    assert groups[i] == groups[..|w.groups|][i] && out[groups[i].lo] == out[..|w.out|][groups[i].lo];
  }

  lemma NewFirst(h: Hierarchy, ver: nat, w: Work, k: nat, until: nat, hull: Interval, out: seq<Assignment>, groups: seq<Group>)
    requires Added(h, ver, w, k, until, hull, out, groups)
    ensures var g := groups[|w.groups|]; HasFirst(h, out, g) && out[g.lo].u == w.pq[k].u && out[g.lo].v == h.childs[w.pq[k].u][w.pq[k].pos]
  {
    assert Places(h, out, |w.out|, w.pq[k].u, w.pq[k].pos, 0);
  }

  lemma OldNone(h: Hierarchy, ver: nat, w: Work, k: nat, until: nat, hull: Interval, out: seq<Assignment>, groups: seq<Group>, i: nat, j: nat, u: nat)
    requires Added(h, ver, w, k, until, hull, out, groups) && j <= |w.groups|
    requires forall i: nat :: i < |w.groups| ==> w.groups[i].lo < |w.out|
    ensures NoneOf(h, out, groups, i, j, u) ==> NoneOf(h, w.out, w.groups, i, j, u)
  {
    if NoneOf(h, out, groups, i, j, u) {
      forall m: nat | i <= m < j && m < |w.groups| && w.groups[m].lo < |w.out| ensures w.out[w.groups[m].lo].u != u {
        OldFirst(h, ver, w, k, until, hull, out, groups, m);
      }
    }
  }

  lemma PairsAfter(h: Hierarchy, ver: nat, w: Work, level: nat, k: nat, until: nat, hull: Interval, out: seq<Assignment>, groups: seq<Group>, i: nat, j: nat)
    requires Ranked(h, ver, w, level) && Added(h, ver, w, k, until, hull, out, groups) && i < j <= |w.groups|
    ensures LargerFirst(h, ver, out, groups, i, j)
  {
    assert HasFirst(h, w.out, w.groups[i]);
    OldFirst(h, ver, w, k, until, hull, out, groups, i);
    if j < |w.groups| {
      assert HasFirst(h, w.out, w.groups[j]) && LargerFirst(h, ver, w.out, w.groups, i, j);
      OldFirst(h, ver, w, k, until, hull, out, groups, j);
      OldNone(h, ver, w, k, until, hull, out, groups, i, j, out[groups[j].lo].u);
    } else {
      NewFirst(h, ver, w, k, until, hull, out, groups);
      assert NoLarger(h, ver, w.out, w.groups, i, w.pq[k], level) && ElementOk(h, ver, w.pq[k], level);
      OldNone(h, ver, w, k, until, hull, out, groups, i, j, w.pq[k].u);
    }
  }

  /** What stays in the queue of the level. */
  lemma RestAfter(h: Hierarchy, ver: nat, w: Work, level: nat, k: nat, until: nat, hull: Interval, out: seq<Assignment>, groups: seq<Group>, i: nat, m: nat)
    requires Ranked(h, ver, w, level) && Added(h, ver, w, k, until, hull, out, groups) && i <= |w.groups| && m < |w.pq| && m != k
    ensures NoLarger(h, ver, out, groups, i, w.pq[m], level)
  {
    NewFirst(h, ver, w, k, until, hull, out, groups);
    assert ElementOk(h, ver, w.pq[k], level);
    if i < |w.groups| {
      assert HasFirst(h, w.out, w.groups[i]) && NoLarger(h, ver, w.out, w.groups, i, w.pq[m], level);
      OldFirst(h, ver, w, k, until, hull, out, groups, i);
      FewerNone(h, out, groups, i, w.pq[m].u);
      OldNone(h, ver, w, k, until, hull, out, groups, i, |w.groups|, w.pq[m].u);
    }
  }

  lemma FewerNone(h: Hierarchy, out: seq<Assignment>, groups: seq<Group>, i: nat, u: nat)
    requires groups != []
    ensures NoneOf(h, out, groups, i, |groups|, u) ==> NoneOf(h, out, groups, i, |groups| - 1, u)
  {
  }

  /** The next siblings of the group are not compared with the groups before. */
  lemma NextSiblings(h: Hierarchy, ver: nat, w: Work, level: nat, k: nat, until: nat, hull: Interval, out: seq<Assignment>, groups: seq<Group>, i: nat, e: Element)
    requires Ranked(h, ver, w, level) && Added(h, ver, w, k, until, hull, out, groups) && i <= |w.groups| && e.u == w.pq[k].u
    ensures NoLarger(h, ver, out, groups, i, e, level)
  {
    NewFirst(h, ver, w, k, until, hull, out, groups);
    if i < |w.groups| {
      assert HasFirst(h, w.out, w.groups[i]);
      OldFirst(h, ver, w, k, until, hull, out, groups, i);
    }
    assert !NoneOf(h, out, groups, i, |groups|, e.u);
  }

  lemma TightAfter(h: Hierarchy, ver: nat, w: Work, level: nat, k: nat, until: nat, hull: Interval, out: seq<Assignment>, groups: seq<Group>, i: nat)
    requires Ranked(h, ver, w, level) && Added(h, ver, w, k, until, hull, out, groups) && i <= |w.groups|
    ensures i < |groups| && Tight(h, ver, out, groups[i])
  {
    if i < |w.groups| {
      assert Tight(h, ver, w.out, w.groups[i]) && groups[i] == groups[..|w.groups|][i];
      StaysTight(h, ver, w.out, out, w.groups[i]);
    } else {
      NewTight(h, ver, w, k, until, hull, out, groups);
    }
  }

  lemma StaysTight(h: Hierarchy, ver: nat, out: seq<Assignment>, out': seq<Assignment>, g: Group)
    requires Tight(h, ver, out, g) && |out| <= |out'| && out'[..|out|] == out
    ensures Tight(h, ver, out', g)
  {
    var u: nat, from: nat :| GroupIsTight(h, ver, out, g, u, from);
    forall k: nat | k < g.num ensures Places(h, out', g.lo, u, from, k) {
      assert Places(h, out, g.lo, u, from, k) && out'[g.lo + k] == out'[..|out|][g.lo + k];
    }
    assert GroupIsTight(h, ver, out', g, u, from);
  }

  lemma NewTight(h: Hierarchy, ver: nat, w: Work, k: nat, until: nat, hull: Interval, out: seq<Assignment>, groups: seq<Group>)
    requires Added(h, ver, w, k, until, hull, out, groups)
    ensures Tight(h, ver, out, groups[|w.groups|])
  {
    var u, from, g := w.pq[k].u, w.pq[k].pos, groups[|w.groups|];
    if h.More(u, ver, until) {
      forall i: nat | from <= i < until ensures !DoMeet(h, u, i, until) {
        GroupClosed(h, ver, u, from, until, hull, i, until);
      }
    }
    assert GroupIsTight(h, ver, out, g, u, from);
  }

  lemma RestLevel(h: Hierarchy, ver: nat, w: Work, level: nat, k: nat, until: nat, hull: Interval)
    requires OfLevel(h, ver, w.pq, level) && Chosen(h, ver, w, k, until, hull)
    ensures OfLevel(h, ver, RestQueue(h, ver, w.pq, k, until), level)
    ensures forall i: nat :: i < |RestQueue(h, ver, w.pq, k, until)| ==>
              var e := RestQueue(h, ver, w.pq, k, until)[i]; e.u == w.pq[k].u || exists m: nat :: m < |w.pq| && m != k && e == w.pq[m]
  {
    var q := RestQueue(h, ver, w.pq, k, until);
    assert ElementOk(h, ver, w.pq[k], level);
    forall i: nat | i < |q| ensures ElementOk(h, ver, q[i], level) && (q[i].u == w.pq[k].u || exists m: nat :: m < |w.pq| && m != k && q[i] == w.pq[m]) {
      if i < |w.pq| - 1 {
        var m := if i < k then i else i + 1;
        assert q[i] == w.pq[m] && ElementOk(h, ver, w.pq[m], level);
      }
    }
  }

  /** Every turn keeps the laws. */
  lemma TurnKeepsRanks(h: Hierarchy, ver: nat, w: Work, level: nat, k: nat, until: nat, hull: Interval, b: nat, base: nat)
    requires Ranked(h, ver, w, level) && Chosen(h, ver, w, k, until, hull)
    ensures Ranked(h, ver, Turned(h, ver, w, k, until, hull, b, base), if LevelDone(h, ver, w, k, until, hull) then level + 1 else level)
  {
    var w', rest := Turned(h, ver, w, k, until, hull, b, base), RestQueue(h, ver, w.pq, k, until);
    var level' := if rest == [] then level + 1 else level;
    TurnAdds(h, ver, w, k, until, hull, b, base);
    TurnedQueues(h, ver, w, level, k, until, hull, b, base);
    hide Turned, Added, LargerFirst, NoLarger, Tight, HasFirst, OfLevel, Chosen;
    forall i: nat | i < |w'.groups| ensures HasFirst(h, w'.out, w'.groups[i]) && Level(h, ver, w'.out[w'.groups[i].lo].u) <= level' {
      FirstAfter(h, ver, w, level, k, until, hull, w'.out, w'.groups, i);
    }
    forall i: nat, j: nat | i < j < |w'.groups| ensures LargerFirst(h, ver, w'.out, w'.groups, i, j) {
      AddedOne(h, ver, w, k, until, hull, w'.out, w'.groups);
      PairsAfter(h, ver, w, level, k, until, hull, w'.out, w'.groups, i, j);
    }
    forall i: nat, m: nat | i < |w'.groups| && m < |w'.pq| ensures NoLarger(h, ver, w'.out, w'.groups, i, w'.pq[m], level') {
      AddedOne(h, ver, w, k, until, hull, w'.out, w'.groups);
      QueueAfter(h, ver, w, level, k, until, hull, b, base, i, m);
    }
    forall i: nat | i < |w'.groups| ensures Tight(h, ver, w'.out, w'.groups[i]) {
      AddedOne(h, ver, w, k, until, hull, w'.out, w'.groups);
      TightAfter(h, ver, w, level, k, until, hull, w'.out, w'.groups, i);
    }
  }

  lemma AddedOne(h: Hierarchy, ver: nat, w: Work, k: nat, until: nat, hull: Interval, out: seq<Assignment>, groups: seq<Group>)
    requires Added(h, ver, w, k, until, hull, out, groups)
    ensures |groups| == |w.groups| + 1
  {
  }

  lemma FirstAfter(h: Hierarchy, ver: nat, w: Work, level: nat, k: nat, until: nat, hull: Interval, out: seq<Assignment>, groups: seq<Group>, i: nat)
    requires Ranked(h, ver, w, level) && Added(h, ver, w, k, until, hull, out, groups) && i < |groups|
    ensures HasFirst(h, out, groups[i]) && Level(h, ver, out[groups[i].lo].u) <= level
  {
    if i < |w.groups| {
      assert HasFirst(h, w.out, w.groups[i]);
      OldFirst(h, ver, w, k, until, hull, out, groups, i);
    } else {
      NewFirst(h, ver, w, k, until, hull, out, groups);
      assert ElementOk(h, ver, w.pq[k], level);
    }
  }

  lemma TurnedQueues(h: Hierarchy, ver: nat, w: Work, level: nat, k: nat, until: nat, hull: Interval, b: nat, base: nat)
    requires Ranked(h, ver, w, level) && Chosen(h, ver, w, k, until, hull)
    ensures var w', done := Turned(h, ver, w, k, until, hull, b, base), LevelDone(h, ver, w, k, until, hull);
            OfLevel(h, ver, w'.pq, if done then level + 1 else level) && OfLevel(h, ver, w'.next, if done then level + 2 else level + 1)
  {
    assert ElementOk(h, ver, w.pq[k], level);
    EnterAllLevel(h, ver, w.next, w.pq[k].u, w.pq[k].pos, until);
    RestLevel(h, ver, w, level, k, until, hull);
  }

  lemma QueueAfter(h: Hierarchy, ver: nat, w: Work, level: nat, k: nat, until: nat, hull: Interval, b: nat, base: nat, i: nat, m: nat)
    requires Ranked(h, ver, w, level) && Chosen(h, ver, w, k, until, hull)
    requires var w' := Turned(h, ver, w, k, until, hull, b, base); Added(h, ver, w, k, until, hull, w'.out, w'.groups) && i <= |w.groups| && m < |w'.pq|
    ensures var w' := Turned(h, ver, w, k, until, hull, b, base);
            NoLarger(h, ver, w'.out, w'.groups, i, w'.pq[m], if LevelDone(h, ver, w, k, until, hull) then level + 1 else level)
  {
    var w', rest := Turned(h, ver, w, k, until, hull, b, base), RestQueue(h, ver, w.pq, k, until);
    AddedOne(h, ver, w, k, until, hull, w'.out, w'.groups);
    FirstAfter(h, ver, w, level, k, until, hull, w'.out, w'.groups, i);
    RestLevel(h, ver, w, level, k, until, hull);
    hide Added, Ranked, Chosen, OfLevel, RestQueue;
    if rest != [] {
      var e := rest[m];
      if e.u == w.pq[k].u {
        NextSiblings(h, ver, w, level, k, until, hull, w'.out, w'.groups, i, e);
      } else {
        var m': nat :| m' < |w.pq| && m' != k && e == w.pq[m'];
        RestAfter(h, ver, w, level, k, until, hull, w'.out, w'.groups, i, m');
      }
    }
  }

  // ---------- All turns of a thread ----------

  lemma {:induction false} TrailRanked(h: Hierarchy, ver: nat, roots: seq<nat>, trail: seq<(Work, nat)>, n: nat) returns (level: nat)
    requires h.Valid() && (forall r :: r in roots ==> r < |h.parent| && h.version[r] != ver) && IsTrail(h, ver, roots, trail) && n < |trail|
    ensures Ranked(h, ver, trail[n].0, level)
    decreases n
  {
    hide Ranked, Chosen, Turned, StartWork;
    if n == 0 {
      StartRanked(h, ver, roots);
      level := 0;
    } else {
      level := TrailRanked(h, ver, roots, trail, n - 1);
      assert TurnAt(h, ver, trail, n - 1);
      var w, cur := trail[n - 1].0, trail[n - 1].1;
      var k: nat, until: nat, hull, b: nat, base: nat :| TurnIs(h, ver, w, cur, k, until, hull, b, base, trail[n].0, trail[n].1);
      TurnKeepsRanks(h, ver, w, level, k, until, hull, b, base);
      level := if LevelDone(h, ver, w, k, until, hull) then level + 1 else level;
    }
  }

  /** Whatever the assigner answers: the groups of a thread are in the order of levels; of two groups of a level
      of which the later one was ready when the earlier one was chosen, the earlier one starts with a subtree at
      least as large; and the groups are the largest stretches of siblings that are connected by their intervals. */
  lemma LargestFirst(h: Hierarchy, ver: nat, roots: seq<nat>, trail: seq<(Work, nat)>)
    requires h.Valid() && (forall r :: r in roots ==> r < |h.parent| && h.version[r] != ver) && IsTrail(h, ver, roots, trail)
    ensures var w := trail[|trail| - 1].0;
            && (forall i: nat, j: nat {:trigger LargerFirst(h, ver, w.out, w.groups, i, j)} :: i < j < |w.groups| ==> LargerFirst(h, ver, w.out, w.groups, i, j))
            && (forall i: nat {:trigger Tight(h, ver, w.out, w.groups[i])} :: i < |w.groups| ==> Tight(h, ver, w.out, w.groups[i]))
  {
    hide TurnAt, StartWork;
    var level := TrailRanked(h, ver, roots, trail, |trail| - 1);
  }

  // ---------- All threads together ----------

  ghost predicate InRanks(h: Hierarchy, ver: nat, w: Work) {
    exists level: nat :: Ranked(h, ver, w, level)
  }

  ghost predicate AllInRanks(h: Hierarchy, ver: nat, s: B.State) {
    forall t: nat {:trigger s.work[t]} :: t < |s.work| ==> InRanks(h, ver, s.work[t])
  }

  lemma JointStep(h: Hierarchy, ver: nat, s: B.State, a: B.Action)
    requires AllInRanks(h, ver, s) && B.Enabled(h, ver, s, a)
    ensures AllInRanks(h, ver, B.Apply(h, ver, s, a))
  {
    hide Ranked, Turned, Chosen, LevelDone;
    if a.Answer? {
      var p, b := s.phase[a.t], s.phase[a.t].given[0];
      var level: nat :| Ranked(h, ver, s.work[a.t], level);
      TurnKeepsRanks(h, ver, s.work[a.t], level, p.k, p.until, p.hull, b.batch, b.base);
    }
  }

  lemma {:induction false} JointRun(h: Hierarchy, ver: nat, s: B.State, run: seq<B.Action>)
    requires AllInRanks(h, ver, s) && B.CanRun(h, ver, s, run)
    ensures AllInRanks(h, ver, B.Run(h, ver, s, run))
    decreases |run|
  {
    hide AllInRanks, B.Apply, B.Enabled;
    if run != [] {
      JointStep(h, ver, s, run[0]);
      JointRun(h, ver, B.Apply(h, ver, s, run[0]), run[1..]);
    }
  }

  lemma JointStart(h: Hierarchy, ver: nat, parts: seq<seq<nat>>, maxBatchSize: nat)
    requires B.CanStart(h, ver, parts)
    ensures AllInRanks(h, ver, B.Initial(h, ver, parts, maxBatchSize))
  {
    hide Ranked, StartWork;
    var s := B.Initial(h, ver, parts, maxBatchSize);
    forall t: nat | t < |s.work| ensures InRanks(h, ver, s.work[t]) {
      assert B.PartOk(h, ver, parts[t]) && s.work[t] == B.StartOf(h, ver, parts, t);
      StartRanked(h, ver, parts[t]);
    }
  }

  /** The same for every thread of every interleaving of the threads and of the requests they make. */
  lemma ThreadsLargestFirst(h: Hierarchy, ver: nat, parts: seq<seq<nat>>, maxBatchSize: nat, run: seq<B.Action>, t: nat)
    requires B.CanStart(h, ver, parts) && B.CanRun(h, ver, B.Initial(h, ver, parts, maxBatchSize), run)
    requires t < |B.Run(h, ver, B.Initial(h, ver, parts, maxBatchSize), run).work|
    ensures var w := B.Run(h, ver, B.Initial(h, ver, parts, maxBatchSize), run).work[t];
            && (forall i: nat, j: nat {:trigger LargerFirst(h, ver, w.out, w.groups, i, j)} :: i < j < |w.groups| ==> LargerFirst(h, ver, w.out, w.groups, i, j))
            && (forall i: nat {:trigger Tight(h, ver, w.out, w.groups[i])} :: i < |w.groups| ==> Tight(h, ver, w.out, w.groups[i]))
  {
    JointStart(h, ver, parts, maxBatchSize);
    JointRun(h, ver, B.Initial(h, ver, parts, maxBatchSize), run);
    hide B.CanRun, B.Run, B.Initial, B.CanStart;
    assert InRanks(h, ver, B.Run(h, ver, B.Initial(h, ver, parts, maxBatchSize), run).work[t]);
  }
}
