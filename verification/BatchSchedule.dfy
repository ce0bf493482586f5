/** The batch schedule of one version: in which batch each contraction of the version is undone.

    Each thread walks the subtrees of its version roots level by level. The batch index of a group comes from
    the shared assigner, of which a thread knows only that it never answers with an index below the requested
    one; so the results below hold for every interleaving of threads. */
module BatchSchedule {
  import opened FiniteSets

  const INVALID_TIME: nat := 0xFFFF_FFFF

  datatype Interval = Interval(start: nat, end: nat) {
    predicate Valid() {
      (start == INVALID_TIME && end == INVALID_TIME) || (start <= end < INVALID_TIME)
    }

    /** Both intervals contain a common point of time. */
    predicate Meets(other: Interval) {
      start != INVALID_TIME && other.start != INVALID_TIME && start <= other.end && other.start <= end
    }

    predicate StrictlyBefore(other: Interval) {
      start != INVALID_TIME && other.start != INVALID_TIME && end < other.start
    }
  }

  /** The test the source uses. */
  predicate DoesIntervalIntersect(i1: Interval, i2: Interval) {
    if i1.start == INVALID_TIME || i2.start == INVALID_TIME then false
    else (i1.start <= i2.end && i1.end >= i2.end) || (i2.start <= i1.end && i2.end >= i1.end)
  }

  lemma IntersectTestIsExact(i1: Interval, i2: Interval)
    requires i1.Valid() && i2.Valid()
    ensures DoesIntervalIntersect(i1, i2) <==> i1.Meets(i2)
    ensures i1.Meets(i2) <==> i2.Meets(i1)
  {
  }

  /** A finalized contraction forest; `depth` is the distance to the root. */
  datatype Hierarchy = Hierarchy(parent: seq<nat>, version: seq<nat>, childs: seq<seq<nat>>, subtreeSize: seq<nat>,
                                 interval: seq<Interval>, depth: seq<nat>)
  {
    predicate IsNode(v: nat) {
      v < |parent|
    }

    ghost predicate Shape() {
      && |parent| == |version| == |childs| == |subtreeSize| == |interval| == |depth|
      && (forall v :: 0 <= v < |parent| ==> parent[v] < |parent|)
      && (forall u, i :: 0 <= u < |childs| && 0 <= i < |childs[u]| ==> childs[u][i] < |parent|)
    }

    ghost predicate ChildsOk(u: nat)
      requires Shape() && u < |parent|
    {
      && (forall i :: 0 <= i < |childs[u]| ==> parent[childs[u][i]] == u != childs[u][i])
      && (forall i, j :: 0 <= i < j < |childs[u]| ==> childs[u][i] != childs[u][j])
      && (forall i, j :: 0 <= i < j < |childs[u]| ==> version[childs[u][i]] <= version[childs[u][j]])
      && (forall i, j :: 0 <= i < j < |childs[u]| && version[childs[u][i]] == version[childs[u][j]] ==>
            interval[childs[u][i]].end >= interval[childs[u][j]].end)
    }

    ghost predicate ParentOk(v: nat)
      requires Shape() && v < |parent|
    {
      && interval[v].Valid()
      && (parent[v] != v ==> v in childs[parent[v]] && depth[v] == depth[parent[v]] + 1 && version[v] <= version[parent[v]])
    }

    ghost predicate Valid() {
      && Shape()
      && (forall u: nat :: u < |parent| ==> ChildsOk(u))
      && (forall v: nat :: v < |parent| ==> ParentOk(v))
    }

    /** The children of u of the given version are those at positions First(u) up to Last(u). */
    ghost function First(u: nat, ver: nat): (i: nat)
      requires Shape() && u < |parent|
      ensures i <= |childs[u]|
      ensures i < |childs[u]| ==> version[childs[u][i]] == ver
    {
      FirstFrom(u, ver, 0)
    }

    ghost function FirstFrom(u: nat, ver: nat, k: nat): (i: nat)
      requires Shape() && u < |parent| && k <= |childs[u]|
      ensures k <= i <= |childs[u]|
      ensures i < |childs[u]| ==> version[childs[u][i]] == ver
      decreases |childs[u]| - k
    {
      if k < |childs[u]| && version[childs[u][k]] != ver then FirstFrom(u, ver, k + 1) else k
    }

    lemma {:induction false} NoneBefore(u: nat, ver: nat, k: nat, j: nat)
      requires Shape() && u < |parent| && k <= |childs[u]| && k <= j < FirstFrom(u, ver, k)
      ensures version[childs[u][j]] != ver
      decreases |childs[u]| - k
    {
      if k < j {
        NoneBefore(u, ver, k + 1, j);
      }
    }

    /** The next child of u at or behind position i is one of this version. */
    predicate More(u: nat, ver: nat, i: nat)
      requires |parent| == |version| == |childs| && u < |parent|
    {
      i < |childs[u]| && childs[u][i] < |version| && version[childs[u][i]] == ver
    }

    /** The topmost node above v reachable through contractions of the version of v. */
    ghost function VersionRoot(v: nat): (r: nat)
      requires Valid() && v < |parent|
      ensures r < |parent|
      decreases depth[v]
    {
      assert ParentOk(v);
      if parent[v] == v then v
      else if version[parent[v]] != version[v] then parent[v]
      else VersionRoot(parent[v])
    }
  }

  datatype Element = Element(objective: nat, u: nat, pos: nat)

  /** The contraction of v onto u is undone in batch `batchIndex` at position `batchPos`. */
  datatype Assignment = Assignment(u: nat, v: nat, batchIndex: nat, batchPos: nat)

  /** Takes an element of largest objective out of a priority queue. */
  method PopTop(pq: seq<Element>) returns (top: Element, rest: seq<Element>, ghost k: nat)
    requires pq != []
    ensures k < |pq| && top == pq[k] && rest == pq[..k] + pq[k + 1..]
    ensures forall i :: 0 <= i < |pq| ==> pq[i].objective <= top.objective
  {
    var best := 0;
    for i := 1 to |pq|
      invariant best < |pq|
      invariant forall j :: 0 <= j < i ==> pq[j].objective <= pq[best].objective
    {
      if pq[i].objective > pq[best].objective {
        best := i;
      }
    }
    top, rest, k := pq[best], pq[..best] + pq[best + 1..], best;
  }

  /** The queue with the first child of u of this version entered, if there is one. */
  ghost function EnterOne(h: Hierarchy, ver: nat, pq: seq<Element>, u: nat): seq<Element>
    requires h.Shape() && h.IsNode(u)
  {
    var i := h.First(u, ver);
    if i < |h.childs[u]| then pq + [Element(h.subtreeSize[h.childs[u][i]], u, i)] else pq
  }

  /** Enters the first child of u that belongs to the version, if there is one. */
  method PushIntoPq(h: Hierarchy, ver: nat, pq: seq<Element>, u: nat) returns (pq': seq<Element>)
    requires h.Shape() && h.IsNode(u)
    ensures pq' == EnterOne(h, ver, pq, u)
  {
    var current := 0;
    while current < |h.childs[u]| && h.version[h.childs[u][current]] != ver
      invariant current <= |h.childs[u]|
      invariant h.FirstFrom(u, ver, current) == h.First(u, ver)
    {
      current := current + 1;
    }
    pq' := pq;
    if current < |h.childs[u]| {
      pq' := pq + [Element(h.subtreeSize[h.childs[u][current]], u, current)];
    }
  }

  // ---------- What a thread has done so far ----------

  /** `batch` maps every assigned contraction partner to its batch index, `entered` holds the nodes
      whose children were entered, `progress[u]` is the position of the next child of u. */
  datatype Progress = Progress(batch: map<nat, nat>, entered: set<nat>, progress: seq<nat>)

  /** The children of u assigned so far are those between First(u) and progress[u]. */
  ghost predicate Recorded(h: Hierarchy, ver: nat, p: Progress, u: nat)
    requires h.Valid() && h.IsNode(u) && |p.progress| == |h.parent|
  {
    var c, lo, now := h.childs[u], h.First(u, ver), p.progress[u];
    && lo <= now <= |c|
    && (u !in p.entered ==> now == lo)
    && (forall i: nat :: i < |c| ==> (c[i] in p.batch <==> lo <= i < now))
    && (forall i: nat :: lo <= i < now ==> h.version[c[i]] == ver)
  }

  /** Later siblings are in later batches, and intersecting ones share a batch. */
  ghost predicate PairOk(h: Hierarchy, p: Progress, u: nat, i: nat, j: nat)
    requires h.Shape() && h.IsNode(u) && i < j < |h.childs[u]|
  {
    var v, w := h.childs[u][i], h.childs[u][j];
    v in p.batch && w in p.batch && p.batch[v] <= p.batch[w] && (h.interval[v].Meets(h.interval[w]) ==> p.batch[v] == p.batch[w])
  }

  /** No assigned sibling intersects one that is still to come. */
  ghost predicate Apart(h: Hierarchy, ver: nat, u: nat, i: nat, j: nat)
    requires h.Shape() && h.IsNode(u) && i < j < |h.childs[u]|
  {
    h.version[h.childs[u][j]] == ver ==> !h.interval[h.childs[u][i]].Meets(h.interval[h.childs[u][j]])
  }

  ghost predicate SiblingsOk(h: Hierarchy, ver: nat, p: Progress, u: nat)
    requires h.Valid() && h.IsNode(u) && |p.progress| == |h.parent|
  {
    && Recorded(h, ver, p, u)
    && (forall i: nat, j: nat :: h.First(u, ver) <= i < j < p.progress[u] ==> PairOk(h, p, u, i, j))
    && (forall i: nat, j: nat :: h.First(u, ver) <= i < p.progress[u] <= j < |h.childs[u]| ==> Apart(h, ver, u, i, j))
  }

  /** An assigned contraction belongs to the version, and its representative came strictly earlier. */
  ghost predicate AssignedOk(h: Hierarchy, ver: nat, p: Progress, cur: nat, v: nat)
    requires h.Valid() && v in p.batch
  {
    && h.IsNode(v) && p.batch[v] <= cur && h.version[v] == ver && h.parent[v] != v && h.parent[v] in p.entered
    && (h.parent[v] in p.batch ==> p.batch[h.parent[v]] < p.batch[v])
  }

  ghost predicate ProgressOk(h: Hierarchy, ver: nat, roots: set<nat>, p: Progress, cur: nat) {
    && h.Valid() && |p.progress| == |h.parent|
    && (forall u :: u in p.entered <==> u in roots || u in p.batch)
    && (forall u :: u in p.entered ==> h.IsNode(u))
    && (forall u: nat {:trigger SiblingsOk(h, ver, p, u)} :: h.IsNode(u) ==> SiblingsOk(h, ver, p, u))
    && (forall v: nat {:trigger AssignedOk(h, ver, p, cur, v)} :: v in p.batch ==> AssignedOk(h, ver, p, cur, v))
  }

  ghost predicate InQueue(pq: seq<Element>, u: nat) {
    exists i :: 0 <= i < |pq| && pq[i].u == u
  }

  ghost predicate QueueOk(h: Hierarchy, ver: nat, p: Progress, pq: seq<Element>)
    requires |p.progress| == |h.parent| == |h.version| == |h.childs|
  {
    && (forall i :: 0 <= i < |pq| ==>
          pq[i].u in p.entered && pq[i].u < |h.parent| && pq[i].pos == p.progress[pq[i].u] && h.More(pq[i].u, ver, pq[i].pos))
    && (forall i, j :: 0 <= i < j < |pq| ==> pq[i].u != pq[j].u)
  }

  ghost predicate Disjoint(pq: seq<Element>, next: seq<Element>) {
    forall i, j :: 0 <= i < |pq| && 0 <= j < |next| ==> pq[i].u != next[j].u
  }

  ghost predicate AllQueued(h: Hierarchy, ver: nat, p: Progress, pq: seq<Element>, next: seq<Element>)
    requires |p.progress| == |h.parent| == |h.version| == |h.childs|
  {
    forall u: nat :: u in p.entered && u < |h.parent| && h.More(u, ver, p.progress[u]) ==> InQueue(pq, u) || InQueue(next, u)
  }

  /** Child i meets a child of the group in front of it. */
  ghost predicate MeetsEarlier(h: Hierarchy, u: nat, from: nat, i: nat)
    requires h.Shape() && u < |h.childs| && i < |h.childs[u]|
  {
    exists j :: from <= j < i && h.interval[h.childs[u][j]].Meets(h.interval[h.childs[u][i]])
  }

  /** The children of one node that have been put into the current group: positions [from, to). */
  ghost predicate GroupOk(h: Hierarchy, ver: nat, u: nat, from: nat, until: nat, hull: Interval)
    requires h.Valid() && h.IsNode(u)
  {
    var c := h.childs[u];
    && from < until <= |c|
    && (forall i :: from <= i < until ==> h.version[c[i]] == ver)
    && hull.end == h.interval[c[from]].end
    && (hull.start == INVALID_TIME <==> h.interval[c[from]].start == INVALID_TIME)
    && (hull.start != INVALID_TIME ==>
          && hull.start <= hull.end < INVALID_TIME
          && (forall i :: from <= i < until ==> h.interval[c[i]].start != INVALID_TIME && hull.start <= h.interval[c[i]].start))
    && (hull.start == INVALID_TIME ==> until == from + 1)
    && (exists i :: from <= i < until && h.interval[c[i]].start == hull.start)
    && (forall i: nat {:trigger MeetsEarlier(h, u, from, i)} :: from < i < until ==> MeetsEarlier(h, u, from, i))
  }

  /** If the child behind the group does not meet its hull, no later child meets any of its members. */
  lemma GroupClosed(h: Hierarchy, ver: nat, u: nat, from: nat, until: nat, hull: Interval, i: nat, j: nat)
    requires h.Valid() && h.IsNode(u) && GroupOk(h, ver, u, from, until, hull)
    requires until < |h.childs[u]| && h.version[h.childs[u][until]] == ver && !DoesIntervalIntersect(hull, h.interval[h.childs[u][until]])
    requires from <= i < until <= j < |h.childs[u]| && h.version[h.childs[u][j]] == ver
    ensures !h.interval[h.childs[u][i]].Meets(h.interval[h.childs[u][j]])
  {
    assert h.ChildsOk(u);
    var c := h.childs[u];
    assert h.ParentOk(c[from]) && h.ParentOk(c[until]) && h.ParentOk(c[j]) && h.ParentOk(c[i]);
    assert h.interval[c[j]].end <= h.interval[c[until]].end <= h.interval[c[from]].end;
  }

  function Hull(a: Interval, b: Interval): Interval {
    Interval(if b.start < a.start then b.start else a.start, if b.end > a.end then b.end else a.end)
  }

  /** A child that meets the hull meets a member. */
  lemma JoinsGroup(h: Hierarchy, ver: nat, u: nat, from: nat, until: nat, hull: Interval)
    requires h.Valid() && h.IsNode(u) && GroupOk(h, ver, u, from, until, hull)
    requires until < |h.childs[u]| && h.version[h.childs[u][until]] == ver && DoesIntervalIntersect(hull, h.interval[h.childs[u][until]])
    ensures MeetsEarlier(h, u, from, until) && hull.start != INVALID_TIME
    ensures var joined := Hull(hull, h.interval[h.childs[u][until]]);
            && joined.end == hull.end && joined.start <= hull.start && joined.start <= h.interval[h.childs[u][until]].start < INVALID_TIME
            && exists i :: from <= i < until + 1 && h.interval[h.childs[u][i]].start == joined.start
  {
    assert h.ChildsOk(u);
    var c := h.childs[u];
    hide MeetsEarlier;
    var k :| from <= k < until && h.interval[c[k]].start == hull.start;
    assert h.ParentOk(c[until]) && h.ParentOk(c[from]) && h.ParentOk(c[k]);
    MeetsOne(h, u, from, k, until);
    assert h.interval[c[if Hull(hull, h.interval[c[until]]).start == hull.start then k else until]].start == Hull(hull, h.interval[c[until]]).start;
  }

  lemma MeetsOne(h: Hierarchy, u: nat, from: nat, k: nat, i: nat)
    requires h.Shape() && u < |h.childs| && from <= k < i < |h.childs[u]|
    ensures h.interval[h.childs[u][k]].Meets(h.interval[h.childs[u][i]]) ==> MeetsEarlier(h, u, from, i)
  {
  }

  lemma GroupGrows(h: Hierarchy, ver: nat, u: nat, from: nat, until: nat, hull: Interval)
    requires h.Valid() && h.IsNode(u) && GroupOk(h, ver, u, from, until, hull)
    requires until < |h.childs[u]| && h.version[h.childs[u][until]] == ver && DoesIntervalIntersect(hull, h.interval[h.childs[u][until]])
    ensures GroupOk(h, ver, u, from, until + 1, Hull(hull, h.interval[h.childs[u][until]]))
  {
    hide MeetsEarlier, Hierarchy.ChildsOk, Hierarchy.ParentOk;
    JoinsGroup(h, ver, u, from, until, hull);
  }

  /** The queue after entering the first child of this version of the children of u at [from, to). */
  ghost function EnterAll(h: Hierarchy, ver: nat, before: seq<Element>, u: nat, from: nat, until: nat): seq<Element>
    requires h.Shape() && h.IsNode(u) && from <= until <= |h.childs[u]|
    decreases until
  {
    if from == until then before
    else
      EnterOne(h, ver, EnterAll(h, ver, before, u, from, until - 1), h.childs[u][until - 1])
  }

  lemma GroupStarts(h: Hierarchy, ver: nat, u: nat, from: nat)
    requires h.Valid() && h.IsNode(u) && h.More(u, ver, from)
    ensures GroupOk(h, ver, u, from, from + 1, h.interval[h.childs[u][from]])
  {
    assert h.ParentOk(h.childs[u][from]);
  }

  /** Collects the child at `from` and all following siblings whose time intervals meet the hull of
      the group, and enters their children for the next level. */
  method CollectGroup(h: Hierarchy, ver: nat, u: nat, from: nat, nextPq: seq<Element>) returns (until: nat, next': seq<Element>, ghost hull: Interval)
    requires h.Valid() && h.IsNode(u) && h.More(u, ver, from)
    ensures GroupOk(h, ver, u, from, until, hull)
    ensures h.More(u, ver, until) ==> !DoesIntervalIntersect(hull, h.interval[h.childs[u][until]])
    ensures next' == EnterAll(h, ver, nextPq, u, from, until)
  {
    var v := h.childs[u][from];
    next' := PushIntoPq(h, ver, nextPq, v);
    var current := h.interval[v];
    GroupStarts(h, ver, u, from);
    until := from + 1;
    assert next' == EnterAll(h, ver, nextPq, u, from, until);
    while until < |h.childs[u]| && h.version[h.childs[u][until]] == ver
      invariant GroupOk(h, ver, u, from, until, current)
      invariant next' == EnterAll(h, ver, nextPq, u, from, until)
      decreases |h.childs[u]| - until
    {
      var w := h.childs[u][until];
      if !DoesIntervalIntersect(current, h.interval[w]) {
        break;
      }
      GroupGrows(h, ver, u, from, until, current);
      current := Hull(current, h.interval[w]);
      next' := PushIntoPq(h, ver, next', w);
      until := until + 1;
    }
    hull := current;
  }

  // ---------- One group ----------

  ghost function AfterGroup(h: Hierarchy, p: Progress, u: nat, from: nat, until: nat, b: nat): Progress
    requires h.Valid() && h.IsNode(u) && from <= until <= |h.childs[u]| && |p.progress| == |h.parent|
  {
    var group := h.childs[u][from..until];
    Progress(map v | v in p.batch.Keys + (set x | x in group) :: if v in group then b else p.batch[v],
             p.entered + (set x | x in group), p.progress[u := until])
  }

  ghost predicate LevelOk(p: Progress, pq: seq<Element>, bound: nat) {
    forall x: nat :: InQueue(pq, x) && x in p.batch ==> p.batch[x] < bound
  }

  /** Version roots have a larger version themselves. */
  ghost predicate RootsOk(h: Hierarchy, ver: nat, roots: set<nat>) {
    h.Shape() && forall r :: r in roots ==> h.IsNode(r) && h.version[r] > ver
  }

  ghost predicate LoopInv(h: Hierarchy, ver: nat, roots: set<nat>, p: Progress, pq: seq<Element>, next: seq<Element>, cur: nat) {
    && RootsOk(h, ver, roots) && ProgressOk(h, ver, roots, p, cur)
    && QueueOk(h, ver, p, pq) && QueueOk(h, ver, p, next) && Disjoint(pq, next) && AllQueued(h, ver, p, pq, next)
    && LevelOk(p, pq, cur) && LevelOk(p, next, cur + 1)
  }

  /** What the next group may be. */
  ghost predicate GroupReady(h: Hierarchy, ver: nat, roots: set<nat>, p: Progress, cur: nat, u: nat, from: nat, until: nat, hull: Interval, b: nat) {
    && RootsOk(h, ver, roots) && ProgressOk(h, ver, roots, p, cur)
    && h.IsNode(u) && u in p.entered && from == p.progress[u]
    && GroupOk(h, ver, u, from, until, hull)
    && (h.More(u, ver, until) ==> !DoesIntervalIntersect(hull, h.interval[h.childs[u][until]]))
    && (u in p.batch ==> p.batch[u] < b) && b >= cur
  }

  lemma GroupMembers(h: Hierarchy, ver: nat, roots: set<nat>, p: Progress, cur: nat, u: nat, from: nat, until: nat, hull: Interval, b: nat, x: nat)
    requires GroupReady(h, ver, roots, p, cur, u, from, until, hull, b) && x in h.childs[u][from..until]
    ensures h.IsNode(x) && x !in p.entered && x !in p.batch && h.parent[x] == u != x && h.version[x] == ver
  {
    assert h.ChildsOk(u) && SiblingsOk(h, ver, p, u);
    var i :| from <= i < until && h.childs[u][i] == x;
  }

  lemma SiblingsFrame(h: Hierarchy, ver: nat, p: Progress, p': Progress, x: nat)
    requires h.Valid() && h.IsNode(x) && |p.progress| == |p'.progress| == |h.parent|
    requires SiblingsOk(h, ver, p, x) && p'.progress[x] == p.progress[x] && p.entered <= p'.entered
    requires forall i :: 0 <= i < |h.childs[x]| ==>
               (h.childs[x][i] in p'.batch <==> h.childs[x][i] in p.batch)
               && (h.childs[x][i] in p.batch ==> p'.batch[h.childs[x][i]] == p.batch[h.childs[x][i]])
    ensures SiblingsOk(h, ver, p', x)
  {
    assert Recorded(h, ver, p', x);
    forall i: nat, j: nat | h.First(x, ver) <= i < j < p.progress[x] ensures PairOk(h, p', x, i, j) {
      assert PairOk(h, p, x, i, j);
    }
  }

  /** Children of other nodes are not touched. */
  lemma OtherSiblings(h: Hierarchy, ver: nat, roots: set<nat>, p: Progress, cur: nat, u: nat, from: nat, until: nat, hull: Interval, b: nat, x: nat)
    requires GroupReady(h, ver, roots, p, cur, u, from, until, hull, b) && h.IsNode(x) && x != u
    ensures SiblingsOk(h, ver, AfterGroup(h, p, u, from, until, b), x)
  {
    var p' := AfterGroup(h, p, u, from, until, b);
    var c := h.childs[x];
    assert h.ChildsOk(x);
    forall i | 0 <= i < |c|
      ensures (c[i] in p'.batch <==> c[i] in p.batch) && (c[i] in p.batch ==> p'.batch[c[i]] == p.batch[c[i]])
    {
      if c[i] in h.childs[u][from..until] {
        GroupMembers(h, ver, roots, p, cur, u, from, until, hull, b, c[i]);
      }
    }
    SiblingsFrame(h, ver, p, p', x);
  }

  lemma OwnBatches(h: Hierarchy, ver: nat, p: Progress, u: nat, from: nat, until: nat, b: nat, i: nat)
    requires h.Valid() && h.IsNode(u) && |p.progress| == |h.parent| && SiblingsOk(h, ver, p, u)
    requires from == p.progress[u] <= until <= |h.childs[u]| && i < |h.childs[u]|
    ensures var batch := AfterGroup(h, p, u, from, until, b).batch; var v := h.childs[u][i];
            && (v in batch <==> h.First(u, ver) <= i < until)
            && (h.First(u, ver) <= i < from ==> batch[v] == p.batch[v])
            && (from <= i < until ==> batch[v] == b)
  {
    assert h.ChildsOk(u);
    var c := h.childs[u];
    assert Recorded(h, ver, p, u) && (c[i] in p.batch <==> h.First(u, ver) <= i < from);
    SliceMembers(c, from, until, i);
  }

  lemma SliceMembers(c: seq<nat>, from: nat, until: nat, i: nat)
    requires from <= until <= |c| && i < |c| && forall i, j :: 0 <= i < j < |c| ==> c[i] != c[j]
    ensures c[i] in c[from..until] <==> from <= i < until
  {
    var s := c[from..until];
    if from <= i < until {
      assert s[i - from] == c[i];
    }
    if c[i] in s {
      var k :| 0 <= k < |s| && s[k] == c[i];
      assert c[from + k] == c[i];
    }
  }

  lemma OwnApart(h: Hierarchy, ver: nat, roots: set<nat>, p: Progress, cur: nat, u: nat, from: nat, until: nat, hull: Interval, b: nat, i: nat, j: nat)
    requires GroupReady(h, ver, roots, p, cur, u, from, until, hull, b)
    requires h.First(u, ver) <= i < until <= j < |h.childs[u]|
    ensures Apart(h, ver, u, i, j)
  {
    assert SiblingsOk(h, ver, p, u) && h.ChildsOk(u);
    var c := h.childs[u];
    if i < from {
      assert Apart(h, ver, u, i, j);
    } else if h.version[c[j]] == ver {
      assert h.version[c[from]] <= h.version[c[until]] <= h.version[c[j]];
      GroupClosed(h, ver, u, from, until, hull, i, j);
    }
  }

  lemma OwnPair(h: Hierarchy, ver: nat, roots: set<nat>, p: Progress, cur: nat, u: nat, from: nat, until: nat, hull: Interval, b: nat, i: nat, j: nat)
    requires GroupReady(h, ver, roots, p, cur, u, from, until, hull, b)
    requires h.First(u, ver) <= i < j < until
    ensures PairOk(h, AfterGroup(h, p, u, from, until, b), u, i, j)
  {
    assert SiblingsOk(h, ver, p, u);
    OwnBatches(h, ver, p, u, from, until, b, i);
    OwnBatches(h, ver, p, u, from, until, b, j);
    if j < from {
      assert PairOk(h, p, u, i, j);
    } else if i < from {
      assert Apart(h, ver, u, i, j);
      assert AssignedOk(h, ver, p, cur, h.childs[u][i]);
    }
  }

  lemma OwnRecorded(h: Hierarchy, ver: nat, roots: set<nat>, p: Progress, cur: nat, u: nat, from: nat, until: nat, hull: Interval, b: nat)
    requires GroupReady(h, ver, roots, p, cur, u, from, until, hull, b)
    ensures Recorded(h, ver, AfterGroup(h, p, u, from, until, b), u)
  {
    assert SiblingsOk(h, ver, p, u);
    forall i: nat | i < |h.childs[u]|
      ensures h.childs[u][i] in AfterGroup(h, p, u, from, until, b).batch <==> h.First(u, ver) <= i < until
    {
      OwnBatches(h, ver, p, u, from, until, b, i);
    }
  }

  lemma OwnSiblings(h: Hierarchy, ver: nat, roots: set<nat>, p: Progress, cur: nat, u: nat, from: nat, until: nat, hull: Interval, b: nat)
    requires GroupReady(h, ver, roots, p, cur, u, from, until, hull, b)
    ensures SiblingsOk(h, ver, AfterGroup(h, p, u, from, until, b), u)
  {
    OwnRecorded(h, ver, roots, p, cur, u, from, until, hull, b);
    forall i: nat, j: nat | h.First(u, ver) <= i < j < until ensures PairOk(h, AfterGroup(h, p, u, from, until, b), u, i, j) {
      OwnPair(h, ver, roots, p, cur, u, from, until, hull, b, i, j);
    }
    forall i: nat, j: nat | h.First(u, ver) <= i < until <= j < |h.childs[u]| ensures Apart(h, ver, u, i, j) {
      OwnApart(h, ver, roots, p, cur, u, from, until, hull, b, i, j);
    }
  }

  lemma ProgressAfterGroup(h: Hierarchy, ver: nat, roots: set<nat>, p: Progress, cur: nat, u: nat, from: nat, until: nat, hull: Interval, b: nat)
    requires GroupReady(h, ver, roots, p, cur, u, from, until, hull, b)
    ensures ProgressOk(h, ver, roots, AfterGroup(h, p, u, from, until, b), b)
  {
    var p' := AfterGroup(h, p, u, from, until, b);
    forall x: nat | h.IsNode(x) ensures SiblingsOk(h, ver, p', x) {
      if x == u {
        OwnSiblings(h, ver, roots, p, cur, u, from, until, hull, b);
      } else {
        OtherSiblings(h, ver, roots, p, cur, u, from, until, hull, b, x);
      }
    }
    forall v: nat | v in p'.batch ensures AssignedOk(h, ver, p', b, v) {
      if v in h.childs[u][from..until] {
        GroupMembers(h, ver, roots, p, cur, u, from, until, hull, b, v);
        if u in h.childs[u][from..until] { GroupMembers(h, ver, roots, p, cur, u, from, until, hull, b, u); }
      } else {
        var w := h.parent[v];
        assert AssignedOk(h, ver, p, cur, v);
        if w in h.childs[u][from..until] { GroupMembers(h, ver, roots, p, cur, u, from, until, hull, b, w); }
      }
    }
    forall x | x in p'.entered ensures h.IsNode(x) && (x in roots || x in p'.batch) {
      if x in h.childs[u][from..until] { GroupMembers(h, ver, roots, p, cur, u, from, until, hull, b, x); }
    }
  }

  // ---------- The queues after a group ----------

  /** The children at [from, to) have not been entered anywhere before. */
  ghost predicate MembersReady(h: Hierarchy, ver: nat, p: Progress, before: seq<Element>, u: nat, from: nat, until: nat)
    requires h.Shape() && |p.progress| == |h.parent| && h.IsNode(u) && from <= until <= |h.childs[u]|
  {
    forall i :: from <= i < until ==>
      var x := h.childs[u][i]; x in p.entered && p.progress[x] == h.First(x, ver) && !InQueue(before, x)
  }

  lemma InQueueAppend(pq: seq<Element>, e: Element)
    ensures forall x: nat :: InQueue(pq + [e], x) <==> InQueue(pq, x) || x == e.u
  {
    forall x: nat ensures InQueue(pq + [e], x) <==> InQueue(pq, x) || x == e.u {
      if InQueue(pq, x) {
        var i :| 0 <= i < |pq| && pq[i].u == x;
        assert (pq + [e])[i].u == x;
      }
      assert (pq + [e])[|pq|] == e;
    }
  }

  lemma {:induction false} EnteredQueue(h: Hierarchy, ver: nat, p: Progress, before: seq<Element>, u: nat, from: nat, until: nat)
    requires h.Valid() && |p.progress| == |h.parent| && QueueOk(h, ver, p, before)
    requires h.IsNode(u) && from <= until <= |h.childs[u]| && MembersReady(h, ver, p, before, u, from, until)
    ensures QueueOk(h, ver, p, EnterAll(h, ver, before, u, from, until))
    ensures forall x: nat :: InQueue(EnterAll(h, ver, before, u, from, until), x) ==> InQueue(before, x) || x in h.childs[u][from..until]
    ensures forall x: nat :: InQueue(before, x) ==> InQueue(EnterAll(h, ver, before, u, from, until), x)
    ensures forall x: nat :: x in h.childs[u][from..until] && h.First(x, ver) < |h.childs[x]| ==> InQueue(EnterAll(h, ver, before, u, from, until), x)
    decreases until - from
  {
    if from < until {
      EnteredQueue(h, ver, p, before, u, from, until - 1);
      EnteredOne(h, ver, p, before, u, from, until);
    }
  }

  lemma EnteredOne(h: Hierarchy, ver: nat, p: Progress, before: seq<Element>, u: nat, from: nat, until: nat)
    requires h.Valid() && |p.progress| == |h.parent|
    requires h.IsNode(u) && from < until <= |h.childs[u]| && MembersReady(h, ver, p, before, u, from, until)
    requires var rest := EnterAll(h, ver, before, u, from, until - 1);
             && QueueOk(h, ver, p, rest)
             && (forall x: nat :: InQueue(rest, x) ==> InQueue(before, x) || x in h.childs[u][from..until - 1])
             && (forall x: nat :: InQueue(before, x) ==> InQueue(rest, x))
             && (forall x: nat :: x in h.childs[u][from..until - 1] && h.First(x, ver) < |h.childs[x]| ==> InQueue(rest, x))
    ensures QueueOk(h, ver, p, EnterAll(h, ver, before, u, from, until))
    ensures forall x: nat :: InQueue(EnterAll(h, ver, before, u, from, until), x) ==> InQueue(before, x) || x in h.childs[u][from..until]
    ensures forall x: nat :: InQueue(before, x) ==> InQueue(EnterAll(h, ver, before, u, from, until), x)
    ensures forall x: nat :: x in h.childs[u][from..until] && h.First(x, ver) < |h.childs[x]| ==> InQueue(EnterAll(h, ver, before, u, from, until), x)
  {
    var x := h.childs[u][until - 1];
    var rest := EnterAll(h, ver, before, u, from, until - 1);
    OneMoreMember(h, u, from, until);
    if h.First(x, ver) < |h.childs[x]| {
      var e := Element(h.subtreeSize[h.childs[x][h.First(x, ver)]], x, h.First(x, ver));
      InQueueAppend(rest, e);
      NewMember(h, ver, p, before, u, from, until);
      hide QueueOk, InQueue;
      QueueAppend(h, ver, p, rest, e);
    }
  }

  lemma OneMoreMember(h: Hierarchy, u: nat, from: nat, until: nat)
    requires h.Valid() && h.IsNode(u) && from < until <= |h.childs[u]|
    ensures h.IsNode(h.childs[u][until - 1]) && h.childs[u][until - 1] !in h.childs[u][from..until - 1]
    ensures h.childs[u][from..until] == h.childs[u][from..until - 1] + [h.childs[u][until - 1]]
  {
    assert h.ChildsOk(u);
  }

  lemma NewMember(h: Hierarchy, ver: nat, p: Progress, before: seq<Element>, u: nat, from: nat, until: nat)
    requires h.Valid() && |p.progress| == |h.parent|
    requires h.IsNode(u) && from < until <= |h.childs[u]| && MembersReady(h, ver, p, before, u, from, until)
    ensures var x := h.childs[u][until - 1]; h.IsNode(x) && x in p.entered && p.progress[x] == h.First(x, ver) && !InQueue(before, x)
    ensures var x := h.childs[u][until - 1]; h.First(x, ver) < |h.childs[x]| ==> h.More(x, ver, h.First(x, ver))
  {
    assert h.ChildsOk(u);
  }

  lemma QueueAppend(h: Hierarchy, ver: nat, p: Progress, pq: seq<Element>, e: Element)
    requires |p.progress| == |h.parent| == |h.version| == |h.childs| && QueueOk(h, ver, p, pq) && !InQueue(pq, e.u)
    requires e.u in p.entered && e.u < |h.parent| && e.pos == p.progress[e.u] && h.More(e.u, ver, e.pos)
    ensures QueueOk(h, ver, p, pq + [e])
  {
    forall i, j | 0 <= i < j < |pq + [e]| ensures (pq + [e])[i].u != (pq + [e])[j].u {
      assert pq[i].u == (pq + [e])[i].u;
    }
  }

  /** Removing the top element and entering nothing keeps the queue in order. */
  lemma QueueWithoutTop(h: Hierarchy, ver: nat, p: Progress, pq: seq<Element>, k: nat)
    requires |p.progress| == |h.parent| == |h.version| == |h.childs| && QueueOk(h, ver, p, pq) && k < |pq|
    ensures QueueOk(h, ver, p, pq[..k] + pq[k + 1..])
    ensures !InQueue(pq[..k] + pq[k + 1..], pq[k].u)
    ensures forall x: nat :: InQueue(pq, x) <==> x == pq[k].u || InQueue(pq[..k] + pq[k + 1..], x)
  {
    var rest := pq[..k] + pq[k + 1..];
    forall i | 0 <= i < |rest| ensures rest[i] == pq[if i < k then i else i + 1] {}
    forall x: nat ensures InQueue(pq, x) <==> x == pq[k].u || InQueue(rest, x) {
      InQueueWithout(pq, k, x);
    }
  }

  lemma InQueueWithout(pq: seq<Element>, k: nat, x: nat)
    requires k < |pq|
    ensures InQueue(pq, x) <==> x == pq[k].u || InQueue(pq[..k] + pq[k + 1..], x)
  {
    var rest := pq[..k] + pq[k + 1..];
    if InQueue(pq, x) && x != pq[k].u {
      var i :| 0 <= i < |pq| && pq[i].u == x;
      assert rest[if i < k then i else i - 1].u == x;
    }
    if InQueue(rest, x) {
      var i :| 0 <= i < |rest| && rest[i].u == x;
      assert pq[if i < k then i else i + 1].u == x;
    }
  }

  /** A queue that does not mention the node of the group keeps its meaning. */
  lemma QueueFrame(h: Hierarchy, ver: nat, p: Progress, p': Progress, pq: seq<Element>, u: nat)
    requires |p.progress| == |p'.progress| == |h.parent| == |h.version| == |h.childs| && QueueOk(h, ver, p, pq) && !InQueue(pq, u)
    requires p.entered <= p'.entered && forall x :: 0 <= x < |p.progress| && x != u ==> p'.progress[x] == p.progress[x]
    ensures QueueOk(h, ver, p', pq)
  {
    forall i | 0 <= i < |pq| ensures pq[i].u != u {
    }
  }

  ghost function RestQueue(h: Hierarchy, ver: nat, pq: seq<Element>, k: nat, until: nat): seq<Element>
    requires h.Shape() && k < |pq| && h.IsNode(pq[k].u)
  {
    pq[..k] + pq[k + 1..] + (if h.More(pq[k].u, ver, until) then [Element(h.subtreeSize[h.childs[pq[k].u][until]], pq[k].u, until)] else [])
  }

  lemma RestQueueIs(h: Hierarchy, ver: nat, pq: seq<Element>, k: nat, until: nat, rest: seq<Element>)
    requires h.Shape() && k < |pq| && h.IsNode(pq[k].u) && rest == pq[..k] + pq[k + 1..]
    ensures RestQueue(h, ver, pq, k, until)
              == if h.More(pq[k].u, ver, until) then rest + [Element(h.subtreeSize[h.childs[pq[k].u][until]], pq[k].u, until)] else rest
  {
  }

  lemma InRestQueue(h: Hierarchy, ver: nat, p: Progress, pq: seq<Element>, k: nat, until: nat)
    requires h.Shape() && |p.progress| == |h.parent| && QueueOk(h, ver, p, pq) && k < |pq|
    ensures forall x: nat :: InQueue(RestQueue(h, ver, pq, k, until), x) <==> InQueue(pq, x) && (x == pq[k].u ==> h.More(pq[k].u, ver, until))
  {
    QueueWithoutTop(h, ver, p, pq, k);
    var rest, all := pq[..k] + pq[k + 1..], RestQueue(h, ver, pq, k, until);
    forall x: nat ensures InQueue(all, x) <==> InQueue(rest, x) || (x == pq[k].u && h.More(pq[k].u, ver, until)) {
      if InQueue(rest, x) {
        var i :| 0 <= i < |rest| && rest[i].u == x;
        assert all[i].u == x;
      }
      if h.More(pq[k].u, ver, until) { assert all[|rest|].u == pq[k].u; }
    }
  }

  /** One turn of the main loop, before the queues are possibly swapped. */
  ghost predicate Turn(h: Hierarchy, ver: nat, roots: set<nat>, p: Progress, pq: seq<Element>, next: seq<Element>, cur: nat,
                       k: nat, until: nat, hull: Interval, b: nat) {
    && LoopInv(h, ver, roots, p, pq, next, cur) && k < |pq|
    && GroupReady(h, ver, roots, p, cur, pq[k].u, pq[k].pos, until, hull, b)
  }

  lemma MembersNew(h: Hierarchy, ver: nat, roots: set<nat>, p: Progress, pq: seq<Element>, next: seq<Element>, cur: nat,
                   k: nat, until: nat, hull: Interval, b: nat, x: nat)
    requires Turn(h, ver, roots, p, pq, next, cur, k, until, hull, b) && x in h.childs[pq[k].u][pq[k].pos..until]
    ensures h.IsNode(x) && x != pq[k].u && p.progress[x] == h.First(x, ver) && !InQueue(next, x) && !InQueue(pq, x)
    ensures x in AfterGroup(h, p, pq[k].u, pq[k].pos, until, b).entered
    ensures x in AfterGroup(h, p, pq[k].u, pq[k].pos, until, b).batch && AfterGroup(h, p, pq[k].u, pq[k].pos, until, b).batch[x] == b
  {
    GroupMembers(h, ver, roots, p, cur, pq[k].u, pq[k].pos, until, hull, b, x);
    assert SiblingsOk(h, ver, p, x) && Recorded(h, ver, p, x);
  }

  lemma MembersAreReady(h: Hierarchy, ver: nat, roots: set<nat>, p: Progress, pq: seq<Element>, next: seq<Element>, cur: nat,
                        k: nat, until: nat, hull: Interval, b: nat)
    requires Turn(h, ver, roots, p, pq, next, cur, k, until, hull, b)
    ensures MembersReady(h, ver, AfterGroup(h, p, pq[k].u, pq[k].pos, until, b), next, pq[k].u, pq[k].pos, until)
  {
    var u, from := pq[k].u, pq[k].pos;
    forall i | from <= i < until
      ensures var x := h.childs[u][i]; var p' := AfterGroup(h, p, u, from, until, b);
              x in p'.entered && p'.progress[x] == h.First(x, ver) && !InQueue(next, x)
    {
      assert h.childs[u][from..until][i - from] == h.childs[u][i];
      MembersNew(h, ver, roots, p, pq, next, cur, k, until, hull, b, h.childs[u][i]);
    }
  }

  lemma QueuesFramed(h: Hierarchy, ver: nat, roots: set<nat>, p: Progress, pq: seq<Element>, next: seq<Element>, cur: nat,
                     k: nat, until: nat, hull: Interval, b: nat)
    requires Turn(h, ver, roots, p, pq, next, cur, k, until, hull, b)
    ensures QueueOk(h, ver, AfterGroup(h, p, pq[k].u, pq[k].pos, until, b), next)
    ensures QueueOk(h, ver, AfterGroup(h, p, pq[k].u, pq[k].pos, until, b), RestQueue(h, ver, pq, k, until))
  {
    var u := pq[k].u;
    var p' := AfterGroup(h, p, u, pq[k].pos, until, b);
    QueueWithoutTop(h, ver, p, pq, k);
    var rest := pq[..k] + pq[k + 1..];
    QueueFrame(h, ver, p, p', rest, u);
    assert !InQueue(next, u);
    QueueFrame(h, ver, p, p', next, u);
    if h.More(u, ver, until) {
      QueueAppend(h, ver, p', rest, Element(h.subtreeSize[h.childs[u][until]], u, until));
    } else {
      assert RestQueue(h, ver, pq, k, until) == rest;
    }
  }

  lemma QueuesComplete(h: Hierarchy, ver: nat, roots: set<nat>, p: Progress, pq: seq<Element>, next: seq<Element>, cur: nat,
                       k: nat, until: nat, hull: Interval, b: nat)
    requires Turn(h, ver, roots, p, pq, next, cur, k, until, hull, b)
    ensures var u, from := pq[k].u, pq[k].pos; var p' := AfterGroup(h, p, u, from, until, b);
            var pq', next' := RestQueue(h, ver, pq, k, until), EnterAll(h, ver, next, u, from, until);
            Disjoint(pq', next') && AllQueued(h, ver, p', pq', next')
  {
    var u, from := pq[k].u, pq[k].pos;
    var p' := AfterGroup(h, p, u, from, until, b);
    var pq', next' := RestQueue(h, ver, pq, k, until), EnterAll(h, ver, next, u, from, until);
    MembersAreReady(h, ver, roots, p, pq, next, cur, k, until, hull, b);
    QueuesFramed(h, ver, roots, p, pq, next, cur, k, until, hull, b);
    EnteredQueue(h, ver, p', next, u, from, until);
    InRestQueue(h, ver, p, pq, k, until);
    forall i, j | 0 <= i < |pq'| && 0 <= j < |next'| ensures pq'[i].u != next'[j].u {
      assert InQueue(pq', pq'[i].u) && InQueue(next', next'[j].u);
      if next'[j].u in h.childs[u][from..until] {
        MembersNew(h, ver, roots, p, pq, next, cur, k, until, hull, b, next'[j].u);
      }
    }
    forall x: nat | x in p'.entered && x < |h.parent| && h.More(x, ver, p'.progress[x]) ensures InQueue(pq', x) || InQueue(next', x) {
      if x in h.childs[u][from..until] {
        MembersNew(h, ver, roots, p, pq, next, cur, k, until, hull, b, x);
      } else if x != u {
        assert x in p.entered && p'.progress[x] == p.progress[x];
      }
    }
  }

  lemma LevelsOk(h: Hierarchy, ver: nat, roots: set<nat>, p: Progress, pq: seq<Element>, next: seq<Element>, cur: nat,
                 k: nat, until: nat, hull: Interval, b: nat)
    requires Turn(h, ver, roots, p, pq, next, cur, k, until, hull, b)
    ensures LevelOk(AfterGroup(h, p, pq[k].u, pq[k].pos, until, b), RestQueue(h, ver, pq, k, until), b)
    ensures LevelOk(AfterGroup(h, p, pq[k].u, pq[k].pos, until, b), EnterAll(h, ver, next, pq[k].u, pq[k].pos, until), b + 1)
  {
    var u, from := pq[k].u, pq[k].pos;
    var group := h.childs[u][from..until];
    var p' := AfterGroup(h, p, u, from, until, b);
    var pq', next' := RestQueue(h, ver, pq, k, until), EnterAll(h, ver, next, u, from, until);
    MembersAreReady(h, ver, roots, p, pq, next, cur, k, until, hull, b);
    QueuesFramed(h, ver, roots, p, pq, next, cur, k, until, hull, b);
    EnteredQueue(h, ver, p', next, u, from, until);
    InRestQueue(h, ver, p, pq, k, until);
    forall x: nat | InQueue(pq', x) && x in p'.batch ensures p'.batch[x] < b {
      if x in group { MembersNew(h, ver, roots, p, pq, next, cur, k, until, hull, b, x); }
    }
    forall x: nat | InQueue(next', x) && x in p'.batch ensures p'.batch[x] < b + 1 {
      if x in group { MembersNew(h, ver, roots, p, pq, next, cur, k, until, hull, b, x); }
    }
  }

  lemma TurnKeeps(h: Hierarchy, ver: nat, roots: set<nat>, p: Progress, pq: seq<Element>, next: seq<Element>, cur: nat,
                  k: nat, until: nat, hull: Interval, b: nat)
    requires Turn(h, ver, roots, p, pq, next, cur, k, until, hull, b)
    ensures LoopInv(h, ver, roots, AfterGroup(h, p, pq[k].u, pq[k].pos, until, b), RestQueue(h, ver, pq, k, until),
                    EnterAll(h, ver, next, pq[k].u, pq[k].pos, until), b)
  {
    var u, from := pq[k].u, pq[k].pos;
    MembersAreReady(h, ver, roots, p, pq, next, cur, k, until, hull, b);
    QueuesFramed(h, ver, roots, p, pq, next, cur, k, until, hull, b);
    EnteredQueue(h, ver, AfterGroup(h, p, u, from, until, b), next, u, from, until);
    ProgressAfterGroup(h, ver, roots, p, cur, u, from, until, hull, b);
    QueuesComplete(h, ver, roots, p, pq, next, cur, k, until, hull, b);
    LevelsOk(h, ver, roots, p, pq, next, cur, k, until, hull, b);
  }

  // ---------- The whole walk of one thread ----------

  function GroupAssignments(h: Hierarchy, u: nat, from: nat, until: nat, b: nat, basePos: nat): seq<Assignment>
    requires u < |h.childs| && from <= until <= |h.childs[u]|
  {
    seq(until - from, k requires 0 <= k < until - from => Assignment(u, h.childs[u][from + k], b, basePos + k))
  }

  /** One answer of the assigner: the group holds the positions from `base` on of its batch, and is entered
      from index `lo` on in the list of the thread. */
  datatype Group = Group(batch: nat, base: nat, lo: nat, num: nat)

  /** The groups follow each other in the list, and every entry of a group has its position. */
  ghost predicate Grouped(groups: seq<Group>, out: seq<Assignment>)
    decreases |groups|
  {
    if groups == [] then out == []
    else
      var g := groups[|groups| - 1];
      && g.num > 0 && g.lo + g.num == |out| && Grouped(groups[..|groups| - 1], out[..g.lo])
      && forall k: nat {:trigger Placed(out, g, k)} :: k < g.num ==> Placed(out, g, k)
  }

  predicate Placed(out: seq<Assignment>, g: Group, k: nat) {
    g.lo + k < |out| && out[g.lo + k].batchIndex == g.batch && out[g.lo + k].batchPos == g.base + k
  }

  lemma GroupAdded(groups: seq<Group>, out: seq<Assignment>, h: Hierarchy, u: nat, from: nat, until: nat, b: nat, basePos: nat)
    requires Grouped(groups, out) && u < |h.childs| && from < until <= |h.childs[u]|
    ensures Grouped(groups + [Group(b, basePos, |out|, until - from)], out + GroupAssignments(h, u, from, until, b, basePos))
  {
    var groups', out' := groups + [Group(b, basePos, |out|, until - from)], out + GroupAssignments(h, u, from, until, b, basePos);
    assert groups'[..|groups'| - 1] == groups && out'[..|out|] == out;
    var g := groups'[|groups|];
    forall k: nat | k < g.num ensures Placed(out', g, k) {
      assert out'[g.lo + k] == GroupAssignments(h, u, from, until, b, basePos)[k];
    }
  }

  ghost predicate Listed(out: seq<Assignment>, v: nat) {
    exists i :: 0 <= i < |out| && out[i].v == v
  }

  /** The list names every assigned contraction once, with its batch. */
  ghost predicate Matches(h: Hierarchy, batch: map<nat, nat>, out: seq<Assignment>) {
    && (forall i :: 0 <= i < |out| ==> EntryOk(h, batch, out[i]))
    && (forall i, j :: 0 <= i < j < |out| ==> out[i].v != out[j].v)
    && (forall v: nat :: v in batch ==> Listed(out, v))
  }

  ghost predicate EntryOk(h: Hierarchy, batch: map<nat, nat>, a: Assignment) {
    a.v in batch && a.batchIndex == batch[a.v] && a.v < |h.parent| && a.u == h.parent[a.v]
  }

  lemma MatchesAppend(h: Hierarchy, batch: map<nat, nat>, batch': map<nat, nat>, out: seq<Assignment>, group: seq<Assignment>)
    requires Matches(h, batch, out)
    requires forall v: nat :: v in batch ==> v in batch' && batch'[v] == batch[v]
    requires forall k :: 0 <= k < |group| ==> EntryOk(h, batch', group[k]) && group[k].v !in batch
    requires forall k, l :: 0 <= k < l < |group| ==> group[k].v != group[l].v
    requires forall v: nat :: v in batch' ==> v in batch || Listed(group, v)
    ensures Matches(h, batch', out + group)
  {
    var all := out + group;
    forall i | 0 <= i < |all| ensures EntryOk(h, batch', all[i]) && (all[i].v in batch <==> i < |out|) {
      if i < |out| {
        assert EntryOk(h, batch, out[i]);
      } else {
        assert all[i] == group[i - |out|];
      }
    }
    forall i, j | 0 <= i < j < |all| ensures all[i].v != all[j].v {
      if i >= |out| {
        assert all[i] == group[i - |out|] && all[j] == group[j - |out|];
      }
    }
    forall v: nat | v in batch' ensures Listed(all, v) {
      if v in batch {
        assert Listed(out, v);
        var i :| 0 <= i < |out| && out[i].v == v;
        assert all[i].v == v;
      } else {
        var k :| 0 <= k < |group| && group[k].v == v;
        assert all[|out| + k].v == v;
      }
    }
  }

  lemma BatchAfterGroup(h: Hierarchy, p: Progress, u: nat, from: nat, until: nat, b: nat)
    requires h.Valid() && h.IsNode(u) && from <= until <= |h.childs[u]| && |p.progress| == |h.parent|
    ensures var batch := AfterGroup(h, p, u, from, until, b).batch;
            && (forall v: nat :: v in batch <==> v in p.batch || v in h.childs[u][from..until])
            && (forall v: nat :: v in batch ==> batch[v] == if v in h.childs[u][from..until] then b else p.batch[v])
  {
  }

  lemma MatchesAfterGroup(h: Hierarchy, ver: nat, roots: set<nat>, p: Progress, cur: nat, u: nat, from: nat, until: nat, hull: Interval, b: nat,
                          out: seq<Assignment>, basePos: nat)
    requires GroupReady(h, ver, roots, p, cur, u, from, until, hull, b) && Matches(h, p.batch, out)
    ensures Matches(h, AfterGroup(h, p, u, from, until, b).batch, out + GroupAssignments(h, u, from, until, b, basePos))
  {
    hide *;
    GroupParts(h, ver, roots, p, cur, u, from, until, hull, b);
    var batch := AfterGroup(h, p, u, from, until, b).batch;
    var group := GroupAssignments(h, u, from, until, b, basePos);
    GroupLength(h, u, from, until, b, basePos);
    BatchAfterGroup(h, p, u, from, until, b);
    forall k | 0 <= k < |group| ensures EntryOk(h, batch, group[k]) && group[k].v !in p.batch && group[k].v == h.childs[u][from..until][k] {
      GroupEntry(h, ver, roots, p, cur, u, from, until, hull, b, basePos, k);
    }
    forall v: nat | v in batch && v !in p.batch ensures Listed(group, v) {
      var k :| 0 <= k < until - from && h.childs[u][from..until][k] == v;
      ListedAt(group, k);
    }
    MatchesAppend(h, p.batch, batch, out, group);
  }

  lemma GroupParts(h: Hierarchy, ver: nat, roots: set<nat>, p: Progress, cur: nat, u: nat, from: nat, until: nat, hull: Interval, b: nat)
    requires GroupReady(h, ver, roots, p, cur, u, from, until, hull, b)
    ensures h.Valid() && h.IsNode(u) && u < |h.childs| && from < until <= |h.childs[u]| && |p.progress| == |h.parent|
    ensures forall i, j :: 0 <= i < j < |h.childs[u]| ==> h.childs[u][i] != h.childs[u][j]
  {
    assert h.ChildsOk(u);
  }

  lemma GroupLength(h: Hierarchy, u: nat, from: nat, until: nat, b: nat, basePos: nat)
    requires u < |h.childs| && from <= until <= |h.childs[u]|
    ensures |GroupAssignments(h, u, from, until, b, basePos)| == until - from
  {
  }

  lemma ListedAt(group: seq<Assignment>, k: nat)
    requires k < |group|
    ensures Listed(group, group[k].v)
  {
  }

  lemma GroupEntry(h: Hierarchy, ver: nat, roots: set<nat>, p: Progress, cur: nat, u: nat, from: nat, until: nat, hull: Interval, b: nat, basePos: nat, k: nat)
    requires GroupReady(h, ver, roots, p, cur, u, from, until, hull, b) && k < until - from
    ensures var a := GroupAssignments(h, u, from, until, b, basePos)[k];
            && EntryOk(h, AfterGroup(h, p, u, from, until, b).batch, a) && a.v !in p.batch && a.v == h.childs[u][from..until][k]
  {
    assert h.childs[u][from..until][k] == h.childs[u][from + k];
    GroupMembers(h, ver, roots, p, cur, u, from, until, hull, b, h.childs[u][from + k]);
    hide ProgressOk, Hierarchy.ChildsOk, Hierarchy.ParentOk;
    BatchAfterGroup(h, p, u, from, until, b);
  }

  ghost function RootSet(roots: seq<nat>): set<nat> {
    set r | r in roots
  }

  ghost function StartProgress(h: Hierarchy, ver: nat, roots: set<nat>): Progress
    requires h.Shape()
  {
    Progress(map[], roots, seq(|h.parent|, u requires 0 <= u < |h.parent| => h.First(u, ver)))
  }

  /** The queue after all roots handed to the thread were entered. */
  ghost function QueueOfRoots(h: Hierarchy, ver: nat, roots: seq<nat>): seq<Element>
    requires h.Shape() && forall r :: r in roots ==> h.IsNode(r)
  {
    if roots == [] then [] else EnterOne(h, ver, QueueOfRoots(h, ver, roots[..|roots| - 1]), roots[|roots| - 1])
  }

  method EnterRoots(h: Hierarchy, ver: nat, roots: seq<nat>) returns (pq: seq<Element>)
    requires h.Shape() && forall r :: r in roots ==> h.IsNode(r)
    ensures pq == QueueOfRoots(h, ver, roots)
  {
    pq := [];
    for i := 0 to |roots|
      invariant pq == QueueOfRoots(h, ver, roots[..i])
    {
      assert roots[..i + 1][..i] == roots[..i];
      pq := PushIntoPq(h, ver, pq, roots[i]);
    }
    assert roots[..|roots|] == roots;
  }

  ghost predicate NoTwice(s: seq<nat>) {
    forall i, j :: 0 <= i < j < |s| ==> s[i] != s[j]
  }

  lemma {:induction false} RootsQueued(h: Hierarchy, ver: nat, roots: seq<nat>, p: Progress)
    requires h.Valid() && NoTwice(roots) && (forall r :: r in roots ==> h.IsNode(r) && r in p.entered) && |p.progress| == |h.parent|
    requires forall u: nat :: h.IsNode(u) ==> p.progress[u] == h.First(u, ver)
    ensures var pq := QueueOfRoots(h, ver, roots);
            QueueOk(h, ver, p, pq) && forall x: nat :: InQueue(pq, x) <==> x in roots && h.First(x, ver) < |h.childs[x]|
  {
    if roots != [] {
      var front, u := roots[..|roots| - 1], roots[|roots| - 1];
      RootsQueued(h, ver, front, p);
      assert roots == front + [u] && u !in front;
      var before := QueueOfRoots(h, ver, front);
      if h.First(u, ver) < |h.childs[u]| {
        var e := Element(h.subtreeSize[h.childs[u][h.First(u, ver)]], u, h.First(u, ver));
        InQueueAppend(before, e);
        QueueAppend(h, ver, p, before, e);
      }
    }
  }

  /** A thread starts with its roots. */
  ghost function StartWork(h: Hierarchy, ver: nat, roots: seq<nat>): Work
    requires h.Shape() && forall r :: r in roots ==> h.IsNode(r)
  {
    Work(StartProgress(h, ver, RootSet(roots)), QueueOfRoots(h, ver, roots), [], [], [])
  }

  lemma WorkStarts(h: Hierarchy, ver: nat, roots: seq<nat>)
    requires h.Valid() && RootsOk(h, ver, RootSet(roots)) && NoTwice(roots) && forall r :: r in roots ==> h.IsNode(r)
    ensures Between(h, ver, RootSet(roots), StartWork(h, ver, roots), 0)
  {
    var w := StartWork(h, ver, roots);
    RootsQueued(h, ver, roots, w.p);
    forall u: nat | h.IsNode(u) ensures SiblingsOk(h, ver, w.p, u) {
      assert Recorded(h, ver, w.p, u);
    }
    assert AllQueued(h, ver, w.p, w.pq, []);
  }

  lemma WorkIs(h: Hierarchy, ver: nat, roots: seq<nat>)
    requires h.Shape() && forall r :: r in roots ==> h.IsNode(r)
    ensures var w := StartWork(h, ver, roots); w.pq == QueueOfRoots(h, ver, roots) && w.next == [] && w.out == []
  {
  }

  lemma TopReady(h: Hierarchy, ver: nat, roots: set<nat>, p: Progress, pq: seq<Element>, next: seq<Element>, cur: nat, k: nat)
    requires LoopInv(h, ver, roots, p, pq, next, cur) && k < |pq|
    ensures h.Valid() && |p.progress| == |h.parent| && h.IsNode(pq[k].u) && h.More(pq[k].u, ver, pq[k].pos)
    ensures pq[k].u in p.entered && pq[k].pos == p.progress[pq[k].u]
    ensures pq[k].u in p.batch ==> p.batch[pq[k].u] < cur
  {
    assert InQueue(pq, pq[k].u);
  }

  /** Everything one turn of the loop keeps. */
  lemma WholeTurn(h: Hierarchy, ver: nat, roots: set<nat>, p: Progress, pq: seq<Element>, next: seq<Element>, cur: nat,
                  k: nat, until: nat, hull: Interval, b: nat, out: seq<Assignment>, basePos: nat)
    requires LoopInv(h, ver, roots, p, pq, next, cur) && k < |pq| && b >= cur && Matches(h, p.batch, out)
    requires GroupOk(h, ver, pq[k].u, pq[k].pos, until, hull)
    requires h.More(pq[k].u, ver, until) ==> !DoesIntervalIntersect(hull, h.interval[h.childs[pq[k].u][until]])
    ensures var u, from := pq[k].u, pq[k].pos; var p' := AfterGroup(h, p, u, from, until, b);
            && LoopInv(h, ver, roots, p', RestQueue(h, ver, pq, k, until), EnterAll(h, ver, next, u, from, until), b)
            && Matches(h, p'.batch, out + GroupAssignments(h, u, from, until, b, basePos))
            && UpTo(|h.parent|) - p'.batch.Keys < UpTo(|h.parent|) - p.batch.Keys
  {
    TopReady(h, ver, roots, p, pq, next, cur, k);
    TurnKeeps(h, ver, roots, p, pq, next, cur, k, until, hull, b);
    MatchesAfterGroup(h, ver, roots, p, cur, pq[k].u, pq[k].pos, until, hull, b, out, basePos);
    GroupAdvances(h, ver, roots, p, cur, pq[k].u, pq[k].pos, until, hull, b);
  }

  /** What a thread holds: its priority queues for this level and the next, and what it has assigned. */
  datatype Work = Work(p: Progress, pq: seq<Element>, next: seq<Element>, out: seq<Assignment>, groups: seq<Group>)

  /** The state of the loop between two turns. */
  ghost predicate Between(h: Hierarchy, ver: nat, roots: set<nat>, w: Work, cur: nat) {
    && LoopInv(h, ver, roots, w.p, w.pq, w.next, cur) && Matches(h, w.p.batch, w.out) && Grouped(w.groups, w.out)
    && (w.pq == [] ==> w.next == [])
  }

  /** The group that the next turn assigns: it starts at an element of largest objective, and goes on up to
      the first sibling that does not meet it. */
  ghost predicate Chosen(h: Hierarchy, ver: nat, w: Work, k: nat, until: nat, hull: Interval) {
    && h.Valid() && |w.p.progress| == |h.parent| && k < |w.pq| && h.IsNode(w.pq[k].u)
    && (forall i :: 0 <= i < |w.pq| ==> w.pq[i].objective <= w.pq[k].objective)
    && GroupOk(h, ver, w.pq[k].u, w.pq[k].pos, until, hull)
    && (h.More(w.pq[k].u, ver, until) ==> !DoesIntervalIntersect(hull, h.interval[h.childs[w.pq[k].u][until]]))
  }

  /** The thread after the assigner answered with position `base` of batch b. */
  ghost function Turned(h: Hierarchy, ver: nat, w: Work, k: nat, until: nat, hull: Interval, b: nat, base: nat): Work
    requires Chosen(h, ver, w, k, until, hull)
  {
    var u, from, rest := w.pq[k].u, w.pq[k].pos, RestQueue(h, ver, w.pq, k, until);
    var next := EnterAll(h, ver, w.next, u, from, until);
    Work(AfterGroup(h, w.p, u, from, until, b), if rest == [] then next else rest, if rest == [] then [] else next,
         w.out + GroupAssignments(h, u, from, until, b, base), w.groups + [Group(b, base, |w.out|, until - from)])
  }

  ghost predicate LevelDone(h: Hierarchy, ver: nat, w: Work, k: nat, until: nat, hull: Interval)
    requires Chosen(h, ver, w, k, until, hull)
  {
    RestQueue(h, ver, w.pq, k, until) == []
  }

  /** As long as there is work, there is a group to choose. */
  lemma SomeGroup(h: Hierarchy, ver: nat, roots: set<nat>, w: Work, cur: nat) returns (k: nat, until: nat, hull: Interval)
    requires Between(h, ver, roots, w, cur) && w.pq != []
    ensures Chosen(h, ver, w, k, until, hull)
  {
    k := 0;
    for i := 1 to |w.pq|
      invariant k < |w.pq| && forall j :: 0 <= j < i ==> w.pq[j].objective <= w.pq[k].objective
    {
      if w.pq[i].objective > w.pq[k].objective {
        k := i;
      }
    }
    TopReady(h, ver, roots, w.p, w.pq, w.next, cur, k);
    until, hull := GroupFrom(h, ver, w.pq[k].u, w.pq[k].pos);
  }

  lemma GroupFrom(h: Hierarchy, ver: nat, u: nat, from: nat) returns (until: nat, hull: Interval)
    requires h.Valid() && h.IsNode(u) && h.More(u, ver, from)
    ensures GroupOk(h, ver, u, from, until, hull)
    ensures h.More(u, ver, until) ==> !DoesIntervalIntersect(hull, h.interval[h.childs[u][until]])
  {
    until, hull := from + 1, h.interval[h.childs[u][from]];
    GroupStarts(h, ver, u, from);
    while h.More(u, ver, until) && DoesIntervalIntersect(hull, h.interval[h.childs[u][until]])
      invariant GroupOk(h, ver, u, from, until, hull)
      decreases |h.childs[u]| - until
    {
      GroupGrows(h, ver, u, from, until, hull);
      until, hull := until + 1, Hull(hull, h.interval[h.childs[u][until]]);
    }
  }

  lemma ChosenInRange(h: Hierarchy, ver: nat, w: Work, k: nat, until: nat, hull: Interval)
    requires Chosen(h, ver, w, k, until, hull)
    ensures h.Shape() && k < |w.pq| && h.IsNode(w.pq[k].u) && w.pq[k].pos < until <= |h.childs[w.pq[k].u]|
  {
  }

  lemma TurnedBetween(h: Hierarchy, ver: nat, roots: set<nat>, w: Work, cur: nat, k: nat, until: nat, hull: Interval, b: nat, base: nat)
    requires Between(h, ver, roots, w, cur) && Chosen(h, ver, w, k, until, hull) && b >= cur
    ensures Between(h, ver, roots, Turned(h, ver, w, k, until, hull, b, base), if LevelDone(h, ver, w, k, until, hull) then b + 1 else b)
    ensures UpTo(|h.parent|) - Turned(h, ver, w, k, until, hull, b, base).p.batch.Keys < UpTo(|h.parent|) - w.p.batch.Keys
  {
    hide LoopInv, Matches, Grouped, AfterGroup, RestQueue, EnterAll, EnterOne, Hierarchy.Valid, GroupAssignments, UpTo, GroupOk;
    ChosenInRange(h, ver, w, k, until, hull);
    var u, from := w.pq[k].u, w.pq[k].pos;
    WholeTurn(h, ver, roots, w.p, w.pq, w.next, cur, k, until, hull, b, w.out, base);
    GroupAdded(w.groups, w.out, h, u, from, until, b, base);
    if LevelDone(h, ver, w, k, until, hull) {
      NextLevel(h, ver, roots, AfterGroup(h, w.p, u, from, until, b), EnterAll(h, ver, w.next, u, from, until), b);
    }
  }

  /** One turn took `w` to w'. The assigner answers with any batch index that is not below the requested one. */
  ghost predicate TurnTaken(h: Hierarchy, ver: nat, w: Work, cur: nat, w': Work, cur': nat) {
    exists k: nat, until: nat, hull, b: nat, base: nat :: TurnIs(h, ver, w, cur, k, until, hull, b, base, w', cur')
  }

  ghost predicate TurnIs(h: Hierarchy, ver: nat, w: Work, cur: nat, k: nat, until: nat, hull: Interval, b: nat, base: nat, w': Work, cur': nat) {
    && Chosen(h, ver, w, k, until, hull) && b >= cur && w' == Turned(h, ver, w, k, until, hull, b, base)
    && cur' == if LevelDone(h, ver, w, k, until, hull) then b + 1 else b
  }

  /** Assigns one group to a batch and moves on to the next level when the current one is done. */
  method TakeTurn(h: Hierarchy, ver: nat, pq: seq<Element>, nextPq: seq<Element>, current: nat, out: seq<Assignment>,
                  ghost roots: set<nat>, ghost w: Work)
    returns (pq': seq<Element>, nextPq': seq<Element>, current': nat, out': seq<Assignment>, ghost w': Work)
    requires Between(h, ver, roots, w, current) && w.pq == pq != [] && w.next == nextPq && w.out == out
    ensures TurnTaken(h, ver, w, current, w', current') && w'.pq == pq' && w'.next == nextPq' && w'.out == out'
  {
    hide Matches, Grouped, AfterGroup, GroupOk, ProgressOk, QueueOk, AllQueued, LevelOk, Disjoint;
    var top, rest, k := PopTop(pq);
    TopReady(h, ver, roots, w.p, pq, nextPq, current, k);
    var u, from := top.u, top.pos;
    var until, nextLevel, hull := CollectGroup(h, ver, u, from, nextPq);
    RestQueueIs(h, ver, pq, k, until, rest);
    var b: nat :| b >= current;
    var basePos: nat :| basePos >= 0;
    out' := out + GroupAssignments(h, u, from, until, b, basePos);
    w' := Turned(h, ver, w, k, until, hull, b, basePos);
    if until < |h.childs[u]| && h.version[h.childs[u][until]] == ver {
      pq', nextPq', current' := rest + [Element(h.subtreeSize[h.childs[u][until]], u, until)], nextLevel, b;
    } else if rest != [] {
      pq', nextPq', current' := rest, nextLevel, b;
    } else {
      pq', nextPq', current' := nextLevel, [], b + 1;
    }
    assert TurnIs(h, ver, w, current, k, until, hull, b, basePos, w', current');
  }

  /** The turns of a thread: what it holds, and its current batch. */
  ghost predicate IsTrail(h: Hierarchy, ver: nat, roots: seq<nat>, trail: seq<(Work, nat)>) {
    && h.Shape() && (forall r :: r in roots ==> h.IsNode(r)) && trail != [] && trail[0] == (StartWork(h, ver, roots), 0)
    && forall i: nat {:trigger TurnAt(h, ver, trail, i)} :: TurnAt(h, ver, trail, i)
  }

  ghost predicate TurnAt(h: Hierarchy, ver: nat, trail: seq<(Work, nat)>, i: nat) {
    i + 1 < |trail| ==> TurnTaken(h, ver, trail[i].0, trail[i].1, trail[i + 1].0, trail[i + 1].1)
  }

  lemma OneMoreTurn(h: Hierarchy, ver: nat, roots: seq<nat>, trail: seq<(Work, nat)>, w: Work, cur: nat)
    requires IsTrail(h, ver, roots, trail)
    requires var last := trail[|trail| - 1]; TurnTaken(h, ver, last.0, last.1, w, cur)
    ensures IsTrail(h, ver, roots, trail + [(w, cur)])
  {
    hide TurnTaken, StartWork;
    var trail' := trail + [(w, cur)];
    forall i: nat ensures TurnAt(h, ver, trail', i) {
      assert TurnAt(h, ver, trail, i);
    }
  }

  /** Distributes the contractions below the given version roots over batches. `groups` are the answers of
      the assigner, `trail` are the turns. */
  method ScheduleThread(h: Hierarchy, ver: nat, roots: seq<nat>) returns (out: seq<Assignment>, ghost groups: seq<Group>, ghost trail: seq<(Work, nat)>)
    requires h.Valid() && RootsOk(h, ver, RootSet(roots)) && NoTwice(roots)
    ensures Scheduled(h, ver, RootSet(roots), out)
    ensures Grouped(groups, out)
    ensures IsTrail(h, ver, roots, trail)
    ensures var w := trail[|trail| - 1].0; w.pq == [] && w.out == out && w.groups == groups
  {
    hide TurnTaken, StartWork;
    assert forall r :: r in roots ==> r in RootSet(roots);
    var pq := EnterRoots(h, ver, roots);
    var nextPq := [];
    var current: nat := 0;
    ghost var w := StartWork(h, ver, roots);
    WorkStarts(h, ver, roots);
    WorkIs(h, ver, roots);
    trail := [(w, current)];
    out := [];
    while pq != []
      invariant IsTrail(h, ver, roots, trail) && trail[|trail| - 1] == (w, current)
      invariant Between(h, ver, RootSet(roots), w, current) && w.pq == pq && w.next == nextPq && w.out == out
      decreases UpTo(|h.parent|) - w.p.batch.Keys
    {
      ghost var before, cur := w, current;
      pq, nextPq, current, out, w := TakeTurn(h, ver, pq, nextPq, current, out, RootSet(roots), w);
      TurnKeepsBetween(h, ver, RootSet(roots), before, cur, w, current);
      OneMoreTurn(h, ver, roots, trail, w, current);
      trail := trail + [(w, current)];
    }
    groups := w.groups;
    ScheduledAtEnd(h, ver, RootSet(roots), w.p, current, out);
  }

  lemma TurnKeepsBetween(h: Hierarchy, ver: nat, roots: set<nat>, w: Work, cur: nat, w': Work, cur': nat)
    requires Between(h, ver, roots, w, cur) && TurnTaken(h, ver, w, cur, w', cur')
    ensures Between(h, ver, roots, w', cur') && UpTo(|h.parent|) - w'.p.batch.Keys < UpTo(|h.parent|) - w.p.batch.Keys
  {
    var k: nat, until: nat, hull, b: nat, base: nat :| TurnIs(h, ver, w, cur, k, until, hull, b, base, w', cur');
    TurnedBetween(h, ver, roots, w, cur, k, until, hull, b, base);
  }

  lemma GroupAdvances(h: Hierarchy, ver: nat, roots: set<nat>, p: Progress, cur: nat, u: nat, from: nat, until: nat, hull: Interval, b: nat)
    requires GroupReady(h, ver, roots, p, cur, u, from, until, hull, b)
    ensures UpTo(|h.parent|) - AfterGroup(h, p, u, from, until, b).batch.Keys < UpTo(|h.parent|) - p.batch.Keys
  {
    var v := h.childs[u][from];
    assert h.childs[u][from..until][0] == v;
    GroupMembers(h, ver, roots, p, cur, u, from, until, hull, b, v);
    assert v in UpTo(|h.parent|) - p.batch.Keys && v in AfterGroup(h, p, u, from, until, b).batch.Keys;
  }

  lemma NextLevel(h: Hierarchy, ver: nat, roots: set<nat>, p: Progress, next: seq<Element>, cur: nat)
    requires LoopInv(h, ver, roots, p, [], next, cur)
    ensures LoopInv(h, ver, roots, p, next, [], cur + 1)
  {
    forall u: nat | u in p.entered && u < |h.parent| && h.More(u, ver, p.progress[u]) ensures InQueue(next, u) || InQueue([], u) {
      assert InQueue([], u) || InQueue(next, u);
    }
    forall v: nat | v in p.batch ensures AssignedOk(h, ver, p, cur + 1, v) {
      assert AssignedOk(h, ver, p, cur, v);
    }
  }

  // ---------- What the schedule of a version guarantees ----------

  /** v is contracted in the given version, below one of the given version roots. */
  ghost predicate Due(h: Hierarchy, ver: nat, roots: set<nat>, v: nat)
    requires h.Valid()
  {
    h.IsNode(v) && h.parent[v] != v && h.version[v] == ver && h.VersionRoot(v) in roots
  }

  ghost predicate EntryFits(h: Hierarchy, a: Assignment) {
    a.v < |h.parent| && a.u == h.parent[a.v]
  }

  /** A representative contracted in this version comes strictly earlier than its own partners. Of two
      siblings, those with intersecting intervals share a batch, and what was contracted strictly earlier
      comes no earlier. */
  ghost predicate InOrder(h: Hierarchy, a: Assignment, b: Assignment) {
    && a.v < |h.interval| && b.v < |h.interval|
    && (b.u == a.v ==> a.batchIndex < b.batchIndex)
    && (a.u == b.u && a.v != b.v ==>
          && (h.interval[a.v].Meets(h.interval[b.v]) ==> a.batchIndex == b.batchIndex)
          && (h.interval[b.v].StrictlyBefore(h.interval[a.v]) ==> a.batchIndex <= b.batchIndex))
  }

  /** The list has exactly the contractions of the version below the roots, each once, in batches in which
      they can be undone. */
  ghost predicate Scheduled(h: Hierarchy, ver: nat, roots: set<nat>, out: seq<Assignment>) {
    && h.Valid()
    && (forall i: nat {:trigger EntryFits(h, out[i])} :: i < |out| ==> EntryFits(h, out[i]))
    && (forall i, j :: 0 <= i < j < |out| ==> out[i].v != out[j].v)
    && (forall v: nat {:trigger Listed(out, v)} :: Listed(out, v) <==> Due(h, ver, roots, v))
    && (forall i: nat, j: nat {:trigger InOrder(h, out[i], out[j])} :: i < |out| && j < |out| ==> InOrder(h, out[i], out[j]))
  }

  lemma {:induction false} AllDue(h: Hierarchy, ver: nat, roots: set<nat>, p: Progress, cur: nat, v: nat)
    requires LoopInv(h, ver, roots, p, [], [], cur) && h.IsNode(v)
    ensures v in p.batch <==> Due(h, ver, roots, v)
    decreases h.depth[v]
  {
    var u := h.parent[v];
    assert h.ParentOk(v);
    if v in p.batch { assert AssignedOk(h, ver, p, cur, v); }
    if u != v {
      AllDue(h, ver, roots, p, cur, u);
      if v !in p.batch && Due(h, ver, roots, v) {
        assert h.parent[u] == u ==> h.VersionRoot(v) == u;
        assert u in p.entered;
        var i: nat :| i < |h.childs[u]| && h.childs[u][i] == v;
        assert SiblingsOk(h, ver, p, u) && Recorded(h, ver, p, u);
        assert !h.More(u, ver, p.progress[u]) by {
          assert !InQueue([], u);
        }
        if i < h.First(u, ver) {
          h.NoneBefore(u, ver, 0, i);
        }
        NoneBehind(h, ver, p, u, i);
      }
    }
  }

  /** What was assigned at any time lies below the roots of the thread. */
  lemma {:induction false} AssignedDue(h: Hierarchy, ver: nat, roots: set<nat>, p: Progress, cur: nat, v: nat)
    requires RootsOk(h, ver, roots) && ProgressOk(h, ver, roots, p, cur) && v in p.batch
    ensures Due(h, ver, roots, v)
    decreases if v < |h.depth| then h.depth[v] else 0, 1
  {
    assert AssignedOk(h, ver, p, cur, v);
    assert h.ParentOk(v);
    ChildDue(h, ver, roots, p, cur, v);
  }

  lemma {:induction false} ChildDue(h: Hierarchy, ver: nat, roots: set<nat>, p: Progress, cur: nat, v: nat)
    requires RootsOk(h, ver, roots) && ProgressOk(h, ver, roots, p, cur)
    requires h.IsNode(v) && h.version[v] == ver && h.parent[v] != v && h.parent[v] in p.entered
    ensures Due(h, ver, roots, v)
    decreases h.depth[v], 0
  {
    assert h.ParentOk(v);
    var u := h.parent[v];
    if u !in roots {
      AssignedDue(h, ver, roots, p, cur, u);
    }
  }

  lemma SameVersionBetween(h: Hierarchy, ver: nat, u: nat, a: nat, b: nat, j: nat)
    requires h.Valid() && h.IsNode(u) && a <= j <= b < |h.childs[u]|
    requires h.version[h.childs[u][a]] == h.version[h.childs[u][b]] == ver
    ensures h.version[h.childs[u][j]] == ver
  {
    assert h.ChildsOk(u);
  }

  /** Behind the last child of a version there is no further one. */
  lemma NoneBehind(h: Hierarchy, ver: nat, p: Progress, u: nat, i: nat)
    requires h.Valid() && h.IsNode(u) && |p.progress| == |h.parent| && Recorded(h, ver, p, u)
    requires !h.More(u, ver, p.progress[u]) && i < |h.childs[u]| && h.version[h.childs[u][i]] == ver
    ensures i < p.progress[u]
  {
    assert h.ChildsOk(u);
    var c, now := h.childs[u], p.progress[u];
    if now <= i {
      SameVersionBetween(h, ver, u, h.First(u, ver), i, now);
    }
  }

  lemma PairOrder(h: Hierarchy, p: Progress, u: nat, i: nat, j: nat)
    requires h.Valid() && h.IsNode(u) && i < j < |h.childs[u]| && PairOk(h, p, u, i, j)
    requires h.version[h.childs[u][i]] == h.version[h.childs[u][j]]
    ensures var v, w := h.childs[u][i], h.childs[u][j];
            && p.batch[v] <= p.batch[w]
            && (h.interval[v].Meets(h.interval[w]) || h.interval[w].Meets(h.interval[v]) ==> p.batch[v] == p.batch[w])
            && !h.interval[v].StrictlyBefore(h.interval[w])
  {
    assert h.ChildsOk(u);
    assert h.ParentOk(h.childs[u][i]) && h.ParentOk(h.childs[u][j]);
  }

  lemma SiblingOrder(h: Hierarchy, ver: nat, roots: set<nat>, p: Progress, cur: nat, v: nat, w: nat)
    requires ProgressOk(h, ver, roots, p, cur) && v in p.batch && w in p.batch && h.parent[v] == h.parent[w]
    ensures h.interval[v].Meets(h.interval[w]) ==> p.batch[v] == p.batch[w]
    ensures h.interval[w].StrictlyBefore(h.interval[v]) ==> p.batch[v] <= p.batch[w]
  {
    assert AssignedOk(h, ver, p, cur, v) && AssignedOk(h, ver, p, cur, w);
    var u := h.parent[v];
    assert h.ParentOk(v) && h.ParentOk(w) && h.ChildsOk(u);
    assert SiblingsOk(h, ver, p, u) && Recorded(h, ver, p, u);
    var i: nat :| i < |h.childs[u]| && h.childs[u][i] == v;
    var j: nat :| j < |h.childs[u]| && h.childs[u][j] == w;
    if i < j {
      PairOrder(h, p, u, i, j);
    } else if j < i {
      PairOrder(h, p, u, j, i);
    }
  }

  lemma ScheduledAtEnd(h: Hierarchy, ver: nat, roots: set<nat>, p: Progress, cur: nat, out: seq<Assignment>)
    requires LoopInv(h, ver, roots, p, [], [], cur) && Matches(h, p.batch, out)
    ensures Scheduled(h, ver, roots, out)
  {
    forall i: nat | i < |out| ensures EntryFits(h, out[i]) && out[i].v in p.batch && out[i].batchIndex == p.batch[out[i].v] {
      assert EntryOk(h, p.batch, out[i]);
    }
    forall v: nat ensures Listed(out, v) <==> Due(h, ver, roots, v) {
      if h.IsNode(v) { AllDue(h, ver, roots, p, cur, v); }
    }
    forall i: nat, j: nat | i < |out| && j < |out| ensures InOrder(h, out[i], out[j]) {
      assert EntryFits(h, out[i]) && EntryFits(h, out[j]);
      assert AssignedOk(h, ver, p, cur, out[j].v);
      if out[i].u == out[j].u {
        SiblingOrder(h, ver, roots, p, cur, out[i].v, out[j].v);
      }
    }
  }
}
