/** Finalizing the contraction tree: parent pointers are inverted into sorted child lists, the roots of every
    version are collected, and subtree sizes are computed bottom-up. */
module Finalize {
  import opened Sums
  import opened FiniteSets
  import opened BatchSchedule
  import opened Rings
  import opened Sorting

  /** Parent pointers of a forest; `depth` is the distance to the root. */
  ghost predicate IsForest(parent: seq<nat>, depth: seq<nat>) {
    && |parent| == |depth|
    && (forall v: nat {:trigger ForestAt(parent, depth, v)} :: v < |parent| ==> ForestAt(parent, depth, v))
  }

  ghost predicate ForestAt(parent: seq<nat>, depth: seq<nat>, v: nat)
    requires |parent| == |depth| && v < |parent|
  {
    parent[v] < |parent| && depth[v] < |parent| && (parent[v] != v ==> depth[v] == depth[parent[v]] + 1)
  }

  // ---------- Child lists ----------

  predicate IsChild(parent: seq<nat>, v: nat, u: nat) {
    v < |parent| && parent[v] == u && v != u
  }

  /** The children of u among the first k nodes, in ascending order. */
  function ChildList(parent: seq<nat>, u: nat, k: nat): (c: seq<nat>)
    requires k <= |parent|
  {
    if k == 0 then []
    else if IsChild(parent, k - 1, u) then ChildList(parent, u, k - 1) + [k - 1]
    else ChildList(parent, u, k - 1)
  }

  lemma {:induction false} ChildListSound(parent: seq<nat>, u: nat, k: nat)
    requires k <= |parent|
    ensures forall i :: 0 <= i < |ChildList(parent, u, k)| ==> ChildList(parent, u, k)[i] < k && IsChild(parent, ChildList(parent, u, k)[i], u)
    ensures forall i, j :: 0 <= i < j < |ChildList(parent, u, k)| ==> ChildList(parent, u, k)[i] < ChildList(parent, u, k)[j]
  {
    if k > 0 {
      ChildListSound(parent, u, k - 1);
    }
  }

  lemma {:induction false} ChildListComplete(parent: seq<nat>, u: nat, k: nat, v: nat)
    requires v < k <= |parent| && IsChild(parent, v, u)
    ensures v in ChildList(parent, u, k)
  {
    if v < k - 1 {
      ChildListComplete(parent, u, k - 1, v);
    }
  }

  lemma {:induction false} ChildListGrows(parent: seq<nat>, u: nat, k: nat, l: nat)
    requires k <= l <= |parent|
    ensures |ChildList(parent, u, k)| <= |ChildList(parent, u, l)|
    ensures ChildList(parent, u, k) == ChildList(parent, u, l)[..|ChildList(parent, u, k)|]
    decreases l
  {
    if k < l {
      ChildListGrows(parent, u, k, l - 1);
    }
  }

  function DegreeColumn(parent: seq<nat>, k: nat): seq<int>
    requires k <= |parent|
  {
    seq(|parent|, u requires 0 <= u < |parent| => |ChildList(parent, u, k)|)
  }

  /** Altogether there are at most as many children as nodes. */
  lemma {:induction false} DegreesBounded(parent: seq<nat>, k: nat)
    requires k <= |parent| && forall v :: 0 <= v < |parent| ==> parent[v] < |parent|
    ensures Sum(DegreeColumn(parent, k)) <= k
  {
    if k == 0 {
      SumZero(DegreeColumn(parent, 0));
    } else {
      DegreesBounded(parent, k - 1);
      var before := DegreeColumn(parent, k - 1);
      var p := parent[k - 1];
      if p != k - 1 {
        SumUpdate(before, p, before[p] + 1);
        assert DegreeColumn(parent, k) == before[p := before[p] + 1];
      } else {
        assert DegreeColumn(parent, k) == before;
      }
    }
  }

  /** Where the list of u starts. */
  function Offset(parent: seq<nat>, u: nat): (o: nat)
    requires u <= |parent|
  {
    if u == 0 then 0 else Offset(parent, u - 1) + |ChildList(parent, u - 1, |parent|)|
  }

  lemma {:induction false} OffsetMonotone(parent: seq<nat>, u: nat, w: nat)
    requires u <= w <= |parent|
    ensures Offset(parent, u) <= Offset(parent, w)
    decreases w
  {
    if u < w {
      OffsetMonotone(parent, u, w - 1);
    }
  }

  lemma {:induction false} OffsetIsSum(parent: seq<nat>, u: nat)
    requires u <= |parent|
    ensures Offset(parent, u) == Sum(DegreeColumn(parent, |parent|)[..u])
  {
    if u > 0 {
      OffsetIsSum(parent, u - 1);
      var d := DegreeColumn(parent, |parent|);
      SumAppend(d[..u - 1], [d[u - 1]]);
      assert d[..u - 1] + [d[u - 1]] == d[..u];
    }
  }

  lemma OffsetBounded(parent: seq<nat>, u: nat)
    requires u <= |parent| && forall v :: 0 <= v < |parent| ==> parent[v] < |parent|
    ensures Offset(parent, u) <= |parent|
  {
    OffsetMonotone(parent, u, |parent|);
    OffsetIsSum(parent, |parent|);
    DegreesBounded(parent, |parent|);
    var d := DegreeColumn(parent, |parent|);
    assert d[..|parent|] == d;
  }

  /** The slice of u holds exactly the children of u, in ascending order. */
  ghost predicate SliceOk(parent: seq<nat>, outDegrees: seq<nat>, incidence: seq<nat>, u: nat)
    requires u < |parent| && |outDegrees| == |parent| + 1
  {
    && outDegrees[u] <= outDegrees[u + 1] <= |incidence|
    && incidence[outDegrees[u]..outDegrees[u + 1]] == ChildList(parent, u, |parent|)
  }

  /** Inverts the parent pointers: counts children, adds the counts up, and fills the slots. */
  method InvertParents(parent: array<nat>, outDegrees: array<nat>, incidence: array<nat>)
    requires outDegrees.Length == parent.Length + 1 && incidence.Length == parent.Length
    requires parent != outDegrees && parent != incidence && outDegrees != incidence
    requires forall v :: 0 <= v < parent.Length ==> parent[v] < parent.Length
    requires forall u :: 0 <= u <= parent.Length ==> outDegrees[u] == 0
    modifies outDegrees, incidence
    ensures parent[..] == old(parent[..])
    ensures forall u: nat :: u < parent.Length ==> SliceOk(parent[..], outDegrees[..], incidence[..], u)
  {
    CountChildren(parent, outDegrees);
    AddUp(parent, outDegrees);
    FillSlots(parent, outDegrees, incidence);
  }

  method CountChildren(parent: array<nat>, outDegrees: array<nat>)
    requires outDegrees.Length == parent.Length + 1 && parent != outDegrees
    requires forall v :: 0 <= v < parent.Length ==> parent[v] < parent.Length
    requires forall u :: 0 <= u <= parent.Length ==> outDegrees[u] == 0
    modifies outDegrees
    ensures outDegrees[0] == 0
    ensures forall u: nat {:trigger ChildList(parent[..], u, parent.Length)} :: u < parent.Length ==>
              outDegrees[u + 1] == |ChildList(parent[..], u, parent.Length)|
  {
    ghost var par := parent[..];
    var hn := 0;
    while hn < parent.Length
      invariant hn <= parent.Length && outDegrees[0] == 0
      invariant forall u: nat {:trigger ChildList(par, u, hn)} :: u < parent.Length ==> outDegrees[u + 1] == |ChildList(par, u, hn)|
    {
      if parent[hn] != hn {
        outDegrees[parent[hn] + 1] := outDegrees[parent[hn] + 1] + 1;
      }
      hn := hn + 1;
    }
  }

  method AddUp(parent: array<nat>, outDegrees: array<nat>)
    requires outDegrees.Length == parent.Length + 1 && parent != outDegrees && outDegrees[0] == 0
    requires forall u: nat {:trigger ChildList(parent[..], u, parent.Length)} :: u < parent.Length ==>
               outDegrees[u + 1] == |ChildList(parent[..], u, parent.Length)|
    modifies outDegrees
    ensures forall u: nat :: u <= parent.Length ==> outDegrees[u] == Offset(parent[..], u)
  {
    ghost var par := parent[..];
    var i := 0;
    while i < parent.Length
      invariant i <= parent.Length
      invariant forall u: nat {:trigger Offset(par, u)} :: u <= i ==> outDegrees[u] == Offset(par, u)
      invariant forall u: nat {:trigger ChildList(par, u, parent.Length)} :: i <= u < parent.Length ==>
                  outDegrees[u + 1] == |ChildList(par, u, parent.Length)|
    {
      outDegrees[i + 1] := outDegrees[i] + outDegrees[i + 1];
      i := i + 1;
    }
  }

  method FillSlots(parent: array<nat>, outDegrees: array<nat>, incidence: array<nat>)
    requires outDegrees.Length == parent.Length + 1 && incidence.Length == parent.Length
    requires parent != outDegrees && parent != incidence && outDegrees != incidence
    requires forall v :: 0 <= v < parent.Length ==> parent[v] < parent.Length
    requires forall u: nat :: u <= parent.Length ==> outDegrees[u] == Offset(parent[..], u)
    modifies incidence
    ensures forall u: nat :: u < parent.Length ==> SliceOk(parent[..], outDegrees[..], incidence[..], u)
  {
    ghost var par := parent[..];
    var n := parent.Length;
    var filled := new nat[n](u => 0);
    forall u: nat | u <= n ensures outDegrees[u] <= n {
      OffsetBounded(par, u);
    }
    var hn := 0;
    while hn < n
      invariant hn <= n
      invariant forall u: nat {:trigger ChildList(par, u, hn)} :: u < n ==> filled[u] == |ChildList(par, u, hn)|
      invariant SlotsOk(par, outDegrees[..], incidence[..], hn)
    {
      var p := parent[hn];
      ghost var before := incidence[..];
      if p != hn {
        SlotFree(par, hn, p);
        OffsetBounded(par, p + 1);
        var pos := outDegrees[p] + filled[p];
        filled[p] := filled[p] + 1;
        incidence[pos] := hn;
      }
      SlotFilled(par, outDegrees[..], before, incidence[..], hn);
      hn := hn + 1;
    }
    forall u: nat | u < n ensures SliceOk(par, outDegrees[..], incidence[..], u) {
      SlotsFillSlice(par, outDegrees[..], incidence[..], u);
    }
  }

  ghost predicate SlotsOk(parent: seq<nat>, outDegrees: seq<nat>, incidence: seq<nat>, k: nat)
    requires k <= |parent|
  {
    forall u: nat, j: nat {:trigger SlotOk(parent, outDegrees, incidence, u, k, j)} ::
      u < |parent| && j < |ChildList(parent, u, k)| ==> SlotOk(parent, outDegrees, incidence, u, k, j)
  }

  /** Node k takes the next free slot of its parent. */
  lemma SlotFilled(parent: seq<nat>, outDegrees: seq<nat>, before: seq<nat>, after: seq<nat>, k: nat)
    requires k < |parent| == |before| && |outDegrees| == |parent| + 1 && parent[k] < |parent| && SlotsOk(parent, outDegrees, before, k)
    requires forall u: nat {:trigger Offset(parent, u)} :: u <= |parent| ==> outDegrees[u] == Offset(parent, u)
    requires var p := parent[k];
             if p == k then after == before
             else outDegrees[p] + |ChildList(parent, p, k)| < |before| && after == before[outDegrees[p] + |ChildList(parent, p, k)| := k]
    ensures SlotsOk(parent, outDegrees, after, k + 1)
  {
    var k' := k + 1;
    forall u: nat, j: nat | u < |parent| && j < |ChildList(parent, u, k')| ensures SlotOk(parent, outDegrees, after, u, k', j) {
      if j < |ChildList(parent, u, k)| {
        assert SlotOk(parent, outDegrees, before, u, k, j);
        SlotsApart(parent, k, u, j);
        assert outDegrees[u] == Offset(parent, u) && outDegrees[parent[k]] == Offset(parent, parent[k]);
      }
    }
  }

  lemma SlotsFillSlice(parent: seq<nat>, outDegrees: seq<nat>, incidence: seq<nat>, u: nat)
    requires u < |parent| && |outDegrees| == |parent| + 1 && |incidence| == |parent|
    requires outDegrees[u] == Offset(parent, u) && outDegrees[u + 1] == Offset(parent, u + 1) <= |parent|
    requires forall j: nat {:trigger SlotOk(parent, outDegrees, incidence, u, |parent|, j)} ::
               j < |ChildList(parent, u, |parent|)| ==> SlotOk(parent, outDegrees, incidence, u, |parent|, j)
    ensures SliceOk(parent, outDegrees, incidence, u)
  {
    var slice := incidence[outDegrees[u]..outDegrees[u + 1]];
    forall j: nat | j < |ChildList(parent, u, |parent|)| ensures slice[j] == ChildList(parent, u, |parent|)[j] {
      assert SlotOk(parent, outDegrees, incidence, u, |parent|, j);
    }
  }

  ghost predicate SlotOk(parent: seq<nat>, outDegrees: seq<nat>, incidence: seq<nat>, u: nat, k: nat, j: nat)
    requires u < |parent| && k <= |parent| && j < |ChildList(parent, u, k)|
  {
    u < |outDegrees| && outDegrees[u] + j < |incidence| && incidence[outDegrees[u] + j] == ChildList(parent, u, k)[j]
  }

  /** The slot for node k lies inside the slice of its parent. */
  lemma SlotFree(parent: seq<nat>, k: nat, u: nat)
    requires k < |parent| && IsChild(parent, k, u) && u < |parent|
    ensures Offset(parent, u) + |ChildList(parent, u, k)| < Offset(parent, u + 1)
  {
    ChildListGrows(parent, u, k + 1, |parent|);
  }

  /** ... and in no other filled slot. */
  lemma SlotsApart(parent: seq<nat>, k: nat, u: nat, j: nat)
    requires k < |parent| && parent[k] < |parent| && u < |parent| && j < |ChildList(parent, u, k)|
    ensures Offset(parent, u) + j != Offset(parent, parent[k]) + |ChildList(parent, parent[k], k)| || parent[k] == k
  {
    var p := parent[k];
    if p != k {
      ChildListGrows(parent, p, k + 1, |parent|);
      ChildListGrows(parent, u, k, |parent|);
      if u < p {
        OffsetMonotone(parent, u + 1, p);
      } else if p < u {
        OffsetMonotone(parent, p + 1, u);
      }
    }
  }

  // ---------- Sorting a child list ----------

  /** Version, end and start of the contraction of u, and u itself. */
  function Rank(version: seq<nat>, interval: seq<Interval>, u: nat): (nat, nat, nat, nat) {
    if u < |version| && u < |interval| then (version[u], interval[u].end, interval[u].start, u) else (0, 0, 0, u)
  }

  /** The order in which children are visited: by version, then latest contraction first. */
  predicate Precedes(a: (nat, nat, nat, nat), b: (nat, nat, nat, nat)) {
    || a.0 < b.0
    || (a.0 == b.0 && a.1 > b.1)
    || (a.0 == b.0 && a.1 == b.1 && a.2 > b.2)
    || (a.0 == b.0 && a.1 == b.1 && a.2 == b.2 && a.3 < b.3)
  }

  function VisitingOrder(version: seq<nat>, interval: seq<Interval>): (nat, nat) -> bool {
    (u: nat, v: nat) => Precedes(Rank(version, interval, u), Rank(version, interval, v))
  }

  ghost predicate InVisitingOrder(version: seq<nat>, interval: seq<Interval>, c: seq<nat>) {
    && |version| == |interval|
    && (forall i :: 0 <= i < |c| ==> c[i] < |version|)
    && Sorted(c, VisitingOrder(version, interval))
  }

  method SortList(version: seq<nat>, interval: seq<Interval>, c: seq<nat>) returns (r: seq<nat>)
    requires |version| == |interval| && forall i :: 0 <= i < |c| ==> c[i] < |version|
    ensures InVisitingOrder(version, interval, r) && multiset(r) == multiset(c) && |r| == |c|
  {
    r := Sort(c, VisitingOrder(version, interval));
    assert |r| == |multiset(r)| == |c|;
    forall i | 0 <= i < |r| ensures r[i] < |version| {
      assert r[i] in multiset(r);
    }
  }

  /** Sorted lists list the children of a node by version and by decreasing end of contraction. */
  lemma SortedFacts(version: seq<nat>, interval: seq<Interval>, c: seq<nat>, i: nat, j: nat)
    requires InVisitingOrder(version, interval, c) && i < j < |c|
    ensures version[c[i]] <= version[c[j]]
    ensures version[c[i]] == version[c[j]] ==> interval[c[i]].end >= interval[c[j]].end
  {
    assert !VisitingOrder(version, interval)(c[j], c[i]);
  }

  // ---------- Version roots ----------

  /** u has a child of version i but a larger version itself. */
  ghost predicate IsVersionRoot(version: seq<nat>, childs: seq<seq<nat>>, u: nat, i: nat) {
    u < |version| && u < |childs| && i < version[u] && HasVersion(version, childs[u], i)
  }

  ghost predicate HasVersion(version: seq<nat>, c: seq<nat>, i: nat) {
    exists k :: 0 <= k < |c| && c[k] < |version| && version[c[k]] == i
  }

  /** The versions of a sorted list appear in stretches. */
  lemma NextVersion(version: seq<nat>, interval: seq<Interval>, c: seq<nat>, k: nat)
    requires InVisitingOrder(version, interval, c) && k < |c|
    ensures forall j: nat :: HasVersion(version, c[..k + 1], j) <==> HasVersion(version, c[..k], j) || j == version[c[k]]
    ensures HasVersion(version, c[..k], version[c[k]]) <==> k > 0 && version[c[k - 1]] == version[c[k]]
  {
    var before, after := c[..k], c[..k + 1];
    forall j: nat ensures HasVersion(version, after, j) <==> HasVersion(version, before, j) || j == version[c[k]] {
      if HasVersion(version, before, j) {
        var l :| 0 <= l < k && before[l] < |version| && version[before[l]] == j;
        assert after[l] == before[l];
      }
      assert after[k] == c[k];
      if HasVersion(version, after, j) && j != version[c[k]] {
        var l :| 0 <= l < k + 1 && after[l] < |version| && version[after[l]] == j;
        assert before[l] == after[l];
      }
    }
    if HasVersion(version, before, version[c[k]]) {
      var l :| 0 <= l < k && before[l] < |version| && version[before[l]] == version[c[k]];
      if l < k - 1 { SortedFacts(version, interval, c, l, k - 1); }
      SortedFacts(version, interval, c, k - 1, k);
    }
    if k > 0 && version[c[k - 1]] == version[c[k]] {
      assert before[k - 1] == c[k - 1];
    }
  }

  lemma NoVersionYet(version: seq<nat>, c: seq<nat>)
    ensures forall i :: !HasVersion(version, c[..0], i)
  {
  }

  /** Visits the children of u and enters u once for every version that differs from its own. */
  method AddVersionRoots(version: seq<nat>, interval: seq<Interval>, u: nat, c: seq<nat>, roots: seq<seq<nat>>, invalidVersion: nat)
    returns (roots': seq<seq<nat>>)
    requires u < |version| && InVisitingOrder(version, interval, c) && |roots| <= invalidVersion
    requires forall k :: 0 <= k < |c| ==> c[k] < |version| && version[c[k]] < |roots|
    ensures |roots'| == |roots|
    ensures forall i :: 0 <= i < |roots| ==>
              roots'[i] == if i < version[u] && HasVersion(version, c, i) then roots[i] + [u] else roots[i]
  {
    hide HasVersion, InVisitingOrder;
    roots' := roots;
    var lastVersion := invalidVersion;
    NoVersionYet(version, c);
    for k := 0 to |c|
      invariant |roots'| == |roots|
      invariant lastVersion == if k == 0 then invalidVersion else version[c[k - 1]]
      invariant forall i :: 0 <= i < |roots| ==>
                  roots'[i] == if i < version[u] && HasVersion(version, c[..k], i) then roots[i] + [u] else roots[i]
    {
      var v := c[k];
      var i := version[v];
      NextVersion(version, interval, c, k);
      if i != lastVersion && i < version[u] {
        roots' := roots'[i := roots'[i] + [u]];
      }
      lastVersion := i;
    }
    assert c[..|c|] == c;
  }

  method CollectVersionRoots(version: seq<nat>, interval: seq<Interval>, childs: seq<seq<nat>>, numVersions: nat, invalidVersion: nat)
    returns (roots: seq<seq<nat>>)
    requires |version| == |childs| && numVersions <= invalidVersion
    requires forall u :: 0 <= u < |childs| ==> InVisitingOrder(version, interval, childs[u])
    requires forall u, k :: 0 <= u < |childs| && 0 <= k < |childs[u]| ==> childs[u][k] < |version| && version[childs[u][k]] < numVersions
    ensures |roots| == numVersions
    ensures forall i: nat, u: nat :: i < numVersions ==> (u in roots[i] <==> IsVersionRoot(version, childs, u, i))
    ensures forall i, a, b :: 0 <= i < numVersions && 0 <= a < b < |roots[i]| ==> roots[i][a] != roots[i][b]
  {
    roots := seq(numVersions, i => []);
    for u := 0 to |childs|
      invariant |roots| == numVersions
      invariant forall i: nat, w: nat :: i < numVersions ==> (w in roots[i] <==> w < u && IsVersionRoot(version, childs, w, i))
      invariant forall i, a :: 0 <= i < numVersions && 0 <= a < |roots[i]| ==> roots[i][a] < u
      invariant forall i, a, b :: 0 <= i < numVersions && 0 <= a < b < |roots[i]| ==> roots[i][a] != roots[i][b]
    {
      var before := roots;
      roots := AddVersionRoots(version, interval, u, childs[u], roots, invalidVersion);
      forall i: nat, w: nat | i < numVersions ensures w in roots[i] <==> w < u + 1 && IsVersionRoot(version, childs, w, i) {
        assert w in roots[i] <==> w in before[i] || (w == u && i < version[u] && HasVersion(version, childs[u], i));
      }
    }
  }

  // ---------- Subtree sizes ----------

  ghost predicate TreeOk(childs: seq<seq<nat>>, depth: seq<nat>) {
    && |childs| == |depth|
    && (forall u, i :: 0 <= u < |childs| && 0 <= i < |childs[u]| ==>
          childs[u][i] < |childs| && depth[childs[u][i]] == depth[u] + 1 && depth[childs[u][i]] < |childs|)
    && (forall u :: 0 <= u < |childs| ==> Distinct(childs[u]))
  }

  /** The number of proper descendants of u. */
  ghost function SubtreeSize(childs: seq<seq<nat>>, depth: seq<nat>, u: nat): nat
    requires TreeOk(childs, depth) && u < |childs|
    decreases |childs| - depth[u], 1, 0
  {
    SizeOfFirst(childs, depth, u, |childs[u]|)
  }

  /** The first k children of u together with their descendants. */
  ghost function SizeOfFirst(childs: seq<seq<nat>>, depth: seq<nat>, u: nat, k: nat): nat
    requires TreeOk(childs, depth) && u < |childs| && k <= |childs[u]|
    decreases |childs| - depth[u], 0, k
  {
    if k == 0 then 0 else SizeOfFirst(childs, depth, u, k - 1) + SubtreeSize(childs, depth, childs[u][k - 1]) + 1
  }

  // ---------- The depth-first search ----------

  /** `size` as seen by the search: nodes on the stack are marked once visited, finished nodes carry
      their result, all others are untouched. `parent` inverts `childs`. */
  ghost predicate SearchInv(childs: seq<seq<nat>>, depth: seq<nat>, parent: seq<nat>, started: set<nat>,
                            size: seq<nat>, stack: seq<nat>, done: set<nat>) {
    && TreeOk(childs, depth) && |size| == |childs| == |parent|
    && (forall u: nat, i: nat :: u < |childs| && i < |childs[u]| ==> parent[childs[u][i]] == u)
    && (forall i :: 0 <= i < |stack| ==> stack[i] < |childs| && stack[i] !in done && size[stack[i]] <= 1)
    && Distinct(stack)
    && (forall x: nat :: x < |childs| && x !in done && x !in stack ==> size[x] == 0)
    && (forall x: nat {:trigger DoneOk(childs, depth, size, done, x)} :: x in done ==> DoneOk(childs, depth, size, done, x))
    && (forall x: nat {:trigger Reached(parent, started, size, stack, done, x)} :: x < |childs| && (x in stack || x in done) ==>
          Reached(parent, started, size, stack, done, x))
    && (forall i: nat {:trigger AboveOk(childs, size, stack, done, i)} :: i < |stack| && size[stack[i]] != 0 ==> AboveOk(childs, size, stack, done, i))
  }

  ghost predicate DoneOk(childs: seq<seq<nat>>, depth: seq<nat>, size: seq<nat>, done: set<nat>, x: nat)
    requires TreeOk(childs, depth) && |size| == |childs|
  {
    x < |childs| && size[x] == SubtreeSize(childs, depth, x) && forall i :: 0 <= i < |childs[x]| ==> childs[x][i] in done
  }

  /** A node is touched only after its parent was visited, or as the start of a search. */
  ghost predicate Reached(parent: seq<nat>, started: set<nat>, size: seq<nat>, stack: seq<nat>, done: set<nat>, x: nat)
    requires |size| == |parent| && x < |parent|
  {
    if parent[x] == x then x in started
    else parent[x] in done || (parent[x] in stack && parent[x] < |size| && size[parent[x]] != 0)
  }

  /** The children of a visited node are finished or above it on the stack. */
  ghost predicate AboveOk(childs: seq<seq<nat>>, size: seq<nat>, stack: seq<nat>, done: set<nat>, i: nat)
    requires i < |stack| && stack[i] < |childs|
  {
    forall k :: 0 <= k < |childs[stack[i]]| ==> childs[stack[i]][k] in done || childs[stack[i]][k] in stack[i + 1..]
  }

  /** What remains to be done for the nodes on the stack. */
  ghost function Work(childs: seq<seq<nat>>, depth: seq<nat>, size: seq<nat>, stack: seq<nat>): nat
    requires TreeOk(childs, depth) && |size| == |childs| && forall i :: 0 <= i < |stack| ==> stack[i] < |childs|
    decreases |stack|
  {
    if stack == [] then 0
    else
      var x := stack[|stack| - 1];
      Work(childs, depth, size, stack[..|stack| - 1]) + (if size[x] == 0 then 2 * SubtreeSize(childs, depth, x) + 2 else 1)
  }

  lemma {:induction false} WorkFrame(childs: seq<seq<nat>>, depth: seq<nat>, size: seq<nat>, size': seq<nat>, stack: seq<nat>)
    requires TreeOk(childs, depth) && |size| == |size'| == |childs| && forall i :: 0 <= i < |stack| ==> stack[i] < |childs|
    requires forall i :: 0 <= i < |stack| ==> size[stack[i]] == size'[stack[i]]
    ensures Work(childs, depth, size, stack) == Work(childs, depth, size', stack)
    decreases |stack|
  {
    if stack != [] {
      WorkFrame(childs, depth, size, size', stack[..|stack| - 1]);
    }
  }

  /** Pushing the first k children of u adds exactly the work of their subtrees. */
  lemma {:induction false} WorkOfChildren(childs: seq<seq<nat>>, depth: seq<nat>, size: seq<nat>, stack: seq<nat>, u: nat, k: nat)
    requires TreeOk(childs, depth) && |size| == |childs| && (forall i :: 0 <= i < |stack| ==> stack[i] < |childs|)
    requires u < |childs| && k <= |childs[u]| && forall i :: 0 <= i < k ==> size[childs[u][i]] == 0
    ensures forall i :: 0 <= i < |stack + childs[u][..k]| ==> (stack + childs[u][..k])[i] < |childs|
    ensures Work(childs, depth, size, stack + childs[u][..k]) == Work(childs, depth, size, stack) + 2 * SizeOfFirst(childs, depth, u, k)
    decreases k
  {
    if k == 0 {
      assert stack + childs[u][..0] == stack;
    } else {
      WorkOfChildren(childs, depth, size, stack, u, k - 1);
      var all := stack + childs[u][..k];
      assert all[..|all| - 1] == stack + childs[u][..k - 1];
    }
  }

  /** First visit: the node is marked and its children are pushed. */
  lemma FirstVisit(childs: seq<seq<nat>>, depth: seq<nat>, parent: seq<nat>, started: set<nat>, size: seq<nat>, stack: seq<nat>, done: set<nat>)
    requires SearchInv(childs, depth, parent, started, size, stack, done) && stack != []
    requires size[stack[|stack| - 1]] == 0
    ensures var u := stack[|stack| - 1]; var size', stack' := size[u := 1], stack + childs[u];
            && SearchInv(childs, depth, parent, started, size', stack', done)
            && Work(childs, depth, size', stack') < Work(childs, depth, size, stack)
  {
    var u := stack[|stack| - 1];
    var size', stack' := size[u := 1], stack + childs[u];
    FirstVisitStack(childs, depth, parent, started, size, stack, done);
    FirstVisitNodes(childs, depth, parent, started, size, stack, done);
    assert childs[u][..|childs[u]|] == childs[u];
    forall k: nat | k < |childs[u]| ensures size'[childs[u][k]] == 0 {
      ChildrenUntouched(childs, depth, parent, started, size, stack, done, k);
    }
    WorkOfChildren(childs, depth, size', stack, u, |childs[u]|);
    WorkFrame(childs, depth, size, size', stack[..|stack| - 1]);
  }

  lemma ChildrenUntouched(childs: seq<seq<nat>>, depth: seq<nat>, parent: seq<nat>, started: set<nat>, size: seq<nat>, stack: seq<nat>, done: set<nat>, k: nat)
    requires SearchInv(childs, depth, parent, started, size, stack, done) && stack != []
    requires size[stack[|stack| - 1]] == 0 && k < |childs[stack[|stack| - 1]]|
    ensures var c := childs[stack[|stack| - 1]][k]; c !in stack && c !in done && c != stack[|stack| - 1] && size[c] == 0
  {
    var u := stack[|stack| - 1];
    var c := childs[u][k];
    assert parent[c] == u && c != u;
    assert c in stack || c in done ==> Reached(parent, started, size, stack, done, c);
  }

  lemma FirstVisitStack(childs: seq<seq<nat>>, depth: seq<nat>, parent: seq<nat>, started: set<nat>, size: seq<nat>, stack: seq<nat>, done: set<nat>)
    requires SearchInv(childs, depth, parent, started, size, stack, done) && stack != []
    requires size[stack[|stack| - 1]] == 0
    ensures Distinct(stack + childs[stack[|stack| - 1]])
    ensures var u := stack[|stack| - 1];
            forall i :: 0 <= i < |stack + childs[u]| ==>
              (stack + childs[u])[i] < |childs| && (stack + childs[u])[i] !in done && size[u := 1][(stack + childs[u])[i]] <= 1
  {
    var u := stack[|stack| - 1];
    forall k: nat | k < |childs[u]| ensures childs[u][k] !in stack && childs[u][k] !in done && size[childs[u][k]] == 0 {
      ChildrenUntouched(childs, depth, parent, started, size, stack, done, k);
    }
  }

  lemma ReachedAfterFirst(childs: seq<seq<nat>>, depth: seq<nat>, parent: seq<nat>, started: set<nat>, size: seq<nat>, stack: seq<nat>, done: set<nat>, x: nat)
    requires SearchInv(childs, depth, parent, started, size, stack, done) && stack != []
    requires x < |childs| && (x in stack + childs[stack[|stack| - 1]] || x in done)
    ensures Reached(parent, started, size[stack[|stack| - 1] := 1], stack + childs[stack[|stack| - 1]], done, x)
  {
    var u := stack[|stack| - 1];
    if x in stack || x in done {
      assert Reached(parent, started, size, stack, done, x);
    } else {
      assert parent[x] == u && (stack + childs[u])[|stack| - 1] == u;
    }
  }

  lemma AboveAfterFirst(childs: seq<seq<nat>>, depth: seq<nat>, parent: seq<nat>, started: set<nat>, size: seq<nat>, stack: seq<nat>, done: set<nat>, i: nat)
    requires SearchInv(childs, depth, parent, started, size, stack, done) && stack != []
    requires size[stack[|stack| - 1]] == 0 && i < |stack + childs[stack[|stack| - 1]]|
    requires size[stack[|stack| - 1] := 1][(stack + childs[stack[|stack| - 1]])[i]] != 0
    requires Distinct(stack + childs[stack[|stack| - 1]])
    ensures var u := stack[|stack| - 1]; AboveOk(childs, size[u := 1], stack + childs[u], done, i)
  {
    hide DoneOk, SubtreeSize, Reached;
    var u := stack[|stack| - 1];
    var stack' := stack + childs[u];
    if i >= |stack| {
      ChildrenUntouched(childs, depth, parent, started, size, stack, done, i - |stack|);
    } else if i == |stack| - 1 {
      assert stack'[i + 1..] == childs[u];
    } else {
      assert stack[i] != u && stack'[i] == stack[i];
      assert AboveOk(childs, size, stack, done, i);
      StillAbove(childs, size, stack, done, i, size[u := 1], childs[u]);
    }
  }

  lemma StillAbove(childs: seq<seq<nat>>, size: seq<nat>, stack: seq<nat>, done: set<nat>, i: nat, size': seq<nat>, more: seq<nat>)
    requires i < |stack| && stack[i] < |childs| && AboveOk(childs, size, stack, done, i)
    ensures AboveOk(childs, size', stack + more, done, i)
  {
    assert (stack + more)[i + 1..] == stack[i + 1..] + more;
  }

  lemma FirstVisitNodes(childs: seq<seq<nat>>, depth: seq<nat>, parent: seq<nat>, started: set<nat>, size: seq<nat>, stack: seq<nat>, done: set<nat>)
    requires SearchInv(childs, depth, parent, started, size, stack, done) && stack != []
    requires size[stack[|stack| - 1]] == 0
    requires Distinct(stack + childs[stack[|stack| - 1]])
    ensures var u := stack[|stack| - 1]; var size', stack' := size[u := 1], stack + childs[u];
            && (forall x: nat :: x < |childs| && x !in done && x !in stack' ==> size'[x] == 0)
            && (forall x: nat {:trigger DoneOk(childs, depth, size', done, x)} :: x in done ==> DoneOk(childs, depth, size', done, x))
            && (forall x: nat {:trigger Reached(parent, started, size', stack', done, x)} :: x < |childs| && (x in stack' || x in done) ==>
                  Reached(parent, started, size', stack', done, x))
            && (forall i: nat {:trigger AboveOk(childs, size', stack', done, i)} :: i < |stack'| && size'[stack'[i]] != 0 ==>
                  stack'[i] < |childs| && AboveOk(childs, size', stack', done, i))
  {
    var u := stack[|stack| - 1];
    var size', stack' := size[u := 1], stack + childs[u];
    forall x: nat | x in done ensures DoneOk(childs, depth, size', done, x) {
      assert DoneOk(childs, depth, size, done, x) && x != u;
    }
    forall x: nat | x < |childs| && (x in stack' || x in done) ensures Reached(parent, started, size', stack', done, x) {
      ReachedAfterFirst(childs, depth, parent, started, size, stack, done, x);
    }
    forall i: nat | i < |stack'| && size'[stack'[i]] != 0 ensures stack'[i] < |childs| && AboveOk(childs, size', stack', done, i) {
      AboveAfterFirst(childs, depth, parent, started, size, stack, done, i);
    }
  }

  lemma ReachedAfterSecond(childs: seq<seq<nat>>, depth: seq<nat>, parent: seq<nat>, started: set<nat>, size: seq<nat>, stack: seq<nat>, done: set<nat>, x: nat)
    requires SearchInv(childs, depth, parent, started, size, stack, done) && stack != []
    requires x < |childs| && (x in stack || x in done)
    ensures var u := stack[|stack| - 1];
            Reached(parent, started, size[u := SubtreeSize(childs, depth, u)], stack[..|stack| - 1], done + {u}, x)
  {
    assert Reached(parent, started, size, stack, done, x);
    if parent[x] in stack && parent[x] != stack[|stack| - 1] {
      var i :| 0 <= i < |stack| && stack[i] == parent[x];
      assert stack[..|stack| - 1][i] == parent[x];
    }
  }

  lemma ChildrenFinished(childs: seq<seq<nat>>, depth: seq<nat>, parent: seq<nat>, started: set<nat>, size: seq<nat>, stack: seq<nat>, done: set<nat>, k: nat)
    requires SearchInv(childs, depth, parent, started, size, stack, done) && stack != []
    requires size[stack[|stack| - 1]] != 0 && k < |childs[stack[|stack| - 1]]|
    ensures var c := childs[stack[|stack| - 1]][k]; c in done && size[c] == SubtreeSize(childs, depth, c)
  {
    var n := |stack| - 1;
    assert AboveOk(childs, size, stack, done, n);
    assert stack[n + 1..] == [];
    assert DoneOk(childs, depth, size, done, childs[stack[n]][k]);
  }

  lemma DoneAfterSecond(childs: seq<seq<nat>>, depth: seq<nat>, parent: seq<nat>, started: set<nat>, size: seq<nat>, stack: seq<nat>, done: set<nat>, x: nat)
    requires SearchInv(childs, depth, parent, started, size, stack, done) && stack != []
    requires size[stack[|stack| - 1]] != 0 && (x == stack[|stack| - 1] || x in done)
    ensures var u := stack[|stack| - 1]; DoneOk(childs, depth, size[u := SubtreeSize(childs, depth, u)], done + {u}, x)
  {
    var u := stack[|stack| - 1];
    if x == u {
      forall k: nat | k < |childs[u]| ensures childs[u][k] in done {
        ChildrenFinished(childs, depth, parent, started, size, stack, done, k);
      }
    } else {
      assert DoneOk(childs, depth, size, done, x);
    }
  }

  lemma AboveAfterSecond(childs: seq<seq<nat>>, depth: seq<nat>, parent: seq<nat>, started: set<nat>, size: seq<nat>, stack: seq<nat>, done: set<nat>, i: nat)
    requires SearchInv(childs, depth, parent, started, size, stack, done) && stack != []
    requires i < |stack| - 1 && size[stack[i]] != 0
    ensures var u := stack[|stack| - 1];
            AboveOk(childs, size[u := SubtreeSize(childs, depth, u)], stack[..|stack| - 1], done + {u}, i)
  {
    var n := |stack| - 1;
    assert AboveOk(childs, size, stack, done, i);
    assert stack[i + 1..] == stack[..n][i + 1..] + [stack[n]];
  }

  /** Second visit: all children are finished, so their sizes add up to the size of the node. */
  lemma SecondVisit(childs: seq<seq<nat>>, depth: seq<nat>, parent: seq<nat>, started: set<nat>, size: seq<nat>, stack: seq<nat>, done: set<nat>)
    requires SearchInv(childs, depth, parent, started, size, stack, done) && stack != []
    requires size[stack[|stack| - 1]] != 0
    ensures var u := stack[|stack| - 1]; var size' := size[u := SubtreeSize(childs, depth, u)];
            && SearchInv(childs, depth, parent, started, size', stack[..|stack| - 1], done + {u})
            && Work(childs, depth, size', stack[..|stack| - 1]) < Work(childs, depth, size, stack)
  {
    var n := |stack| - 1;
    var u := stack[n];
    var size', stack', done' := size[u := SubtreeSize(childs, depth, u)], stack[..n], done + {u};
    forall x: nat | x in done' ensures DoneOk(childs, depth, size', done', x) {
      DoneAfterSecond(childs, depth, parent, started, size, stack, done, x);
    }
    forall x: nat | x < |childs| && (x in stack' || x in done') ensures Reached(parent, started, size', stack', done', x) {
      ReachedAfterSecond(childs, depth, parent, started, size, stack, done, x);
    }
    forall i: nat | i < |stack'| && size'[stack'[i]] != 0 ensures AboveOk(childs, size', stack', done', i) {
      AboveAfterSecond(childs, depth, parent, started, size, stack, done, i);
    }
    assert stack == stack' + [u];
    WorkFrame(childs, depth, size, size', stack');
  }

  /** Finishes node u, whose children are finished: their sizes are added up. */
  method Finish(childs: seq<seq<nat>>, subtreeSize: array<nat>, u: nat,
                ghost depth: seq<nat>, ghost parent: seq<nat>, ghost started: set<nat>, ghost dfs: seq<nat>, ghost done: set<nat>)
    requires SearchInv(childs, depth, parent, started, subtreeSize[..], dfs, done) && dfs != [] && u == dfs[|dfs| - 1]
    requires u < subtreeSize.Length == |childs| && subtreeSize[u] != 0
    modifies subtreeSize
    ensures subtreeSize[..] == old(subtreeSize[..])[u := SubtreeSize(childs, depth, u)]
  {
    hide SearchInv;
    ghost var size := subtreeSize[..];
    SearchShape(childs, depth, parent, started, size, dfs, done);
    var sum := 0;
    for k := 0 to |childs[u]|
      invariant sum == SizeOfFirst(childs, depth, u, k) && subtreeSize[..] == size
    {
      ChildrenFinished(childs, depth, parent, started, size, dfs, done, k);
      sum := sum + (subtreeSize[childs[u][k]] + 1);
    }
    subtreeSize[u] := sum;
  }

  lemma SearchShape(childs: seq<seq<nat>>, depth: seq<nat>, parent: seq<nat>, started: set<nat>, size: seq<nat>, dfs: seq<nat>, done: set<nat>)
    requires SearchInv(childs, depth, parent, started, size, dfs, done)
    ensures TreeOk(childs, depth) && |size| == |childs| && forall i :: 0 <= i < |dfs| ==> dfs[i] < |childs|
  {
  }

  lemma SearchStarts(childs: seq<seq<nat>>, depth: seq<nat>, parent: seq<nat>, started: set<nat>, size: seq<nat>, done: set<nat>, root: nat)
    requires SearchInv(childs, depth, parent, started, size, [], done)
    requires root < |childs| && parent[root] == root && root !in started
    ensures SearchInv(childs, depth, parent, started + {root}, size, [root], done)
  {
    var started', dfs := started + {root}, [root];
    assert root in done ==> Reached(parent, started, size, [], done, root);
    forall x: nat | x < |childs| && (x in dfs || x in done) ensures Reached(parent, started', size, dfs, done, x) {
      if x in done { assert Reached(parent, started, size, [], done, x); }
    }
  }

  /** Computes the subtree size of every node below `root`. */
  method SearchFrom(childs: seq<seq<nat>>, subtreeSize: array<nat>, root: nat,
                    ghost depth: seq<nat>, ghost parent: seq<nat>, ghost started: set<nat>, ghost done: set<nat>)
    returns (ghost done': set<nat>)
    requires SearchInv(childs, depth, parent, started, subtreeSize[..], [], done)
    requires root < |childs| && parent[root] == root && root !in started
    modifies subtreeSize
    ensures SearchInv(childs, depth, parent, started + {root}, subtreeSize[..], [], done')
    ensures done <= done' && root in done'
  {
    SearchStarts(childs, depth, parent, started, subtreeSize[..], done, root);
    ghost var started' := started + {root};
    done' := done;
    var dfs := [root];
    while dfs != []
      invariant SearchInv(childs, depth, parent, started', subtreeSize[..], dfs, done')
      invariant done <= done' && (root in dfs || root in done')
      decreases Work(childs, depth, subtreeSize[..], dfs)
    {
      ghost var size := subtreeSize[..];
      var u := dfs[|dfs| - 1];
      if subtreeSize[u] == 0 {
        FirstVisit(childs, depth, parent, started', size, dfs, done');
        dfs := dfs + childs[u];
        subtreeSize[u] := 1;
        assert subtreeSize[..] == size[u := 1];
      } else {
        SecondVisit(childs, depth, parent, started', size, dfs, done');
        Finish(childs, subtreeSize, u, depth, parent, started', dfs, done');
        dfs := dfs[..|dfs| - 1];
        done' := done' + {u};
      }
    }
  }

  // ---------- Subtree sizes count descendants ----------

  /** x lies at or below u. */
  predicate Under(parent: seq<nat>, depth: seq<nat>, x: nat, u: nat)
    requires IsForest(parent, depth) && x < |parent|
    decreases depth[x]
  {
    assert ForestAt(parent, depth, x);
    x == u || (parent[x] != x && Under(parent, depth, parent[x], u))
  }

  ghost function Descendants(parent: seq<nat>, depth: seq<nat>, u: nat): set<nat>
    requires IsForest(parent, depth)
  {
    set x | x in UpTo(|parent|) && x != u && Under(parent, depth, x, u)
  }

  lemma {:induction false} UnderUnique(parent: seq<nat>, depth: seq<nat>, x: nat, a: nat, b: nat)
    requires IsForest(parent, depth) && x < |parent| && Under(parent, depth, x, a) && Under(parent, depth, x, b)
    requires a < |parent| && b < |parent| && depth[a] == depth[b]
    ensures a == b && depth[a] <= depth[x]
    decreases depth[x]
  {
    assert ForestAt(parent, depth, x);
    if x == a {
      if x != b { UnderDeeper(parent, depth, parent[x], b); }
    } else if x == b {
      UnderDeeper(parent, depth, parent[x], a);
    } else {
      UnderUnique(parent, depth, parent[x], a, b);
    }
  }

  lemma {:induction false} UnderDeeper(parent: seq<nat>, depth: seq<nat>, x: nat, a: nat)
    requires IsForest(parent, depth) && x < |parent| && Under(parent, depth, x, a)
    ensures a < |parent| && depth[a] <= depth[x]
    decreases depth[x]
  {
    assert ForestAt(parent, depth, x);
    if x != a { UnderDeeper(parent, depth, parent[x], a); }
  }

  /** A proper descendant of u lies at or below a child of u. */
  lemma {:induction false} UnderChild(parent: seq<nat>, depth: seq<nat>, x: nat, u: nat) returns (c: nat)
    requires IsForest(parent, depth) && x < |parent| && Under(parent, depth, x, u) && x != u
    ensures c < |parent| && parent[c] == u != c && Under(parent, depth, x, c)
    decreases depth[x]
  {
    assert ForestAt(parent, depth, x);
    if parent[x] == u {
      c := x;
    } else {
      c := UnderChild(parent, depth, parent[x], u);
    }
  }

  lemma {:induction false} UnderTransitive(parent: seq<nat>, depth: seq<nat>, x: nat, c: nat, u: nat)
    requires IsForest(parent, depth) && x < |parent| && c < |parent| && Under(parent, depth, x, c) && Under(parent, depth, c, u)
    ensures Under(parent, depth, x, u)
    decreases depth[x]
  {
    assert ForestAt(parent, depth, x);
    if x != c { UnderTransitive(parent, depth, parent[x], c, u); }
  }

  /** `childs` lists exactly the children of every node. */
  ghost predicate Inverts(childs: seq<seq<nat>>, parent: seq<nat>) {
    && |childs| == |parent|
    && (forall u: nat, v: nat :: u < |childs| ==> (v in childs[u] <==> IsChild(parent, v, u)))
    && (forall u :: 0 <= u < |childs| ==> Distinct(childs[u]))
  }

  ghost function DescendantsOfFirst(childs: seq<seq<nat>>, parent: seq<nat>, depth: seq<nat>, u: nat, k: nat): set<nat>
    requires IsForest(parent, depth) && u < |childs| && k <= |childs[u]|
  {
    if k == 0 then {}
    else DescendantsOfFirst(childs, parent, depth, u, k - 1) + {childs[u][k - 1]} + Descendants(parent, depth, childs[u][k - 1])
  }

  lemma {:induction false} FirstAreUnder(childs: seq<seq<nat>>, parent: seq<nat>, depth: seq<nat>, u: nat, k: nat, x: nat)
    requires IsForest(parent, depth) && Inverts(childs, parent) && u < |childs| && k <= |childs[u]|
    ensures x in DescendantsOfFirst(childs, parent, depth, u, k) <==>
            x < |parent| && exists i :: 0 <= i < k && Under(parent, depth, x, childs[u][i])
  {
    if k > 0 {
      FirstAreUnder(childs, parent, depth, u, k - 1, x);
      var c := childs[u][k - 1];
      assert c in childs[u];
      OneSubtree(parent, depth, c, x);
      hide Under, Descendants, Inverts;
    }
  }

  lemma OneSubtree(parent: seq<nat>, depth: seq<nat>, c: nat, x: nat)
    requires IsForest(parent, depth) && c < |parent|
    ensures x in {c} + Descendants(parent, depth, c) <==> x < |parent| && Under(parent, depth, x, c)
  {
    assert ForestAt(parent, depth, c);
  }

  lemma {:induction false} CountFirst(childs: seq<seq<nat>>, parent: seq<nat>, depth: seq<nat>, u: nat, k: nat)
    requires IsForest(parent, depth) && Inverts(childs, parent) && TreeOk(childs, depth) && u < |childs| && k <= |childs[u]|
    ensures |DescendantsOfFirst(childs, parent, depth, u, k)| == SizeOfFirst(childs, depth, u, k)
    decreases |childs| - depth[u], 0, k
  {
    hide Descendants, SubtreeSize, Inverts;
    if k > 0 {
      CountFirst(childs, parent, depth, u, k - 1);
      var c := childs[u][k - 1];
      SubtreeSizeCounts(childs, parent, depth, c);
      var before, below := DescendantsOfFirst(childs, parent, depth, u, k - 1), Descendants(parent, depth, c);
      FirstDisjoint(childs, parent, depth, u, k - 1);
      OneMoreSubtree(before, c, below);
    }
  }

  lemma FirstDisjoint(childs: seq<seq<nat>>, parent: seq<nat>, depth: seq<nat>, u: nat, k: nat)
    requires IsForest(parent, depth) && Inverts(childs, parent) && u < |childs| && k < |childs[u]| && childs[u][k] < |parent|
    ensures childs[u][k] !in DescendantsOfFirst(childs, parent, depth, u, k)
    ensures childs[u][k] !in Descendants(parent, depth, childs[u][k])
    ensures DescendantsOfFirst(childs, parent, depth, u, k) !! Descendants(parent, depth, childs[u][k])
  {
    forall x | x in DescendantsOfFirst(childs, parent, depth, u, k) ensures x != childs[u][k] && x !in Descendants(parent, depth, childs[u][k]) {
      FirstApart(childs, parent, depth, u, k, x);
    }
    NotBelowItself(parent, depth, childs[u][k]);
  }

  lemma FirstApart(childs: seq<seq<nat>>, parent: seq<nat>, depth: seq<nat>, u: nat, k: nat, x: nat)
    requires IsForest(parent, depth) && Inverts(childs, parent) && u < |childs| && k < |childs[u]|
    requires x in DescendantsOfFirst(childs, parent, depth, u, k)
    ensures x != childs[u][k] && x !in Descendants(parent, depth, childs[u][k])
  {
    hide DescendantsOfFirst;
    var c := childs[u][k];
    FirstAreUnder(childs, parent, depth, u, k, x);
    var i :| 0 <= i < k && Under(parent, depth, x, childs[u][i]);
    assert childs[u][i] in childs[u] && c in childs[u];
    assert ForestAt(parent, depth, c) && ForestAt(parent, depth, childs[u][i]);
    if x < |parent| && Under(parent, depth, x, c) {
      UnderUnique(parent, depth, x, childs[u][i], c);
    }
  }

  lemma NotBelowItself(parent: seq<nat>, depth: seq<nat>, c: nat)
    requires IsForest(parent, depth) && c < |parent|
    ensures c !in Descendants(parent, depth, c)
  {
  }

  lemma OneMoreSubtree(before: set<nat>, c: nat, below: set<nat>)
    requires c !in before && before !! below && c !in below
    ensures |before + {c} + below| == |before| + 1 + |below|
  {
  }

  /** The subtree size is the number of proper descendants. */
  lemma {:induction false} SubtreeSizeCounts(childs: seq<seq<nat>>, parent: seq<nat>, depth: seq<nat>, u: nat)
    requires IsForest(parent, depth) && Inverts(childs, parent) && TreeOk(childs, depth) && u < |childs|
    ensures SubtreeSize(childs, depth, u) == |Descendants(parent, depth, u)|
    decreases |childs| - depth[u], 1, 0
  {
    CountFirst(childs, parent, depth, u, |childs[u]|);
    forall x ensures x in Descendants(parent, depth, u) <==> x in DescendantsOfFirst(childs, parent, depth, u, |childs[u]|) {
      FirstAreUnder(childs, parent, depth, u, |childs[u]|, x);
      if x in Descendants(parent, depth, u) {
        var c := UnderChild(parent, depth, x, u);
        assert IsChild(parent, c, u);
        var i :| 0 <= i < |childs[u]| && childs[u][i] == c;
      }
      if x in DescendantsOfFirst(childs, parent, depth, u, |childs[u]|) {
        var i :| 0 <= i < |childs[u]| && Under(parent, depth, x, childs[u][i]);
        ChildIsUnder(childs, parent, depth, u, i, x);
      }
    }
    assert Descendants(parent, depth, u) == DescendantsOfFirst(childs, parent, depth, u, |childs[u]|);
  }

  lemma ChildIsUnder(childs: seq<seq<nat>>, parent: seq<nat>, depth: seq<nat>, u: nat, i: nat, x: nat)
    requires IsForest(parent, depth) && Inverts(childs, parent) && u < |childs| && i < |childs[u]|
    requires x < |parent| && Under(parent, depth, x, childs[u][i])
    ensures x != u && Under(parent, depth, x, u)
  {
    var c := childs[u][i];
    assert c in childs[u];
    assert ForestAt(parent, depth, c) && ForestAt(parent, depth, u);
    UnderDeeper(parent, depth, x, c);
    assert Under(parent, depth, c, u);
    UnderTransitive(parent, depth, x, c, u);
  }

  // ---------- The whole finalization ----------

  /** What the contraction phase leaves behind. */
  ghost predicate ReadyToFinalize(parent: seq<nat>, depth: seq<nat>, version: seq<nat>, interval: seq<Interval>, numVersions: nat, invalidVersion: nat) {
    && IsForest(parent, depth) && |version| == |interval| == |parent| && numVersions <= invalidVersion
    && (forall v: nat {:trigger NodeReady(parent, version, interval, numVersions, invalidVersion, v)} :: v < |parent| ==>
          NodeReady(parent, version, interval, numVersions, invalidVersion, v))
  }

  ghost predicate NodeReady(parent: seq<nat>, version: seq<nat>, interval: seq<Interval>, numVersions: nat, invalidVersion: nat, v: nat)
    requires |version| == |interval| == |parent| && v < |parent|
  {
    && interval[v].Valid()
    && (if parent[v] == v then version[v] == invalidVersion else version[v] < numVersions)
    && (parent[v] < |parent| ==> version[v] <= version[parent[v]])
  }

  lemma SortedChildsOk(parent: seq<nat>, depth: seq<nat>, version: seq<nat>, interval: seq<Interval>, childs: seq<seq<nat>>, size: seq<nat>, u: nat)
    requires IsForest(parent, depth) && |version| == |interval| == |parent| == |childs| == |size|
    requires Inverts(childs, parent) && u < |parent| && InVisitingOrder(version, interval, childs[u])
    requires Hierarchy(parent, version, childs, size, interval, depth).Shape()
    ensures Hierarchy(parent, version, childs, size, interval, depth).ChildsOk(u)
  {
    forall i: nat | i < |childs[u]| ensures IsChild(parent, childs[u][i], u) {
      assert childs[u][i] in childs[u];
    }
    forall i: nat, j: nat | i < j < |childs[u]|
      ensures version[childs[u][i]] <= version[childs[u][j]]
      ensures version[childs[u][i]] == version[childs[u][j]] ==> interval[childs[u][i]].end >= interval[childs[u][j]].end
    {
      SortedFacts(version, interval, childs[u], i, j);
    }
  }

  /** Sorts every slice of the inverted pointers. */
  method SortSlices(ghost parent: seq<nat>, version: seq<nat>, interval: seq<Interval>, outDegrees: seq<nat>, incidence: seq<nat>)
    returns (childs: seq<seq<nat>>)
    requires |version| == |interval| == |parent| == |incidence| && |outDegrees| == |parent| + 1
    requires forall u: nat :: u < |parent| ==> SliceOk(parent, outDegrees, incidence, u)
    ensures |childs| == |parent|
    ensures forall w: nat :: w < |childs| ==> InVisitingOrder(version, interval, childs[w])
    ensures forall w: nat :: w < |childs| ==> multiset(childs[w]) == multiset(ChildList(parent, w, |parent|))
  {
    childs := [];
    for u := 0 to |incidence|
      invariant |childs| == u
      invariant forall w: nat :: w < u ==> InVisitingOrder(version, interval, childs[w])
      invariant forall w: nat :: w < u ==> multiset(childs[w]) == multiset(ChildList(parent, w, |parent|))
    {
      ChildListSound(parent, u, |parent|);
      assert SliceOk(parent, outDegrees, incidence, u);
      var c := SortList(version, interval, incidence[outDegrees[u]..outDegrees[u + 1]]);
      childs := childs + [c];
    }
  }

  /** Reads and sorts all child lists. */
  method ReadChildLists(parent: array<nat>, version: seq<nat>, interval: seq<Interval>, ghost depth: seq<nat>)
    returns (childs: seq<seq<nat>>)
    requires IsForest(parent[..], depth) && |version| == |interval| == parent.Length
    ensures Inverts(childs, parent[..]) && TreeOk(childs, depth)
    ensures forall u :: 0 <= u < |childs| ==> InVisitingOrder(version, interval, childs[u])
  {
    var n := parent.Length;
    var outDegrees := new nat[n + 1](u => 0);
    var incidence := new nat[n](u => 0);
    forall v: nat | v < n ensures parent[v] < n {
      assert ForestAt(parent[..], depth, v);
    }
    InvertParents(parent, outDegrees, incidence);
    childs := SortSlices(parent[..], version, interval, outDegrees[..], incidence[..]);
    ListsInvert(parent[..], depth, childs);
  }

  lemma PermutedList(parent: seq<nat>, u: nat, c: seq<nat>)
    requires multiset(c) == multiset(ChildList(parent, u, |parent|))
    ensures Distinct(c)
    ensures forall v: nat :: v in c <==> IsChild(parent, v, u)
  {
    ChildListSound(parent, u, |parent|);
    var l := ChildList(parent, u, |parent|);
    forall v: nat ensures v in c <==> IsChild(parent, v, u) {
      assert v in c <==> v in multiset(c);
      assert v in l <==> v in multiset(l);
      if IsChild(parent, v, u) { ChildListComplete(parent, u, |parent|, v); }
    }
    forall v ensures multiset(c)[v] <= 1 { MultiplicityOne(l, v); }
    OnceEach(c);
  }

  lemma OnceEach(c: seq<nat>)
    requires forall v :: multiset(c)[v] <= 1
    ensures Distinct(c)
  {
    forall i, j | 0 <= i < j < |c| ensures c[i] != c[j] {
      assert c == c[..i] + [c[i]] + c[i + 1..j] + [c[j]] + c[j + 1..];
      assert c[i] == c[j] ==> multiset(c)[c[i]] >= 2;
    }
  }

  lemma {:induction false} MultiplicityOne(l: seq<nat>, v: nat)
    requires forall i, j :: 0 <= i < j < |l| ==> l[i] < l[j]
    ensures multiset(l)[v] <= 1
  {
    if l != [] {
      var front := l[..|l| - 1];
      assert l == front + [l[|l| - 1]];
      MultiplicityOne(front, v);
      assert v == l[|l| - 1] ==> v !in front;
    }
  }

  lemma ListsInvert(parent: seq<nat>, depth: seq<nat>, childs: seq<seq<nat>>)
    requires IsForest(parent, depth) && |childs| == |parent|
    requires forall w: nat :: w < |parent| ==> multiset(childs[w]) == multiset(ChildList(parent, w, |parent|))
    ensures Inverts(childs, parent) && TreeOk(childs, depth)
  {
    forall u: nat | u < |parent|
      ensures Distinct(childs[u]) && forall v: nat :: v in childs[u] <==> IsChild(parent, v, u)
    {
      PermutedList(parent, u, childs[u]);
    }
    forall u: nat, i: nat | u < |childs| && i < |childs[u]|
      ensures childs[u][i] < |childs| && depth[childs[u][i]] == depth[u] + 1 && depth[childs[u][i]] < |childs|
    {
      assert childs[u][i] in childs[u];
      assert ForestAt(parent, depth, childs[u][i]);
    }
  }

  /** Computes all subtree sizes, one search per root that has children. */
  method ComputeSubtreeSizes(parent: array<nat>, childs: seq<seq<nat>>, ghost depth: seq<nat>) returns (sizes: seq<nat>)
    requires IsForest(parent[..], depth) && Inverts(childs, parent[..]) && TreeOk(childs, depth)
    ensures |sizes| == |childs|
    ensures forall u: nat :: u < |childs| ==> sizes[u] == SubtreeSize(childs, depth, u)
  {
    ghost var par := parent[..];
    var n := parent.Length;
    var subtreeSize := new nat[n](u => 0);
    ghost var done: set<nat> := {};
    ghost var started: set<nat> := {};
    forall u: nat, i: nat | u < |childs| && i < |childs[u]| ensures par[childs[u][i]] == u {
      assert childs[u][i] in childs[u];
    }
    for u := 0 to n
      invariant parent[..] == par && SearchInv(childs, depth, par, started, subtreeSize[..], [], done)
      invariant forall x: nat :: x in started ==> x < u
      invariant forall x: nat :: x < u && par[x] == x && childs[x] != [] ==> x in done
    {
      if parent[u] == u && childs[u] != [] {
        done := SearchFrom(childs, subtreeSize, u, depth, par, started, done);
        started := started + {u};
      }
    }
    sizes := subtreeSize[..];
    forall u: nat | u < |childs| ensures sizes[u] == SubtreeSize(childs, depth, u) {
      AllSized(childs, depth, par, started, sizes, done, u);
    }
  }

  lemma {:induction false} AllSized(childs: seq<seq<nat>>, depth: seq<nat>, parent: seq<nat>, started: set<nat>, size: seq<nat>, done: set<nat>, u: nat)
    requires IsForest(parent, depth) && Inverts(childs, parent) && SearchInv(childs, depth, parent, started, size, [], done)
    requires forall x: nat :: x < |parent| && parent[x] == x && childs[x] != [] ==> x in done
    requires u < |childs|
    ensures size[u] == SubtreeSize(childs, depth, u)
    ensures parent[u] != u ==> u in done
    decreases depth[u]
  {
    assert ForestAt(parent, depth, u);
    if parent[u] != u {
      var p := parent[u];
      assert IsChild(parent, u, p);
      AllSized(childs, depth, parent, started, size, done, p);
      assert DoneOk(childs, depth, size, done, p);
      var i :| 0 <= i < |childs[p]| && childs[p][i] == u;
      assert childs[p][i] in done;
    }
    if u in done {
      assert DoneOk(childs, depth, size, done, u);
    } else {
      assert childs[u] == [];
    }
  }

  /** Finalizes the tree. Every child is in the list of its parent exactly once, the roots of a version
      are exactly the nodes with a child of that version and a larger version themselves, and subtree
      sizes count proper descendants. The result is what the batch schedule starts from. */
  method FinalizeTree(parent: array<nat>, version: seq<nat>, interval: seq<Interval>, numVersions: nat, invalidVersion: nat, ghost depth: seq<nat>)
    returns (childs: seq<seq<nat>>, sizes: seq<nat>, roots: seq<seq<nat>>)
    requires ReadyToFinalize(parent[..], depth, version, interval, numVersions, invalidVersion)
    ensures Inverts(childs, parent[..]) && |sizes| == |childs| && |roots| == numVersions
    ensures Hierarchy(parent[..], version, childs, sizes, interval, depth).Valid()
    ensures forall u: nat :: u < parent.Length ==> sizes[u] == |Descendants(parent[..], depth, u)|
    ensures forall i: nat, u: nat :: i < numVersions ==> (u in roots[i] <==> IsVersionRoot(version, childs, u, i))
    ensures forall i: nat :: i < numVersions ==> Distinct(roots[i]) && RootsOk(Hierarchy(parent[..], version, childs, sizes, interval, depth), i, RootSet(roots[i]))
  {
    ghost var par := parent[..];
    childs := ReadChildLists(parent, version, interval, depth);
    forall u: nat, k: nat | u < |childs| && k < |childs[u]|
      ensures childs[u][k] < |version| && version[childs[u][k]] < numVersions
    {
      assert childs[u][k] in childs[u];
      assert NodeReady(par, version, interval, numVersions, invalidVersion, childs[u][k]);
    }
    roots := CollectVersionRoots(version, interval, childs, numVersions, invalidVersion);
    sizes := ComputeSubtreeSizes(parent, childs, depth);
    forall u: nat | u < |childs| ensures sizes[u] == |Descendants(par, depth, u)| {
      SubtreeSizeCounts(childs, par, depth, u);
    }
    FinalizedValid(par, depth, version, interval, numVersions, invalidVersion, childs, sizes);
    forall i: nat | i < numVersions ensures Distinct(roots[i]) && RootsOk(Hierarchy(par, version, childs, sizes, interval, depth), i, RootSet(roots[i])) {
      forall u: nat | u in RootSet(roots[i]) ensures u < |par| && version[u] > i {
        assert IsVersionRoot(version, childs, u, i);
      }
    }
  }

  /** Every contraction of a version lies below exactly one of the roots collected for that version. */
  lemma {:induction false} RootIsCollected(h: Hierarchy, v: nat)
    requires h.Valid() && h.IsNode(v) && h.parent[v] != v
    requires forall r: nat :: h.IsNode(r) && h.parent[r] == r ==> h.version[r] > h.version[v]
    ensures IsVersionRoot(h.version, h.childs, h.VersionRoot(v), h.version[v])
    decreases h.depth[v]
  {
    var u := h.parent[v];
    assert h.ParentOk(v);
    if h.version[u] == h.version[v] {
      RootIsCollected(h, u);
    } else {
      var k :| 0 <= k < |h.childs[u]| && h.childs[u][k] == v;
    }
  }

  lemma FinalizedValid(parent: seq<nat>, depth: seq<nat>, version: seq<nat>, interval: seq<Interval>, numVersions: nat, invalidVersion: nat,
                       childs: seq<seq<nat>>, sizes: seq<nat>)
    requires ReadyToFinalize(parent, depth, version, interval, numVersions, invalidVersion)
    requires Inverts(childs, parent) && |sizes| == |childs| && forall u :: 0 <= u < |childs| ==> InVisitingOrder(version, interval, childs[u])
    ensures Hierarchy(parent, version, childs, sizes, interval, depth).Valid()
  {
    var h := Hierarchy(parent, version, childs, sizes, interval, depth);
    forall v: nat | v < |parent| ensures parent[v] < |parent| {
      assert ForestAt(parent, depth, v);
    }
    assert h.Shape();
    forall u: nat | u < |parent| ensures h.ChildsOk(u) && h.ParentOk(u) {
      SortedChildsOk(parent, depth, version, interval, childs, sizes, u);
      assert NodeReady(parent, version, interval, numVersions, invalidVersion, u) && ForestAt(parent, depth, u);
      if parent[u] != u { assert IsChild(parent, u, parent[u]); }
    }
  }
}
