/** The iterator lists of the adjacency array: which of them the restoration of removed edges gives back. */
module EdgeIterators {
  import opened Rings
  import opened Chains
  import opened LiveLists
  import opened IteratorLists
  import opened QuotientGraph
  import opened ParallelEdges
  import opened EdgePermutation

  function SizeAt(active: seq<nat>, last: seq<nat>, w: nat): nat {
    if w < |active| && w < |last| && active[w] <= last[w] then last[w] - active[w] else 0
  }

  /** The number of active edges of every slice. */
  function SliceSizes(active: seq<nat>, last: seq<nat>): (r: seq<nat>)
    ensures |r| == |active| && forall w: nat :: w < |active| ==> r[w] == SizeAt(active, last, w)
  {
    seq(|active|, w requires 0 <= w < |active| => SizeAt(active, last, w))
  }

  lemma OneSizeChanged(active: seq<nat>, active': seq<nat>, last: seq<nat>, w: nat)
    requires w < |active| == |active'| && active' == active[w := active'[w]]
    ensures SliceSizes(active', last) == SliceSizes(active, last)[w := SizeAt(active', last, w)]
  {
  }

  /** The iterator lists of all heads are right. */
  ghost predicate AllLinked(g: Graph, itNext: seq<nat>, itPrev: seq<nat>) {
    ItersOk(g.Chain(), itNext, itPrev, SliceSizes(g.active, g.last))
  }

  /** All edges of slice w are disabled, and there are some. */
  ghost predicate OnlyDisabled(g: Graph, w: nat)
    requires g.Shape()
  {
    w < |g.first| && g.active[w] < g.last[w] && forall x: nat :: g.active[w] <= x < g.last[w] ==> !g.edges[x].IsValid()
  }

  /** Head u has an edge to remove that is not disabled, or no list of u but its own holds only disabled edges. */
  ghost predicate KeepsIterator(g: Graph, u: nat)
    requires g.Shape() && u < |g.circ|
  {
    RemovedLive(g, u) != {} || forall w :: w in g.circ[u] && w != u ==> !OnlyDisabled(g, w)
  }

  ghost predicate AllKeep(g: Graph) {
    g.Shape() && forall u: nat {:trigger KeepsIterator(g, u)} :: u < |g.isHead| && g.isHead[u] ==> KeepsIterator(g, u)
  }

  lemma ArrayShape(g: Graph)
    requires g.Valid()
    ensures g.Shape() && g.Chain().Valid() && |g.first| == |g.last| == |g.active| == |g.isHead| == |g.circ|
    ensures forall w :: 0 <= w < |g.first| ==> g.active[w] <= g.last[w]
  {
  }

  lemma ArrayBounds(g: Graph)
    requires g.Shape()
    ensures |g.first| == |g.last| == |g.active| == |g.isHead| == |g.circ| == |g.rep|
    ensures forall w :: 0 <= w < |g.first| ==> g.active[w] <= g.last[w]
  {
  }

  // ---------- New, appended and cut circles ----------

  lemma SinglesIterable(n: nat, size: seq<nat>)
    requires |size| == n
    ensures ItersOk(Singles(n), Identity(n), Identity(n), size) && InRange(Identity(n), Identity(n), n)
  {
    forall h: nat | h < n ensures IterAt(Singles(n), Identity(n), Identity(n), size, h) {
      assert Live([h], size) == [h];
    }
  }

  /** The pointers after list w was taken out and points to itself. */
  function UnlinkedNext(itNext: seq<nat>, itPrev: seq<nat>, w: nat): (r: seq<nat>)
    requires w < |itNext| == |itPrev| && itPrev[w] < |itNext|
    ensures |r| == |itNext|
  {
    itNext[itPrev[w] := itNext[w]][w := w]
  }

  function UnlinkedPrev(itNext: seq<nat>, itPrev: seq<nat>, w: nat): (r: seq<nat>)
    requires w < |itNext| == |itPrev| && itNext[w] < |itPrev|
    ensures |r| == |itPrev|
  {
    itPrev[itNext[w] := itPrev[w]][w := w]
  }

  lemma UnlinkedIsCut(itNext: seq<nat>, itPrev: seq<nat>, w: nat)
    requires w < |itNext| == |itPrev| && itPrev[w] < |itNext| && itNext[w] < |itPrev| && (itPrev[w] == w <==> itNext[w] == w)
    ensures UnlinkedNext(itNext, itPrev, w) == NextCut(itNext, itPrev, w, w) && UnlinkedPrev(itNext, itPrev, w) == PrevCut(itNext, itPrev, w, w)
  {
  }

  lemma AppendedInRange(itNext: seq<nat>, itPrev: seq<nat>, n: nat, u: nat, v: nat)
    requires InRange(itNext, itPrev, n) && u < n && v < n
    ensures InRange(NextAppended(itNext, itPrev, u, v), PrevAppended(itPrev, u, v), n)
  {
  }

  lemma UnlinkedInRange(itNext: seq<nat>, itPrev: seq<nat>, n: nat, w: nat)
    requires InRange(itNext, itPrev, n) && w < n
    ensures InRange(UnlinkedNext(itNext, itPrev, w), UnlinkedPrev(itNext, itPrev, w), n)
  {
  }

  /** Appending the circle of v: the joined iterator list, which v leaves if it has no active edges. */
  lemma IteratorsAppended(g: Graph, itNext: seq<nat>, itPrev: seq<nat>, u: nat, v: nat)
    requires g.Shape() && g.Circles() && InRange(itNext, itPrev, |g.first|)
    requires u < |g.isHead| && v < |g.isHead| && u != v && g.isHead[u] && g.isHead[v]
    ensures var n, p, g' := NextAppended(itNext, itPrev, u, v), PrevAppended(itPrev, u, v), g.With(Appended(g.Chain(), u, v));
            && InRange(n, p, |g.first|) && InRange(UnlinkedNext(n, p, v), UnlinkedPrev(n, p, v), |g.first|)
            && (AllLinked(g, itNext, itPrev) ==>
                  if g.last[v] == g.active[v] then AllLinked(g', UnlinkedNext(n, p, v), UnlinkedPrev(n, p, v)) else AllLinked(g', n, p))
  {
    var n, p := NextAppended(itNext, itPrev, u, v), PrevAppended(itPrev, u, v);
    AppendedInRange(itNext, itPrev, |g.first|, u, v);
    UnlinkedInRange(n, p, |g.first|, v);
    hide NextAppended, PrevAppended, UnlinkedNext, UnlinkedPrev, ItersOk, InRange;
    var size := SliceSizes(g.active, g.last);
    if AllLinked(g, itNext, itPrev) {
      IterAppended(g.Chain(), itNext, itPrev, size, u, v);
      assert g.With(Appended(g.Chain(), u, v)).Chain() == Appended(g.Chain(), u, v);
      if g.last[v] == g.active[v] { UnlinkedIsCut(n, p, v); }
    }
  }

  /** The former circle of v is a stretch of the circle of u. */
  ghost predicate CanSplice(g: Graph, u: nat, v: nat, k: nat) {
    && g.Shape() && g.Circles() && u < |g.isHead| && v < |g.isHead| && u != v && g.isHead[u] && g.rep[v] == u
    && IsSegment(g.Chain(), u, v, k) && g.circ[v] != [] && g.circ[v][0] == v
  }

  lemma Splicable(g: Graph, u: nat, v: nat, k: nat)
    requires CanUncontract(g, u, v, k)
    ensures CanSplice(g, u, v, k) && u < |g.degree| && v < |g.degree| && g.Shape()
    ensures var g' := g.With(Spliced(g.Chain(), u, v, k)).(degree := g.degree[u := g.degree[u] - g.degree[v]]); g'.Shape() && g'.Circles()
  {
    CutValid(g, u, v, k);
  }

  lemma UncontractedShape(g: Graph, u: nat, v: nat, k: nat)
    requires CanUncontract(g, u, v, k)
    ensures Uncontracted(g, u, v, k).Shape() && Uncontracted(g, u, v, k).Circles()
  {
    CutValid(g, u, v, k);
  }

  lemma TailOfSegment(g: Graph, next: seq<nat>, prev: seq<nat>, tail: seq<nat>, u: nat, v: nat, k: nat)
    requires CanSplice(g, u, v, k) && ListsOk(g.Chain(), next, prev, tail)
    ensures v < |tail| && tail[v] == g.circ[v][|g.circ[v]| - 1] && 0 < k && k + |g.circ[v]| - 1 < |g.circ[u]|
    ensures g.circ[u][k] == v && g.circ[u][k + |g.circ[v]| - 1] == tail[v]
  {
    var c, d := g.circ[u], g.circ[v];
    assert ListOk(next, prev, tail, g.circ, g.isHead, v) && g.CircleOk(v) && g.CircleOk(u);
    assert c[k..k + |d|][0] == c[k] && c[k..k + |d|][|d| - 1] == c[k + |d| - 1];
  }

  /** Right after v was cut out: all other iterator lists are right, and the empty lists of v point to themselves. */
  ghost predicate SplicedOk(g: Graph, u: nat, v: nat, k: nat, itNext: seq<nat>, itPrev: seq<nat>)
    requires CanSplice(g, u, v, k)
  {
    var size := SliceSizes(g.active, g.last);
    OthersOk(Spliced(g.Chain(), u, v, k), itNext, itPrev, size, v)
    && SelfLinked(itNext, itPrev, g.circ[v], size) && SelfLinkedAt(itNext, itPrev, g.circ[v], size, 0)
  }

  lemma IteratorsSpliced(g: Graph, itNext: seq<nat>, itPrev: seq<nat>, u: nat, v: nat, k: nat, before: nat, after: nat)
    requires CanSplice(g, u, v, k) && InRange(itNext, itPrev, |g.first|) && before < |g.first| && after < |g.first|
    requires var size := SliceSizes(g.active, g.last);
             before == Predecessor(g.circ[u][..k], size) && after == Successor([u], g.circ[u][k + |g.circ[v]|..], size)
    ensures InRange(itNext[before := after], itPrev[after := before], |g.first|)
    ensures AllLinked(g, itNext, itPrev) ==> SplicedOk(g, u, v, k, itNext[before := after], itPrev[after := before])
  {
    if AllLinked(g, itNext, itPrev) {
      IterSplice(g.Chain(), itNext, itPrev, SliceSizes(g.active, g.last), u, v, k, before, after);
    }
  }

  /** The circle of v was linked anew: all iterator lists are right. */
  lemma IteratorsRestored(g: Graph, u: nat, v: nat, k: nat, itNext0: seq<nat>, itPrev0: seq<nat>, itNext: seq<nat>, itPrev: seq<nat>, last: nat)
    requires CanSplice(g, u, v, k) && SplicedOk(g, u, v, k, itNext0, itPrev0)
    requires SelfLinkedAt(itNext0, itPrev0, g.circ[v], SliceSizes(g.active, g.last), 0) ==>
               RingUpTo(itNext0, itPrev0, itNext, itPrev, g.circ[v], SliceSizes(g.active, g.last), |g.circ[v]|, last)
    ensures ItersOk(Spliced(g.Chain(), u, v, k), itNext, itPrev, SliceSizes(g.active, g.last))
  {
    var c, size, g' := g.circ[v], SliceSizes(g.active, g.last), Spliced(g.Chain(), u, v, k);
    assert g.CircleOk(u) && g.CircleOk(v);
    SegmentIsDistinct(g.circ[u], c, k);
    RingEnds(itNext0, itPrev0, itNext, itPrev, c, size, last);
    CutValid(g, u, v, k);
    assert g'.circ[v] == c;
    OthersUntouched(g', itNext0, itPrev0, itNext, itPrev, size, size, v);
  }

  lemma CutValid(g: Graph, u: nat, v: nat, k: nat)
    requires CanSplice(g, u, v, k)
    ensures Spliced(g.Chain(), u, v, k).Valid()
  {
    var g' := Spliced(g.Chain(), u, v, k);
    forall h: nat | h < |g'.rep| ensures g'.CircleOk(h) {
      SplicedCircle(g.Chain(), u, v, k, h);
    }
  }

  // ---------- Walking along the iterator list ----------

  /** The edges of the lists c that are not disabled. */
  ghost function LiveEdgesIn(g: Graph, c: seq<nat>): set<nat>
    requires g.Shape()
  {
    set x: nat | x < |g.edges| && g.Live(x) && g.owner[x] in c
  }

  ghost function LiveBelow(g: Graph, w: nat, bound: nat): set<nat>
    requires g.Shape()
  {
    set x: nat | x < |g.edges| && g.Live(x) && g.owner[x] == w && x < bound
  }

  /** ids lists exactly the elements of s, each once. */
  ghost predicate Lists(ids: seq<nat>, s: set<nat>) {
    Distinct(ids) && forall x: nat :: x in ids <==> x in s
  }

  lemma NothingIn(g: Graph, l: seq<nat>)
    requires g.Shape()
    ensures l[..0] == [] && Lists([], LiveEdgesIn(g, []))
  {
  }

  lemma SliceStarts(g: Graph, l: seq<nat>, i: nat, w: nat)
    requires g.Shape() && i < |l| && w < |g.first|
    ensures LiveEdgesIn(g, l[..i]) + LiveBelow(g, w, g.active[w]) == LiveEdgesIn(g, l[..i])
  {
  }

  lemma SliceStep(g: Graph, l: seq<nat>, i: nat, w: nat, x: nat, ids: seq<nat>)
    requires g.Shape() && i < |l| && l[i] == w && w < |g.first| && Distinct(l) && g.active[w] <= x < g.last[w]
    requires Lists(ids, LiveEdgesIn(g, l[..i]) + LiveBelow(g, w, x))
    ensures x < |g.edges|
    ensures Lists(if g.edges[x].IsValid() then ids + [x] else ids, LiveEdgesIn(g, l[..i]) + LiveBelow(g, w, x + 1))
  {
    assert InSlice(g.first, g.last, w, x);
    assert w !in l[..i];
    assert g.Live(x) <==> g.edges[x].IsValid();
    forall y: nat ensures y in LiveBelow(g, w, x + 1) <==> y in LiveBelow(g, w, x) || (y == x && g.Live(x)) {}
    assert x !in ids;
  }

  lemma SliceEnds(g: Graph, l: seq<nat>, i: nat, w: nat)
    requires g.Shape() && i < |l| && l[i] == w && w < |g.first|
    ensures LiveEdgesIn(g, l[..i]) + LiveBelow(g, w, g.last[w]) == LiveEdgesIn(g, l[..i + 1])
  {
    assert l[..i + 1] == l[..i] + [w];
    forall x: nat | x < |g.edges| && g.owner[x] == w ensures x < g.last[w] {
      assert InSlice(g.first, g.last, w, x);
    }
  }

  lemma LiveDistinct(g: Graph, u: nat)
    requires g.Valid() && u < |g.isHead| && g.isHead[u]
    ensures Distinct(Live(g.circ[u], SliceSizes(g.active, g.last)))
    ensures forall i :: 0 <= i < |Live(g.circ[u], SliceSizes(g.active, g.last))| ==> Live(g.circ[u], SliceSizes(g.active, g.last))[i] < |g.first|
  {
    var c, l := g.circ[u], Live(g.circ[u], SliceSizes(g.active, g.last));
    HeadCircle(g.Chain(), u);
    LiveMembers(c, SliceSizes(g.active, g.last));
    forall i | 0 <= i < |l| ensures l[i] < |g.first| {
      assert l[i] in l;
    }
  }

  /** The lists that the iterator skips have no active edges. */
  lemma LiveIsWhole(g: Graph, u: nat)
    requires g.Valid() && u < |g.isHead| && g.isHead[u]
    ensures LiveEdgesIn(g, Live(g.circ[u], SliceSizes(g.active, g.last))) == g.LiveOf(u)
  {
    var c, size := g.circ[u], SliceSizes(g.active, g.last);
    HeadCircle(g.Chain(), u);
    assert g.CircleOk(u);
    LiveMembers(c, size);
    forall x: nat | x < |g.edges| && g.Live(x) ensures g.owner[x] in Live(c, size) <==> g.Head(x) == u {
      assert InSlice(g.first, g.last, g.owner[x], x);
    }
  }

  // ---------- Which lists the removal empties ----------

  ghost predicate HoldsKept(g: Graph, w: nat)
    requires g.Shape()
  {
    exists x: nat :: x < |g.edges| && g.owner[x] == w && Kept(g, x)
  }

  lemma SizeAfter(g: Graph, r: Removal, w: nat)
    requires RemovalOk(g, r) && w < |g.first|
    ensures SizeAt(Removed(g, r).active, g.last, w) <= SizeAt(g.active, g.last, w)
    ensures SizeAt(Removed(g, r).active, g.last, w) > 0 <==> HoldsKept(g, w)
  {
    var c, active := Contents(g, r.slots), Removed(g, r).active;
    RemovedShape(g, r);
    if active[w] < g.last[w] {
      assert InSlice(g.first, g.last, w, active[w]);
      RemovedLiveAt(g, r, active[w]);
    }
    if x: nat :| x < |g.edges| && g.owner[x] == w && Kept(g, x) {
      var p := r.mapping[x];
      assert c[p] == x;
      RemovedLiveAt(g, r, p);
      assert InSlice(g.first, g.last, w, p);
    }
  }

  /** A head without live edges to remove loses exactly the lists that hold only disabled edges. */
  lemma EmptiedLists(g: Graph, u: nat, w: nat)
    requires g.Valid() && u < |g.isHead| && g.isHead[u] && w in g.circ[u] && RemovedLive(g, u) == {}
    ensures w < |g.first| && (OnlyDisabled(g, w) <==> SizeAt(g.active, g.last, w) > 0 && !HoldsKept(g, w))
  {
    assert g.CircleOk(u);
    forall x: nat | g.active[w] <= x < g.last[w] ensures g.owner[x] == w && (Kept(g, x) <==> g.edges[x].IsValid()) {
      assert InSlice(g.first, g.last, w, x);
      assert x in RemovedLive(g, u) <==> g.Live(x) && !Kept(g, x);
    }
    if x: nat :| x < |g.edges| && g.owner[x] == w && Kept(g, x) {
      assert InSlice(g.first, g.last, w, x);
    }
  }

  // ---------- Restoring head by head ----------

  ghost predicate SameOn(itNext: seq<nat>, itPrev: seq<nat>, itNext': seq<nat>, itPrev': seq<nat>, c: seq<nat>) {
    forall w: nat {:trigger SameAt(itNext, itPrev, itNext', itPrev', w)} :: w in c ==> SameAt(itNext, itPrev, itNext', itPrev', w)
  }

  /** Head u was linked anew if a live edge of it was restored; otherwise its pointers are what they were. */
  ghost predicate HeadRestored(g: Graph, itNext0: seq<nat>, itPrev0: seq<nat>, itNext: seq<nat>, itPrev: seq<nat>, u: nat)
    requires g.Shape() && u < |g.circ|
  {
    var size := SliceSizes(g.active, g.last);
    if RemovedLive(g, u) != {} then SelfLinked(itNext0, itPrev0, g.circ[u], size) ==> IterOk(itNext, itPrev, g.circ[u], size)
    else SameOn(itNext0, itPrev0, itNext, itPrev, g.circ[u])
  }

  ghost predicate HeadAt(g: Graph, itNext0: seq<nat>, itPrev0: seq<nat>, itNext: seq<nat>, itPrev: seq<nat>, n: nat, h: nat)
    requires g.Shape() && h < |g.circ|
  {
    g.isHead[h] ==>
      if h < n then HeadRestored(g, itNext0, itPrev0, itNext, itPrev, h) else SameOn(itNext0, itPrev0, itNext, itPrev, g.circ[h])
  }

  /** The heads below n are done. */
  ghost predicate HeadsRestored(g: Graph, itNext0: seq<nat>, itPrev0: seq<nat>, itNext: seq<nat>, itPrev: seq<nat>, n: nat) {
    && g.Shape() && |itNext0| == |itPrev0| == |itNext| == |itPrev| == |g.first|
    && forall h: nat {:trigger HeadAt(g, itNext0, itPrev0, itNext, itPrev, n, h)} :: h < |g.circ| ==> HeadAt(g, itNext0, itPrev0, itNext, itPrev, n, h)
  }

  lemma NoneRestored(g: Graph, itNext: seq<nat>, itPrev: seq<nat>)
    requires g.Shape() && |itNext| == |itPrev| == |g.first|
    ensures HeadsRestored(g, itNext, itPrev, itNext, itPrev, 0)
  {
    forall h: nat | h < |g.circ| ensures HeadAt(g, itNext, itPrev, itNext, itPrev, 0, h) {
      forall w: nat ensures SameAt(itNext, itPrev, itNext, itPrev, w) {}
    }
  }

  lemma NextRestored(g: Graph, itNext0: seq<nat>, itPrev0: seq<nat>, itNext: seq<nat>, itPrev: seq<nat>, itNext': seq<nat>, itPrev': seq<nat>, u: nat)
    requires g.Valid() && HeadsRestored(g, itNext0, itPrev0, itNext, itPrev, u) && u < |g.isHead| && |itNext'| == |itPrev'| == |itNext|
    requires forall w: nat {:trigger SameAt(itNext, itPrev, itNext', itPrev', w)} :: !g.isHead[u] || w !in g.circ[u] ==> SameAt(itNext, itPrev, itNext', itPrev', w)
    requires g.isHead[u] ==> HeadRestored(g, itNext0, itPrev0, itNext', itPrev', u)
    ensures HeadsRestored(g, itNext0, itPrev0, itNext', itPrev', u + 1)
  {
    var n := u + 1;
    forall h: nat | h < |g.circ| ensures HeadAt(g, itNext0, itPrev0, itNext', itPrev', n, h) {
      assert HeadAt(g, itNext0, itPrev0, itNext, itPrev, u, h);
      if h != u && g.isHead[h] {
        forall w: nat | w in g.circ[h] ensures SameAt(itNext, itPrev, itNext', itPrev', w) {
          if g.isHead[u] && w in g.circ[u] { NotInCircle(g.Chain(), h, u, w); }
        }
        OtherHead(g, itNext0, itPrev0, itNext, itPrev, itNext', itPrev', h);
      }
    }
  }

  lemma OtherHead(g: Graph, itNext0: seq<nat>, itPrev0: seq<nat>, itNext: seq<nat>, itPrev: seq<nat>, itNext': seq<nat>, itPrev': seq<nat>, h: nat)
    requires g.Valid() && h < |g.circ| && g.isHead[h] && |itNext0| == |itPrev0| == |itNext| == |itPrev| == |itNext'| == |itPrev'| == |g.first|
    requires SameOn(itNext, itPrev, itNext', itPrev', g.circ[h])
    ensures HeadRestored(g, itNext0, itPrev0, itNext, itPrev, h) ==> HeadRestored(g, itNext0, itPrev0, itNext', itPrev', h)
    ensures SameOn(itNext0, itPrev0, itNext, itPrev, g.circ[h]) ==> SameOn(itNext0, itPrev0, itNext', itPrev', g.circ[h])
  {
    var size := SliceSizes(g.active, g.last);
    HeadCircle(g.Chain(), h);
    if SameOn(itNext0, itPrev0, itNext, itPrev, g.circ[h]) {
      forall w: nat | w in g.circ[h] ensures SameAt(itNext0, itPrev0, itNext', itPrev', w) {
        assert SameAt(itNext0, itPrev0, itNext, itPrev, w) && SameAt(itNext, itPrev, itNext', itPrev', w);
      }
    }
    if IterOk(itNext, itPrev, g.circ[h], size) {
      IterFrame(itNext, itPrev, itNext', itPrev', g.circ[h], size, size);
    }
  }

  /** The iterator lists after the restoration are right exactly if every head keeps its own. */
  lemma LinkedExactlyIfKept(g: Graph, r: Removal, itNext0: seq<nat>, itPrev0: seq<nat>, itNext: seq<nat>, itPrev: seq<nat>)
    requires g.Valid() && RemovalOk(g, r) && HeadsRestored(g, itNext0, itPrev0, itNext, itPrev, |g.first|)
    requires AllLinked(Removed(g, r), itNext0, itPrev0)
    ensures AllLinked(g, itNext, itPrev) <==> AllKeep(g)
  {
    var size := SliceSizes(g.active, g.last);
    forall u: nat | u < |g.isHead| && g.isHead[u] ensures KeepsIterator(g, u) <==> IterOk(itNext, itPrev, g.circ[u], size) {
      HeadExact(g, r, itNext0, itPrev0, itNext, itPrev, u);
    }
    if AllLinked(g, itNext, itPrev) {
      forall u: nat | u < |g.isHead| && g.isHead[u] ensures KeepsIterator(g, u) {
        assert IterAt(g.Chain(), itNext, itPrev, size, u);
      }
    }
    if AllKeep(g) {
      forall u: nat | u < |g.isHead| ensures IterAt(g.Chain(), itNext, itPrev, size, u) {}
    }
  }

  lemma HeadExact(g: Graph, r: Removal, itNext0: seq<nat>, itPrev0: seq<nat>, itNext: seq<nat>, itPrev: seq<nat>, u: nat)
    requires g.Valid() && RemovalOk(g, r) && HeadsRestored(g, itNext0, itPrev0, itNext, itPrev, |g.first|)
    requires AllLinked(Removed(g, r), itNext0, itPrev0) && u < |g.isHead| && g.isHead[u]
    ensures KeepsIterator(g, u) <==> IterOk(itNext, itPrev, g.circ[u], SliceSizes(g.active, g.last))
  {
    var c, size0, size := g.circ[u], SliceSizes(Removed(g, r).active, g.last), SliceSizes(g.active, g.last);
    HeadCircle(g.Chain(), u);
    CircleInRange(g, u);
    assert IterAt(Removed(g, r).Chain(), itNext0, itPrev0, size0, u);
    assert HeadAt(g, itNext0, itPrev0, itNext, itPrev, |g.first|, u);
    forall i: nat | i < |c| ensures size0[c[i]] <= size[c[i]] {
      SizeAfter(g, r, c[i]);
    }
    if RemovedLive(g, u) != {} {
      SelfLinkedStays(itNext0, itPrev0, c, size0, size);
    } else {
      IterFrame(itNext0, itPrev0, itNext, itPrev, c, size0, size0);
      StillRight(itNext, itPrev, c, size0, size);
      ListsLost(g, r, u);
    }
  }

  lemma CircleInRange(g: Graph, u: nat)
    requires g.Valid() && u < |g.isHead| && g.isHead[u]
    ensures forall i :: 0 <= i < |g.circ[u]| ==> g.circ[u][i] < |g.first|
  {
    assert g.CircleOk(u);
    forall i | 0 <= i < |g.circ[u]| ensures g.circ[u][i] < |g.first| {
      assert g.circ[u][i] in g.circ[u];
    }
  }

  /** Lists that are empty now were empty before. */
  lemma SelfLinkedStays(itNext: seq<nat>, itPrev: seq<nat>, c: seq<nat>, size0: seq<nat>, size: seq<nat>)
    requires SelfLinked(itNext, itPrev, c, size0) && |size0| == |size|
    requires forall i :: 0 <= i < |c| ==> c[i] < |size| && size0[c[i]] <= size[c[i]]
    ensures SelfLinked(itNext, itPrev, c, size)
  {
    forall i: nat | 0 < i < |c| ensures SelfLinkedAt(itNext, itPrev, c, size, i) {
      assert SelfLinkedAt(itNext, itPrev, c, size0, i);
    }
  }

  lemma ListsLost(g: Graph, r: Removal, u: nat)
    requires g.Valid() && RemovalOk(g, r) && u < |g.isHead| && g.isHead[u] && RemovedLive(g, u) == {}
    ensures var c, size0, size := g.circ[u], SliceSizes(Removed(g, r).active, g.last), SliceSizes(g.active, g.last);
            && (forall i :: 0 <= i < |c| ==> c[i] < |size|) && |size0| == |size|
            && (KeepsIterator(g, u) <==> forall i :: 0 < i < |c| && size[c[i]] > 0 ==> size0[c[i]] > 0)
  {
    var c, size0, size := g.circ[u], SliceSizes(Removed(g, r).active, g.last), SliceSizes(g.active, g.last);
    HeadCircle(g.Chain(), u);
    CircleInRange(g, u);
    forall i: nat | i < |c| ensures OnlyDisabled(g, c[i]) <==> size[c[i]] > 0 && size0[c[i]] == 0 {
      assert c[i] in c;
      SizeAfter(g, r, c[i]);
      EmptiedLists(g, u, c[i]);
    }
    if forall i :: 0 < i < |c| && size[c[i]] > 0 ==> size0[c[i]] > 0 {
      forall w | w in c && w != u ensures !OnlyDisabled(g, w) {
        var i: nat :| i < |c| && c[i] == w;
      }
    } else {
      var i: nat :| 0 < i < |c| && size[c[i]] > 0 && size0[c[i]] == 0;
      assert c[i] in c && c[i] != u && OnlyDisabled(g, c[i]);
    }
  }

  // ---------- Contractions along edges ----------

  /** Some live edge leads from v to u. */
  ghost predicate Adjacent(g: Graph, u: nat, v: nat)
    requires g.Shape()
  {
    exists x: nat :: x < |g.edges| && g.Live(x) && g.Head(x) == v && g.edges[x].target == u
  }

  ghost predicate AdjacentRun(g: Graph, pairs: seq<(nat, nat)>)
    decreases |pairs|
  {
    pairs == [] || (CanContract(g, pairs[0].0, pairs[0].1) && Adjacent(g, pairs[0].0, pairs[0].1)
                    && AdjacentRun(Contracted(g, pairs[0].0, pairs[0].1), pairs[1..]))
  }

  ghost predicate NoneDisabled(g: Graph) {
    g.Shape() && forall x: nat :: x < |g.edges| && g.Active(x) ==> g.Live(x)
  }

  ghost predicate LoopOrNoneDisabled(g: Graph, h: nat)
    requires g.Shape()
  {
    g.LoopsOf(h) != {} || forall x: nat :: x < |g.edges| && g.Active(x) && g.Head(x) == h ==> g.Live(x)
  }

  ghost predicate AllLoopOrNoneDisabled(g: Graph) {
    g.Shape() && forall h: nat {:trigger LoopOrNoneDisabled(g, h)} :: h < |g.isHead| && g.isHead[h] ==> LoopOrNoneDisabled(g, h)
  }

  lemma LoopAppears(g: Graph, u: nat, v: nat)
    requires CanContract(g, u, v) && Adjacent(g, u, v) && Contracted(g, u, v).Shape()
    ensures Contracted(g, u, v).LoopsOf(u) != {}
  {
    var x: nat :| x < |g.edges| && g.Live(x) && g.Head(x) == v && g.edges[x].target == u;
    assert g.EdgeOk(x) && g.CircleOk(v) && g.CircleOk(g.owner[x]);
    assert x in Contracted(g, u, v).LoopsOf(u);
  }

  lemma OthersKeepLoops(g: Graph, u: nat, v: nat, h: nat)
    requires CanContract(g, u, v) && Contracted(g, u, v).Shape() && h < |g.isHead| && g.isHead[h] && h != u && h != v && LoopOrNoneDisabled(g, h)
    ensures LoopOrNoneDisabled(Contracted(g, u, v), h)
  {
    var g' := Contracted(g, u, v);
    if x: nat :| x in g.LoopsOf(h) {
      ContractedLive(g, u, v, x);
      assert x in g'.LoopsOf(h);
    } else {
      assert g.LoopsOf(h) == {};
      forall x: nat | x < |g.edges| && g'.Active(x) && g'.Head(x) == h ensures g'.Live(x) {
        ContractedLive(g, u, v, x);
        assert g.EdgeOk(x);
      }
    }
  }

  lemma AdjacentStep(g: Graph, u: nat, v: nat)
    requires CanContract(g, u, v) && Adjacent(g, u, v) && AllLoopOrNoneDisabled(g)
    ensures Contracted(g, u, v).Valid() && AllLoopOrNoneDisabled(Contracted(g, u, v))
  {
    ContractedValid(g, u, v);
    var g' := Contracted(g, u, v);
    forall h: nat | h < |g'.isHead| && g'.isHead[h] ensures LoopOrNoneDisabled(g', h) {
      if h == u {
        LoopAppears(g, u, v);
      } else {
        OthersKeepLoops(g, u, v, h);
      }
    }
  }

  lemma {:induction false} AdjacentSteps(g: Graph, pairs: seq<(nat, nat)>)
    requires g.Valid() && AllLoopOrNoneDisabled(g) && AdjacentRun(g, pairs)
    ensures RunOk(g, pairs) && After(g, pairs).Valid() && AllLoopOrNoneDisabled(After(g, pairs))
    decreases |pairs|
  {
    if pairs != [] {
      AdjacentStep(g, pairs[0].0, pairs[0].1);
      AdjacentSteps(Contracted(g, pairs[0].0, pairs[0].1), pairs[1..]);
    }
  }

  /** If since the last removal nodes were contracted only into nodes that they were joined to by an edge, every
      head keeps its iterator list. */
  lemma AdjacentContractionsKeep(g: Graph, pairs: seq<(nat, nat)>)
    requires g.Valid() && NoneDisabled(g) && AdjacentRun(g, pairs)
    ensures RunOk(g, pairs) && AllKeep(After(g, pairs))
  {
    forall h: nat | h < |g.isHead| && g.isHead[h] ensures LoopOrNoneDisabled(g, h) {}
    AdjacentSteps(g, pairs);
    var g' := After(g, pairs);
    forall u: nat | u < |g'.isHead| && g'.isHead[u] ensures KeepsIterator(g', u) {
      LoopKeeps(g', u);
    }
  }

  lemma LoopKeeps(g: Graph, u: nat)
    requires g.Valid() && u < |g.isHead| && g.isHead[u] && LoopOrNoneDisabled(g, u)
    ensures KeepsIterator(g, u)
  {
    assert g.CircleOk(u);
    if x: nat :| x in g.LoopsOf(u) {
      assert g.EdgeOk(x) && x in RemovedLive(g, u);
    } else {
      assert g.LoopsOf(u) == {};
      forall w | w in g.circ[u] && w != u ensures !OnlyDisabled(g, w) {
        if g.active[w] < g.last[w] {
          var x := g.active[w];
          assert InSlice(g.first, g.last, w, x);
          assert g.Live(x);
        }
      }
    }
  }

  /** A removal leaves no disabled edge active, so that the next contractions may start from there. */
  lemma RemovedNoneDisabled(g: Graph, r: Removal)
    requires RemovalOk(g, r)
    ensures NoneDisabled(Removed(g, r))
  {
    RemovedShape(g, r);
    forall p: nat | p < |g.edges| && Removed(g, r).Active(p) ensures Removed(g, r).Live(p) {
      RemovedLiveAt(g, r, p);
    }
  }

  // ---------- A lost list ----------

  /** Three nodes, and one edge from 0 to 1. */
  function OneEdge(): Graph {
    Graph([0, 1, 2], [1, 2, 2], [0, 1], [0, 1, 2], [Edge(0, 1, 1, 1), Edge(1, 0, 1, 0)], [1, 1, 0],
          [true, true, true], [0, 1, 2], [[0], [1], [2]])
  }

  lemma OneEdgeSlice(w: nat, x: nat)
    requires w < 3 && x < 2
    ensures InSlice([0, 1, 2], [1, 2, 2], w, x) <==> [0, 1][x] == w
  {
    assert w == 0 || w == 1 || w == 2;
    assert x == 0 || x == 1;
  }

  lemma OneEdgeShape()
    ensures OneEdge().Shape() && OneEdge().Circles()
  {
    var g := OneEdge();
    forall w: nat, x: nat | w < 3 && x < 2 ensures InSlice(g.first, g.last, w, x) <==> g.owner[x] == w {
      OneEdgeSlice(w, x);
    }
    hide InSlice;
    assert g.Shape();
    hide Graph.Shape;
    SinglesLinked(3);
    assert g.Chain() == Singles(3);
  }

  lemma OneEdgeFresh()
    ensures Fresh(OneEdge())
  {
    var g := OneEdge();
    OneEdgeShape();
    forall x: nat | x < 2 ensures g.EdgeOk(x) && g.BackOk(x) && g.Live(x) && !g.edges[x].IsSinglePin() {
      assert x == 0 || x == 1;
    }
    forall h: nat | h < 3 ensures g.degree[h] == |g.LiveOf(h)| {
      OneEdgeDegree(h);
    }
  }

  lemma OneEdgeDegree(h: nat)
    requires h < 3 && OneEdge().Shape() && OneEdge().Live(0) && OneEdge().Live(1)
    ensures OneEdge().degree[h] == |OneEdge().LiveOf(h)|
  {
    var g := OneEdge();
    if h == 2 {
      assert g.LiveOf(h) == {};
    } else {
      assert g.LiveOf(h) == {h};
    }
  }

  /** 1 is contracted into 0, and 0 into 2, which disables both directions of the edge. 2 gets no live edge, so
      that its lists are lost when the edges are removed and restored. */
  lemma ListsOfOneEdgeLost()
    ensures Fresh(OneEdge()) && CanContract(OneEdge(), 0, 1) && CanContract(Contracted(OneEdge(), 0, 1), 2, 0)
    ensures var g := Contracted(Contracted(OneEdge(), 0, 1), 2, 0); g.Valid() && g.isHead[2] && !KeepsIterator(g, 2) && !AllKeep(g)
  {
    OneEdgeFresh();
    ContractedValid(OneEdge(), 0, 1);
    var g1 := Contracted(OneEdge(), 0, 1);
    ContractedValid(g1, 2, 0);
    EndsDisabled(g1);
  }

  lemma EndsDisabled(g1: Graph)
    requires CanContract(OneEdge(), 0, 1) && g1 == Contracted(OneEdge(), 0, 1) && CanContract(g1, 2, 0) && Contracted(g1, 2, 0).Valid()
    ensures var g := Contracted(g1, 2, 0); g.isHead[2] && 0 in g.circ[2] && !KeepsIterator(g, 2)
  {
    var g0, g := OneEdge(), Contracted(g1, 2, 0);
    forall x: nat | x < 2 ensures !g.edges[x].IsValid() {
      assert g1.edges[x] == ContractedEdge(g0, 0, 1, x) && g.edges[x] == ContractedEdge(g1, 2, 0, x);
      assert x == 0 || x == 1;
    }
    assert g.circ[2] == [2] + g1.circ[0];
    assert OnlyDisabled(g, 0);
  }

  /** What a lost list does later: list p of the circle a + [p] + d is not empty but was not linked. When d is
      cut out, p counts as the non-empty list before it, and the walk along a goes on into what was cut out. */
  lemma LostListMisleads(itNext: seq<nat>, itPrev: seq<nat>, a: seq<nat>, p: nat, d: seq<nat>, size: seq<nat>)
    requires a != [] && Filled(d, size) != [] && p < |size| && size[p] > 0 && p !in a && p !in d
    requires Ring(itNext, itPrev, Live(a, size) + Filled(d, size)) && p < |itNext|
    ensures Predecessor(a + [p], size) == p
    ensures var last := Predecessor(a, size); last < |itNext| && last != p ==> itNext[p := a[0]][last] == Filled(d, size)[0]
  {
    var l, f := Live(a, size), Filled(d, size);
    LiveAppend(a, [p], size);
    FilledFirst(p, [], size);
    assert (l + f)[|l| - 1] == l[|l| - 1] && (l + f)[|l|] == f[0];
  }
}
