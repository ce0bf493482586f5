/** The iterator lists of all circles.

    Both incidence structures let an iterator skip the empty lists of a circle: besides the circle itself, the
    head and the non-empty lists are linked to a ring of their own. */
module IteratorLists {
  import opened Rings
  import opened Chains
  import opened LiveLists

  /** The iterator list of every head is right. */
  ghost predicate ItersOk(g: Chains, itNext: seq<nat>, itPrev: seq<nat>, size: seq<nat>) {
    && |itNext| == |itPrev| == |size| == |g.rep| == |g.isHead| == |g.circ|
    && forall h: nat {:trigger IterAt(g, itNext, itPrev, size, h)} :: h < |g.rep| ==> IterAt(g, itNext, itPrev, size, h)
  }

  ghost predicate IterAt(g: Chains, itNext: seq<nat>, itPrev: seq<nat>, size: seq<nat>, h: nat)
    requires h < |g.isHead| == |g.circ|
  {
    g.isHead[h] ==> IterOk(itNext, itPrev, g.circ[h], size)
  }

  /** The iterator lists of all heads but u are right. */
  ghost predicate OthersOk(g: Chains, itNext: seq<nat>, itPrev: seq<nat>, size: seq<nat>, u: nat) {
    && |itNext| == |itPrev| == |size| == |g.rep| == |g.isHead| == |g.circ|
    && forall h: nat {:trigger IterAt(g, itNext, itPrev, size, h)} :: h < |g.rep| && h != u ==> IterAt(g, itNext, itPrev, size, h)
  }

  lemma HeadIter(g: Chains, itNext: seq<nat>, itPrev: seq<nat>, size: seq<nat>, u: nat)
    requires g.Valid() && ItersOk(g, itNext, itPrev, size) && u < |g.rep| && g.isHead[u]
    ensures u < |g.circ| && IterOk(itNext, itPrev, g.circ[u], size)
  {
    assert IterAt(g, itNext, itPrev, size, u);
  }

  lemma HeadCircle(g: Chains, u: nat)
    requires g.Valid() && u < |g.rep| && g.isHead[u]
    ensures g.circ[u] != [] && g.circ[u][0] == u && u in g.circ[u] && Distinct(g.circ[u])
  {
    assert g.CircleOk(u);
  }

  lemma OnlyHead(g: Chains, u: nat, w: nat)
    requires g.Valid() && u < |g.rep| && g.isHead[u] && w in g.circ[u] && w != u
    ensures w < |g.isHead| && !g.isHead[w]
  {
    assert g.CircleOk(u) && g.CircleOk(w);
  }

  lemma NotInCircle(g: Chains, h: nat, u: nat, w: nat)
    requires g.Valid() && u < |g.rep| && h < |g.rep| && u != h && g.isHead[u] && g.isHead[h] && w in g.circ[u]
    ensures w !in g.circ[h]
  {
    assert g.CircleOk(h) && g.CircleOk(u);
  }

  lemma CircleFacts(g: Chains, next: seq<nat>, prev: seq<nat>, tail: seq<nat>, u: nat)
    requires g.Valid() && ListsOk(g, next, prev, tail) && u < |g.isHead| && g.isHead[u]
    ensures Ring(next, prev, g.circ[u]) && g.circ[u][0] == u && Distinct(g.circ[u])
    ensures forall i :: 0 <= i < |g.circ[u]| ==> g.circ[u][i] < |g.rep|
  {
    assert g.CircleOk(u) && ListOk(next, prev, tail, g.circ, g.isHead, u);
  }

  lemma LiveRing(g: Chains, itNext: seq<nat>, itPrev: seq<nat>, size: seq<nat>, u: nat)
    requires g.Valid() && ItersOk(g, itNext, itPrev, size) && u < |g.rep| && g.isHead[u]
    ensures Live(g.circ[u], size) != [] && Live(g.circ[u], size)[0] == u
  {
    HeadCircle(g, u);
  }

  lemma NextLiveList(g: Chains, itNext: seq<nat>, itPrev: seq<nat>, size: seq<nat>, u: nat, i: nat)
    requires g.Valid() && ItersOk(g, itNext, itPrev, size) && u < |g.rep| && g.isHead[u] && i < |Live(g.circ[u], size)|
    ensures var l := Live(g.circ[u], size);
            l[i] < |itNext| && itNext[l[i]] < |g.isHead|
            && (if i + 1 < |l| then itNext[l[i]] == l[i + 1] && !g.isHead[l[i + 1]] && l[i] != l[i + 1] else g.isHead[itNext[l[i]]])
  {
    var c, l := g.circ[u], Live(g.circ[u], size);
    assert IterAt(g, itNext, itPrev, size, u);
    HeadCircle(g, u);
    NextInRing(itNext, itPrev, l, i);
    if i + 1 < |l| {
      LiveMembers(c, size);
      assert l[i + 1] in l && l[i + 1] in c;
      OnlyHead(g, u, l[i + 1]);
    }
  }

  /** Pointer changes inside the circle of u do not touch the iterator lists of other heads. */
  lemma OthersUntouched(g: Chains, itNext: seq<nat>, itPrev: seq<nat>, itNext': seq<nat>, itPrev': seq<nat>, size: seq<nat>, size': seq<nat>, u: nat)
    requires g.Valid() && OthersOk(g, itNext, itPrev, size, u) && u < |g.rep| && g.isHead[u]
    requires |itNext'| == |itPrev'| == |itNext| && |size'| == |size| && IterAt(g, itNext', itPrev', size', u)
    requires forall w: nat {:trigger SameAt(itNext, itPrev, itNext', itPrev', w)} :: w !in g.circ[u] ==> SameAt(itNext, itPrev, itNext', itPrev', w)
    requires forall w: nat :: w < |size| && w !in g.circ[u] ==> size'[w] == size[w]
    ensures ItersOk(g, itNext', itPrev', size')
  {
    forall h: nat | h < |g.rep| ensures IterAt(g, itNext', itPrev', size', h) {
      if h != u && g.isHead[h] {
        assert IterAt(g, itNext, itPrev, size, h) && g.CircleOk(h);
        CirclesDisjoint(g, h, u);
        forall w: nat | w in g.circ[h] ensures w !in g.circ[u] {}
        assert forall i :: 0 < i < |g.circ[h]| ==> g.circ[h][i] in g.circ[h];
        IterFrame(itNext, itPrev, itNext', itPrev', g.circ[h], size, size');
      }
    }
  }

  /** List i of u shrank; if it is empty now and not the head, it leaves the iterator list. */
  lemma IterRemoval(g: Chains, itNext: seq<nat>, itPrev: seq<nat>, size: seq<nat>, u: nat, i: nat, n: nat)
    requires g.Valid() && ItersOk(g, itNext, itPrev, size) && u < |g.rep| && g.isHead[u]
    requires i < |g.circ[u]| && g.circ[u][i] < |size| && n <= size[g.circ[u][i]]
    ensures n > 0 || i == 0 ==> ItersOk(g, itNext, itPrev, size[g.circ[u][i] := n])
    ensures n == 0 && i > 0 ==>
              var w := g.circ[u][i];
              && itPrev[w] < |itNext| && itNext[w] < |itPrev| && (itPrev[w] == w <==> itNext[w] == w)
              && ItersOk(g, NextCut(itNext, itPrev, w, w), PrevCut(itNext, itPrev, w, w), size[w := n])
  {
    var c, w, size' := g.circ[u], g.circ[u][i], size[g.circ[u][i] := n];
    assert IterAt(g, itNext, itPrev, size, u) && g.CircleOk(u) && w in c;
    if n == 0 && i > 0 {
      Unlinked(itNext, itPrev, c, size, i);
      var next', prev' := NextCut(itNext, itPrev, w, w), PrevCut(itNext, itPrev, w, w);
      forall x: nat | x !in c ensures SameAt(itNext, itPrev, next', prev', x) {}
      OthersUntouched(g, itNext, itPrev, next', prev', size, size', u);
    } else {
      forall x: nat ensures SameAt(itNext, itPrev, itNext, itPrev, x) {}
      IterFrame(itNext, itPrev, itNext, itPrev, c, size, size');
      OthersUntouched(g, itNext, itPrev, itNext, itPrev, size, size', u);
    }
  }

  /** Joining the iterator lists of u and v; v leaves the joined list again if it is empty. */
  lemma IterAppended(g: Chains, itNext: seq<nat>, itPrev: seq<nat>, size: seq<nat>, u: nat, v: nat)
    requires g.Valid() && ItersOk(g, itNext, itPrev, size) && u < |g.rep| && v < |g.rep| && u != v && g.isHead[u] && g.isHead[v]
    ensures itPrev[u] < |itNext| && itPrev[v] < |itNext|
    ensures var n, p := NextAppended(itNext, itPrev, u, v), PrevAppended(itPrev, u, v);
            && (size[v] > 0 ==> ItersOk(Appended(g, u, v), n, p, size))
            && (size[v] == 0 ==> p[v] < |n| && n[v] < |p| && (p[v] == v <==> n[v] == v)
                                 && ItersOk(Appended(g, u, v), NextCut(n, p, v, v), PrevCut(n, p, v, v), size))
  {
    var g' := Appended(g, u, v);
    IterJoined(g, itNext, itPrev, size, u, v);
    var n, p, size1 := NextAppended(itNext, itPrev, u, v), PrevAppended(itPrev, u, v), size[v := size[v] + 1];
    OthersAppended(g, itNext, itPrev, n, p, size, size1, u, v);
    AppendedValid(g, u, v);
    assert g'.circ[u][|g.circ[u]|] == v;
    IterRemoval(g', n, p, size1, u, |g.circ[u]|, size[v]);
    assert size1[v := size[v]] == size;
  }

  lemma IterJoined(g: Chains, itNext: seq<nat>, itPrev: seq<nat>, size: seq<nat>, u: nat, v: nat)
    requires g.Valid() && ItersOk(g, itNext, itPrev, size) && u < |g.rep| && v < |g.rep| && u != v && g.isHead[u] && g.isHead[v]
    ensures itPrev[u] < |itNext| && itPrev[v] < |itNext| && itPrev[u] in g.circ[u] && itPrev[v] in g.circ[v]
    ensures g.circ[u] != [] && g.circ[v] != [] && g.circ[v][0] == v
    ensures IterOk(NextAppended(itNext, itPrev, u, v), PrevAppended(itPrev, u, v), g.circ[u] + g.circ[v], size[v := size[v] + 1])
  {
    assert IterAt(g, itNext, itPrev, size, u) && IterAt(g, itNext, itPrev, size, v);
    TwoCircles(g, u, v);
    Joined(itNext, itPrev, g.circ[u], g.circ[v], size, u, v);
  }

  lemma TwoCircles(g: Chains, u: nat, v: nat)
    requires g.Valid() && u < |g.rep| && v < |g.rep| && u != v && g.isHead[u] && g.isHead[v]
    ensures g.circ[u] != [] && g.circ[v] != [] && g.circ[u][0] == u && g.circ[v][0] == v && Distinct(g.circ[u] + g.circ[v])
  {
    assert g.CircleOk(u) && g.CircleOk(v);
    CirclesDisjoint(g, u, v);
    BothDistinct(g.circ[u], g.circ[v]);
  }

  lemma BothDistinct(c: seq<nat>, d: seq<nat>)
    requires Distinct(c) && Distinct(d) && Disjoint(c, d)
    ensures Distinct(c + d)
  {
  }

  lemma OthersAppended(g: Chains, itNext: seq<nat>, itPrev: seq<nat>, n: seq<nat>, p: seq<nat>, size: seq<nat>, size1: seq<nat>, u: nat, v: nat)
    requires g.Valid() && ItersOk(g, itNext, itPrev, size) && u < |g.rep| && v < |g.rep| && u != v && g.isHead[u] && g.isHead[v]
    requires itPrev[u] < |itNext| && itPrev[v] < |itNext| && itPrev[u] in g.circ[u] && itPrev[v] in g.circ[v]
    requires n == NextAppended(itNext, itPrev, u, v) && p == PrevAppended(itPrev, u, v) && size1 == size[v := size[v] + 1]
    requires IterOk(n, p, g.circ[u] + g.circ[v], size1)
    ensures ItersOk(Appended(g, u, v), n, p, size1)
  {
    var g' := Appended(g, u, v);
    forall h: nat | h < |g'.rep| ensures IterAt(g', n, p, size1, h) {
      if h != u && h != v && g.isHead[h] {
        assert IterAt(g, itNext, itPrev, size, h);
        HeadCircle(g, h);
        HeadCircle(g, u);
        HeadCircle(g, v);
        NotInCircle(g, h, u, u);
        NotInCircle(g, h, u, itPrev[u]);
        NotInCircle(g, h, v, v);
        NotInCircle(g, h, v, itPrev[v]);
        OtherIter(itNext, itPrev, g.circ[h], size, u, v);
      }
    }
  }

  lemma OtherIter(itNext: seq<nat>, itPrev: seq<nat>, c: seq<nat>, size: seq<nat>, u: nat, v: nat)
    requires IterOk(itNext, itPrev, c, size) && c != [] && Distinct(c) && |itNext| == |itPrev|
    requires u < |itPrev| && v < |itPrev| && v < |size| && itPrev[u] < |itNext| && itPrev[v] < |itNext|
    requires u !in c && v !in c && itPrev[u] !in c && itPrev[v] !in c
    ensures IterOk(NextAppended(itNext, itPrev, u, v), PrevAppended(itPrev, u, v), c, size[v := size[v] + 1])
  {
    var n, p := NextAppended(itNext, itPrev, u, v), PrevAppended(itPrev, u, v);
    forall w: nat | w in c ensures SameAt(itNext, itPrev, n, p, w) {}
    forall i | 0 < i < |c| ensures c[i] != v { assert c[i] in c; }
    assert |n| == |itNext| && |p| == |itPrev|;
    hide NextAppended, PrevAppended, IterOk;
    IterFrame(itNext, itPrev, n, p, c, size, size[v := size[v] + 1]);
  }

  /** The iterator lists after the circle of v was cut out of the circle of u. */
  lemma IterSplice(g: Chains, itNext: seq<nat>, itPrev: seq<nat>, size: seq<nat>, u: nat, v: nat, k: nat, before: nat, after: nat)
    requires g.Valid() && ItersOk(g, itNext, itPrev, size) && u < |g.rep| && v < |g.rep| && u != v && g.isHead[u] && g.rep[v] == u
    requires IsSegment(g, u, v, k) && g.circ[v] != [] && g.circ[v][0] == v
    requires before == Predecessor(g.circ[u][..k], size) && after == Successor([u], g.circ[u][k + |g.circ[v]|..], size)
    ensures before < |itNext| && after < |itPrev|
    ensures OthersOk(Spliced(g, u, v, k), itNext[before := after], itPrev[after := before], size, v)
    ensures Coherent(itNext[before := after], itPrev[after := before], g.circ[v])
    ensures SelfLinked(itNext[before := after], itPrev[after := before], g.circ[v], size)
    ensures g.circ[v] != [] ==> SelfLinkedAt(itNext[before := after], itPrev[after := before], g.circ[v], size, 0)
  {
    StretchOfCircle(g, itNext, itPrev, size, u, v, k, before, after);
    OthersSpliced(g, itNext, itPrev, size, u, v, k, before, after);
  }

  lemma StretchOfCircle(g: Chains, itNext: seq<nat>, itPrev: seq<nat>, size: seq<nat>, u: nat, v: nat, k: nat, before: nat, after: nat)
    requires g.Valid() && ItersOk(g, itNext, itPrev, size) && u < |g.rep| && v < |g.rep| && g.isHead[u] && IsSegment(g, u, v, k)
    requires before == Predecessor(g.circ[u][..k], size) && after == Successor([u], g.circ[u][k + |g.circ[v]|..], size)
    ensures before < |itNext| && after < |itPrev| && before in g.circ[u] && after in g.circ[u]
    ensures IterOk(itNext[before := after], itPrev[after := before], Without(g.circ[u], k, k + |g.circ[v]|), size)
    ensures Coherent(itNext[before := after], itPrev[after := before], g.circ[v])
    ensures SelfLinked(itNext[before := after], itPrev[after := before], g.circ[v], size)
    ensures g.circ[v] != [] ==> SelfLinkedAt(itNext[before := after], itPrev[after := before], g.circ[v], size, 0)
  {
    HeadCircle(g, u);
    HeadIter(g, itNext, itPrev, size, u);
    hide *;
    StretchSpliced(itNext, itPrev, g.circ[u], g.circ[v], size, k, u, before, after);
  }

  lemma StretchSpliced(itNext: seq<nat>, itPrev: seq<nat>, c: seq<nat>, d: seq<nat>, size: seq<nat>, k: nat, u: nat, before: nat, after: nat)
    requires IterOk(itNext, itPrev, c, size) && Distinct(c) && 0 < k && k + |d| <= |c| && c[k..k + |d|] == d && c[0] == u
    requires before == Predecessor(c[..k], size) && after == Successor([u], c[k + |d|..], size)
    ensures before < |itNext| && after < |itPrev| && before in c && after in c
    ensures IterOk(itNext[before := after], itPrev[after := before], Without(c, k, k + |d|), size)
    ensures Coherent(itNext[before := after], itPrev[after := before], d)
    ensures SelfLinked(itNext[before := after], itPrev[after := before], d, size)
    ensures d != [] ==> SelfLinkedAt(itNext[before := after], itPrev[after := before], d, size, 0)
  {
    var a, b := c[..k], c[k + |d|..];
    SplitAround(c, d, k);
    IterSpliced(itNext, itPrev, a, d, b, size);
    StretchCoherent(itNext, itPrev, a, d, b, size, before, after);
    DropHead(itNext[before := after], itPrev[after := before], u, d, size);
  }

  lemma SplitAround(c: seq<nat>, d: seq<nat>, k: nat)
    requires 0 < k && k + |d| <= |c| && c[k..k + |d|] == d
    ensures c == c[..k] + (d + c[k + |d|..]) && c[..k] != [] && c[..k][0] == c[0]
    ensures Without(c, k, k + |d|) == c[..k] + c[k + |d|..]
    ensures forall x :: x in c[..k] || x in c[..k] + c[k + |d|..] ==> x in c
  {
  }

  lemma DropHead(itNext: seq<nat>, itPrev: seq<nat>, u: nat, d: seq<nat>, size: seq<nat>)
    requires SelfLinked(itNext, itPrev, [u] + d, size)
    ensures SelfLinked(itNext, itPrev, d, size)
    ensures d != [] ==> SelfLinkedAt(itNext, itPrev, d, size, 0)
  {
    var e := [u] + d;
    assert d != [] ==> e[1] == d[0] && SelfLinkedAt(itNext, itPrev, e, size, 1);
    forall i: nat | 0 < i < |d| ensures SelfLinkedAt(itNext, itPrev, d, size, i) {
      assert e[i + 1] == d[i] && SelfLinkedAt(itNext, itPrev, e, size, i + 1);
    }
  }

  lemma OthersSpliced(g: Chains, itNext: seq<nat>, itPrev: seq<nat>, size: seq<nat>, u: nat, v: nat, k: nat, before: nat, after: nat)
    requires g.Valid() && ItersOk(g, itNext, itPrev, size) && u < |g.rep| && v < |g.rep| && u != v && g.isHead[u]
    requires k + |g.circ[v]| <= |g.circ[u]| && g.circ[v] != []
    requires before < |itNext| && after < |itPrev| && before in g.circ[u] && after in g.circ[u]
    requires IterOk(itNext[before := after], itPrev[after := before], Without(g.circ[u], k, k + |g.circ[v]|), size)
    ensures OthersOk(Spliced(g, u, v, k), itNext[before := after], itPrev[after := before], size, v)
  {
    hide IterOk, ItersOk, OthersOk, Without, AllReturned;
    OthersKept(g, Spliced(g, u, v, k), itNext, itPrev, size, u, v, before, after);
  }

  lemma OthersKept(g: Chains, g': Chains, itNext: seq<nat>, itPrev: seq<nat>, size: seq<nat>, u: nat, v: nat, before: nat, after: nat)
    requires g.Valid() && ItersOk(g, itNext, itPrev, size) && u < |g.rep| && v < |g.rep| && g.isHead[u]
    requires before < |itNext| && after < |itPrev| && before in g.circ[u] && after in g.circ[u]
    requires |g'.rep| == |g.rep| && g'.isHead == g.isHead[v := true] && |g'.circ| == |g.circ|
    requires forall h: nat :: h < |g.circ| && h != u ==> g'.circ[h] == g.circ[h]
    requires IterOk(itNext[before := after], itPrev[after := before], g'.circ[u], size)
    ensures OthersOk(g', itNext[before := after], itPrev[after := before], size, v)
  {
    var n, p := itNext[before := after], itPrev[after := before];
    forall h: nat | h < |g.rep| && h != v ensures IterAt(g', n, p, size, h) {
      if h != u && g.isHead[h] {
        assert IterAt(g, itNext, itPrev, size, h);
        HeadCircle(g, h);
        NotInCircle(g, h, u, before);
        NotInCircle(g, h, u, after);
        KeptIter(itNext, itPrev, g.circ[h], size, before, after);
      }
    }
  }

  lemma KeptIter(itNext: seq<nat>, itPrev: seq<nat>, c: seq<nat>, size: seq<nat>, before: nat, after: nat)
    requires IterOk(itNext, itPrev, c, size) && c != [] && Distinct(c) && before < |itNext| == |itPrev| && after < |itPrev|
    requires before !in c && after !in c
    ensures IterOk(itNext[before := after], itPrev[after := before], c, size)
  {
    var n, p := itNext[before := after], itPrev[after := before];
    forall w: nat | w in c ensures SameAt(itNext, itPrev, n, p, w) {}
    IterFrame(itNext, itPrev, n, p, c, size, size);
  }

  // ---------- Linking a circle anew ----------

  ghost predicate InRange(itNext: seq<nat>, itPrev: seq<nat>, n: nat) {
    |itNext| == |itPrev| == n && forall w :: 0 <= w < n ==> itNext[w] < n && itPrev[w] < n
  }

  /** The pointers after list w was linked between `last` and the head u. */
  function NextLinked(itNext: seq<nat>, u: nat, last: nat, w: nat): (r: seq<nat>)
    requires last < |itNext| && w < |itNext|
    ensures |r| == |itNext|
  {
    itNext[last := w][w := u]
  }

  function PrevLinked(itPrev: seq<nat>, u: nat, last: nat, w: nat): (r: seq<nat>)
    requires u < |itPrev| && w < |itPrev|
    ensures |r| == |itPrev|
  {
    itPrev[w := last][u := w]
  }

  /** The lists l form a ring, no other pointer changed. */
  ghost predicate LinkedAnew(itNext0: seq<nat>, itPrev0: seq<nat>, itNext: seq<nat>, itPrev: seq<nat>, l: seq<nat>) {
    && |itNext0| == |itPrev0| == |itNext| && Ring(itNext, itPrev, l)
    && forall w: nat {:trigger SameAt(itNext0, itPrev0, itNext, itPrev, w)} :: w !in l ==> SameAt(itNext0, itPrev0, itNext, itPrev, w)
  }

  /** The state of the relinking loop after the first i lists of c; `last` is the last one that was linked. */
  ghost predicate RingUpTo(itNext0: seq<nat>, itPrev0: seq<nat>, itNext: seq<nat>, itPrev: seq<nat>, c: seq<nat>, size: seq<nat>, i: nat, last: nat) {
    && i <= |c| && c != []
    && if i == 0 then itNext == itNext0 && itPrev == itPrev0 && last == c[0]
       else LinkedAnew(itNext0, itPrev0, itNext, itPrev, Live(c[..i], size)) && last == Predecessor(c[..i], size)
  }

  lemma NothingLinked(itNext: seq<nat>, itPrev: seq<nat>, c: seq<nat>, size: seq<nat>)
    requires c != []
    ensures RingUpTo(itNext, itPrev, itNext, itPrev, c, size, 0, c[0])
  {
  }

  lemma RingStarts(itNext: seq<nat>, itPrev: seq<nat>, c: seq<nat>, size: seq<nat>)
    requires c != [] && c[0] < |itNext| == |itPrev|
    ensures RingUpTo(itNext, itPrev, NextLinked(itNext, c[0], c[0], c[0]), PrevLinked(itPrev, c[0], c[0], c[0]), c, size, 1, c[0])
    ensures SelfLinkedAt(itNext, itPrev, c, size, 0) && size[c[0]] == 0 ==> RingUpTo(itNext, itPrev, itNext, itPrev, c, size, 1, c[0])
  {
    assert c[..1] == [c[0]] && [c[0]][1..] == [];
    assert Live(c[..1], size) == [c[0]];
    var n, p := NextLinked(itNext, c[0], c[0], c[0]), PrevLinked(itPrev, c[0], c[0], c[0]);
    forall w: nat | w !in [c[0]] ensures SameAt(itNext, itPrev, n, p, w) && SameAt(itNext, itPrev, itNext, itPrev, w) {}
  }

  lemma RingSkips(itNext0: seq<nat>, itPrev0: seq<nat>, itNext: seq<nat>, itPrev: seq<nat>, c: seq<nat>, size: seq<nat>, i: nat, last: nat)
    requires RingUpTo(itNext0, itPrev0, itNext, itPrev, c, size, i, last) && 0 < i < |c| && c[i] < |size| && size[c[i]] == 0
    ensures RingUpTo(itNext0, itPrev0, itNext, itPrev, c, size, i + 1, last)
  {
    EmptyLive(c, size, i);
  }

  lemma RingGrows(itNext: seq<nat>, itPrev: seq<nat>, l: seq<nat>, w: nat)
    requires Ring(itNext, itPrev, l) && w !in l && w < |itNext|
    ensures Ring(NextLinked(itNext, l[0], l[|l| - 1], w), PrevLinked(itPrev, l[0], l[|l| - 1], w), l + [w])
  {
    var u, last, l' := l[0], l[|l| - 1], l + [w];
    var n, p := NextLinked(itNext, u, last, w), PrevLinked(itPrev, u, last, w);
    forall i, j | 0 <= i && j == i + 1 && j < |l'| ensures n[l'[i]] == l'[j] && p[l'[j]] == l'[i] {
      if j < |l| {
        assert itNext[l[i]] == l[j] && l[i] in l && l[j] in l && l[i] != last && l[j] != u;
      }
    }
  }

  lemma RingExtends(itNext0: seq<nat>, itPrev0: seq<nat>, itNext: seq<nat>, itPrev: seq<nat>, c: seq<nat>, size: seq<nat>, i: nat, last: nat)
    requires RingUpTo(itNext0, itPrev0, itNext, itPrev, c, size, i, last) && Distinct(c)
    requires 0 < i < |c| && c[i] < |size| && size[c[i]] > 0 && c[i] < |itNext|
    ensures last < |itNext| && c[0] < |itPrev| == |itNext|
    ensures RingUpTo(itNext0, itPrev0, NextLinked(itNext, c[0], last, c[i]), PrevLinked(itPrev, c[0], last, c[i]), c, size, i + 1, c[i])
  {
    var l, w := Live(c[..i], size), c[i];
    NextLive(c, size, i);
    assert c[..i][0] == c[0];
    RingGrows(itNext, itPrev, l, w);
    var n, p := NextLinked(itNext, c[0], last, w), PrevLinked(itPrev, c[0], last, w);
    forall x: nat | x !in l + [w] ensures SameAt(itNext0, itPrev0, n, p, x) {
      assert x !in l && x != w && l[0] in l && SameAt(itNext0, itPrev0, itNext, itPrev, x);
    }
  }

  /** One list further: it is linked if it is not empty, the head in any case. */
  lemma RingStep(itNext0: seq<nat>, itPrev0: seq<nat>, itNext: seq<nat>, itPrev: seq<nat>, c: seq<nat>, size: seq<nat>, i: nat, last: nat, w: nat)
    requires RingUpTo(itNext0, itPrev0, itNext, itPrev, c, size, i, last) && Distinct(c)
    requires i < |c| && c[i] == w && w < |size| && w < |itNext| == |itPrev| && c[0] < |itNext|
    ensures last < |itNext|
    ensures size[w] > 0 || i == 0 ==>
              RingUpTo(itNext0, itPrev0, NextLinked(itNext, c[0], last, w), PrevLinked(itPrev, c[0], last, w), c, size, i + 1, w)
    ensures size[w] == 0 && (i > 0 || SelfLinkedAt(itNext0, itPrev0, c, size, 0)) ==> RingUpTo(itNext0, itPrev0, itNext, itPrev, c, size, i + 1, last)
  {
    hide NextLinked, PrevLinked, LinkedAnew, SelfLinkedAt;
    if i == 0 {
      RingStarts(itNext0, itPrev0, c, size);
    } else if size[w] > 0 {
      RingExtends(itNext0, itPrev0, itNext, itPrev, c, size, i, last);
    } else {
      RingSkips(itNext0, itPrev0, itNext, itPrev, c, size, i, last);
      LastInRange(itNext0, itPrev0, itNext, itPrev, c, size, i, last);
    }
  }

  lemma LastInRange(itNext0: seq<nat>, itPrev0: seq<nat>, itNext: seq<nat>, itPrev: seq<nat>, c: seq<nat>, size: seq<nat>, i: nat, last: nat)
    requires RingUpTo(itNext0, itPrev0, itNext, itPrev, c, size, i, last) && 0 < i
    ensures last < |itNext|
  {
  }

  lemma RingEnds(itNext0: seq<nat>, itPrev0: seq<nat>, itNext: seq<nat>, itPrev: seq<nat>, c: seq<nat>, size: seq<nat>, last: nat)
    requires RingUpTo(itNext0, itPrev0, itNext, itPrev, c, size, |c|, last) && Distinct(c)
    ensures |itNext| == |itPrev| == |itNext0| == |itPrev0|
    ensures forall w: nat {:trigger SameAt(itNext0, itPrev0, itNext, itPrev, w)} ::
              w !in c || (w != c[0] && w < |size| && size[w] == 0) ==> SameAt(itNext0, itPrev0, itNext, itPrev, w)
    ensures SelfLinked(itNext0, itPrev0, c, size) ==> IterOk(itNext, itPrev, c, size)
  {
    assert c[..|c|] == c;
    LiveMembers(c, size);
    if SelfLinked(itNext0, itPrev0, c, size) {
      forall i: nat | 0 < i < |c| ensures SelfLinkedAt(itNext, itPrev, c, size, i) {
        assert SelfLinkedAt(itNext0, itPrev0, c, size, i) && c[i] != c[0];
        if size[c[i]] == 0 { assert SameAt(itNext0, itPrev0, itNext, itPrev, c[i]); }
      }
    }
  }

  /** Lists were refilled: the pointers are still right exactly if none of them was empty. */
  lemma StillRight(itNext: seq<nat>, itPrev: seq<nat>, c: seq<nat>, size0: seq<nat>, size: seq<nat>)
    requires IterOk(itNext, itPrev, c, size0) && Distinct(c) && c != [] && |size0| == |size|
    requires forall i :: 0 <= i < |c| ==> c[i] < |size| && size0[c[i]] <= size[c[i]]
    ensures IterOk(itNext, itPrev, c, size) <==> forall i :: 0 < i < |c| && size[c[i]] > 0 ==> size0[c[i]] > 0
  {
    if forall i :: 0 < i < |c| && size[c[i]] > 0 ==> size0[c[i]] > 0 {
      forall w: nat ensures SameAt(itNext, itPrev, itNext, itPrev, w) {}
      IterFrame(itNext, itPrev, itNext, itPrev, c, size0, size);
    } else {
      var i: nat :| 0 < i < |c| && size[c[i]] > 0 && size0[c[i]] == 0;
      LeftOut(itNext, itPrev, c, size0, size, i);
    }
  }

  lemma LeftOut(itNext: seq<nat>, itPrev: seq<nat>, c: seq<nat>, size0: seq<nat>, size: seq<nat>, i: nat)
    requires SelfLinked(itNext, itPrev, c, size0) && Distinct(c) && 0 < i < |c| && c[i] < |size| && size[c[i]] > 0
    requires c[i] < |size0| && size0[c[i]] == 0
    ensures !Ring(itNext, itPrev, Live(c, size))
  {
    var l, w := Live(c, size), c[i];
    assert SelfLinkedAt(itNext, itPrev, c, size0, i);
    LiveMembers(c, size);
    assert w in l && l[0] == c[0] && c[0] != w;
    var k: nat :| k < |l| && l[k] == w;
    if Ring(itNext, itPrev, l) { NotItself(itNext, itPrev, l, k); }
  }

  lemma NotItself(next: seq<nat>, prev: seq<nat>, c: seq<nat>, k: nat)
    requires Ring(next, prev, c) && k < |c| && |c| > 1
    ensures c[k] < |next| && next[c[k]] != c[k]
  {
    NextInRing(next, prev, c, k);
  }

  lemma LinkedInRange(itNext: seq<nat>, itPrev: seq<nat>, n: nat, u: nat, last: nat, w: nat)
    requires InRange(itNext, itPrev, n) && u < n && last < n && w < n
    ensures InRange(NextLinked(itNext, u, last, w), PrevLinked(itPrev, u, last, w), n)
  {
  }

  // ---------- All circles ----------

  /** Every empty list that does not head its circle points to itself. */
  ghost predicate EmptiesLinked(g: Chains, itNext: seq<nat>, itPrev: seq<nat>, size: seq<nat>, n: nat) {
    forall w: nat {:trigger EmptyLinked(g, itNext, itPrev, size, w)} :: w < n ==> EmptyLinked(g, itNext, itPrev, size, w)
  }

  ghost predicate EmptyLinked(g: Chains, itNext: seq<nat>, itPrev: seq<nat>, size: seq<nat>, w: nat) {
    w < |g.isHead| && w < |itNext| == |itPrev| && w < |size| && !g.isHead[w] && size[w] == 0 ==> itNext[w] == w && itPrev[w] == w
  }

  /** List w was emptied and points to itself, unless it is a head. */
  lemma OneMoreEmpty(g: Chains, itNext: seq<nat>, itPrev: seq<nat>, itNext': seq<nat>, itPrev': seq<nat>, size: seq<nat>, size': seq<nat>, w: nat)
    requires EmptiesLinked(g, itNext, itPrev, size, w) && |itNext| == |itPrev| == |itNext'| == |itPrev'| && |size| == |size'|
    requires forall x: nat :: x < |itNext| && x != w ==> itNext'[x] == itNext[x] && itPrev'[x] == itPrev[x]
    requires forall x: nat :: x < |size| && x != w ==> size'[x] == size[x]
    requires EmptyLinked(g, itNext', itPrev', size', w)
    ensures EmptiesLinked(g, itNext', itPrev', size', w + 1)
  {
    forall x: nat | x < w + 1 ensures EmptyLinked(g, itNext', itPrev', size', x) {
      assert x < w ==> EmptyLinked(g, itNext, itPrev, size, x);
    }
  }

  lemma CircleSelfLinked(g: Chains, itNext: seq<nat>, itPrev: seq<nat>, size: seq<nat>, u: nat)
    requires g.Valid() && u < |g.rep| && g.isHead[u] && |itNext| == |itPrev| == |size| == |g.rep| && EmptiesLinked(g, itNext, itPrev, size, |g.rep|)
    ensures SelfLinked(itNext, itPrev, g.circ[u], size)
  {
    var c := g.circ[u];
    assert g.CircleOk(u);
    forall i: nat | 0 < i < |c| ensures SelfLinkedAt(itNext, itPrev, c, size, i) {
      assert c[i] in c && c[i] != c[0];
      OnlyHead(g, u, c[i]);
      assert EmptyLinked(g, itNext, itPrev, size, c[i]);
    }
  }

  lemma SelfLinkedFrame(itNext: seq<nat>, itPrev: seq<nat>, itNext': seq<nat>, itPrev': seq<nat>, c: seq<nat>, size: seq<nat>)
    requires SelfLinked(itNext, itPrev, c, size) && |itNext| == |itPrev| == |itNext'| == |itPrev'|
    requires forall w: nat {:trigger SameAt(itNext, itPrev, itNext', itPrev', w)} :: w in c ==> SameAt(itNext, itPrev, itNext', itPrev', w)
    ensures SelfLinked(itNext', itPrev', c, size)
  {
    forall i: nat | 0 < i < |c| ensures SelfLinkedAt(itNext', itPrev', c, size, i) {
      assert SelfLinkedAt(itNext, itPrev, c, size, i) && c[i] in c && SameAt(itNext, itPrev, itNext', itPrev', c[i]);
    }
  }

  /** The iterator lists of the heads below n are right. */
  ghost predicate HeadsLinked(g: Chains, itNext: seq<nat>, itPrev: seq<nat>, size: seq<nat>, n: nat)
    requires |g.isHead| == |g.circ|
  {
    forall h: nat {:trigger IterAt(g, itNext, itPrev, size, h)} :: h < |g.isHead| && h < n ==> IterAt(g, itNext, itPrev, size, h)
  }

  lemma HeadSkipped(g: Chains, itNext: seq<nat>, itPrev: seq<nat>, size: seq<nat>, u: nat)
    requires |g.isHead| == |g.circ| && HeadsLinked(g, itNext, itPrev, size, u) && (u < |g.isHead| ==> !g.isHead[u])
    ensures HeadsLinked(g, itNext, itPrev, size, u + 1)
  {
  }

  lemma PointersInRange(itNext: seq<nat>, itPrev: seq<nat>, n: nat)
    requires InRange(itNext, itPrev, n)
    ensures |itNext| == |itPrev| == n
  {
  }

  /** One more head was linked. */
  lemma OneMoreHead(g: Chains, itNext: seq<nat>, itPrev: seq<nat>, itNext': seq<nat>, itPrev': seq<nat>, size: seq<nat>, u: nat)
    requires g.Valid() && u < |g.rep| && g.isHead[u] && |itNext| == |itPrev| == |itNext'| == |itPrev'| == |size| == |g.rep|
    requires EmptiesLinked(g, itNext, itPrev, size, |g.rep|) && HeadsLinked(g, itNext, itPrev, size, u)
    requires IterOk(itNext', itPrev', g.circ[u], size)
    requires forall w: nat {:trigger SameAt(itNext, itPrev, itNext', itPrev', w)} ::
               w !in g.circ[u] || (w != u && w < |size| && size[w] == 0) ==> SameAt(itNext, itPrev, itNext', itPrev', w)
    ensures EmptiesLinked(g, itNext', itPrev', size, |g.rep|) && HeadsLinked(g, itNext', itPrev', size, u + 1)
  {
    forall w: nat | w < |g.rep| ensures EmptyLinked(g, itNext', itPrev', size, w) {
      assert EmptyLinked(g, itNext, itPrev, size, w);
      if !g.isHead[w] && size[w] == 0 { assert SameAt(itNext, itPrev, itNext', itPrev', w); }
    }
    forall h: nat | h < u + 1 && h < |g.rep| ensures IterAt(g, itNext', itPrev', size, h) {
      if h < u && g.isHead[h] {
        assert IterAt(g, itNext, itPrev, size, h);
        OtherCircle(g, itNext, itPrev, itNext', itPrev', size, u, h);
      }
    }
  }

  lemma OtherCircle(g: Chains, itNext: seq<nat>, itPrev: seq<nat>, itNext': seq<nat>, itPrev': seq<nat>, size: seq<nat>, u: nat, h: nat)
    requires g.Valid() && u < |g.rep| && h < |g.rep| && u != h && g.isHead[u] && g.isHead[h] && IterOk(itNext, itPrev, g.circ[h], size)
    requires |itNext| == |itPrev| == |itNext'| == |itPrev'|
    requires forall w: nat {:trigger SameAt(itNext, itPrev, itNext', itPrev', w)} :: w !in g.circ[u] ==> SameAt(itNext, itPrev, itNext', itPrev', w)
    ensures IterOk(itNext', itPrev', g.circ[h], size)
  {
    HeadCircle(g, h);
    forall w: nat | w in g.circ[h] ensures SameAt(itNext, itPrev, itNext', itPrev', w) {
      if w in g.circ[u] { NotInCircle(g, h, u, w); }
    }
    IterFrame(itNext, itPrev, itNext', itPrev', g.circ[h], size, size);
  }
}
