/** The iterator list of a circle.

    It links the head and all non-empty lists in the order of the circle. */
module LiveLists {
  import opened Rings

  /** The non-empty lists of c, in order. */
  function Filled(c: seq<nat>, size: seq<nat>): seq<nat> {
    if c == [] then []
    else
      var w := c[|c| - 1];
      Filled(c[..|c| - 1], size) + if w < |size| && size[w] > 0 then [w] else []
  }

  /** What the iterator has to visit: the head, even if it is empty, and the non-empty lists. */
  function Live(c: seq<nat>, size: seq<nat>): (r: seq<nat>)
    ensures c != [] ==> r != [] && r[0] == c[0]
  {
    if c == [] then [] else [c[0]] + Filled(c[1..], size)
  }

  lemma {:induction false} FilledAppend(a: seq<nat>, b: seq<nat>, size: seq<nat>)
    ensures Filled(a + b, size) == Filled(a, size) + Filled(b, size)
    decreases |b|
  {
    if b == [] {
      assert a + b == a;
    } else {
      var b' := b[..|b| - 1];
      assert (a + b)[..|a + b| - 1] == a + b';
      FilledAppend(a, b', size);
    }
  }

  lemma LiveAppend(a: seq<nat>, b: seq<nat>, size: seq<nat>)
    requires a != []
    ensures Live(a + b, size) == Live(a, size) + Filled(b, size)
  {
    assert (a + b)[1..] == a[1..] + b;
    FilledAppend(a[1..], b, size);
  }

  lemma {:induction false} FilledMembers(c: seq<nat>, size: seq<nat>)
    requires Distinct(c)
    ensures forall w: nat :: w in Filled(c, size) <==> w in c && w < |size| && size[w] > 0
    ensures Distinct(Filled(c, size))
  {
    if c != [] {
      FilledMembers(c[..|c| - 1], size);
      assert c == c[..|c| - 1] + [c[|c| - 1]];
      assert c[|c| - 1] !in c[..|c| - 1];
    }
  }

  lemma LiveMembers(c: seq<nat>, size: seq<nat>)
    requires Distinct(c) && c != []
    ensures forall w: nat :: w in Live(c, size) <==> w == c[0] || (w in c && w < |size| && size[w] > 0)
    ensures Distinct(Live(c, size))
  {
    assert c == [c[0]] + c[1..];
    FilledMembers(c[1..], size);
    assert c[0] !in c[1..];
  }

  lemma {:induction false} FilledFrame(c: seq<nat>, size: seq<nat>, size': seq<nat>)
    requires |size| == |size'| && forall w: nat :: w in c && w < |size| ==> (size[w] > 0 <==> size'[w] > 0)
    ensures Filled(c, size) == Filled(c, size')
  {
    if c != [] {
      FilledFrame(c[..|c| - 1], size, size');
    }
  }

  lemma LiveFrame(c: seq<nat>, size: seq<nat>, size': seq<nat>)
    requires |size| == |size'| && forall i :: 0 < i < |c| && c[i] < |size| ==> (size[c[i]] > 0 <==> size'[c[i]] > 0)
    ensures Live(c, size) == Live(c, size')
  {
    if c != [] {
      FilledFrame(c[1..], size, size');
    }
  }

  /** The iterator pointers of the circle c: the live lists form a ring, all others point to themselves. */
  ghost predicate IterOk(itNext: seq<nat>, itPrev: seq<nat>, c: seq<nat>, size: seq<nat>) {
    && Ring(itNext, itPrev, Live(c, size))
    && SelfLinked(itNext, itPrev, c, size)
  }

  ghost predicate SelfLinked(itNext: seq<nat>, itPrev: seq<nat>, c: seq<nat>, size: seq<nat>) {
    forall i: nat {:trigger SelfLinkedAt(itNext, itPrev, c, size, i)} :: 0 < i < |c| ==> SelfLinkedAt(itNext, itPrev, c, size, i)
  }

  ghost predicate SelfLinkedAt(itNext: seq<nat>, itPrev: seq<nat>, c: seq<nat>, size: seq<nat>, i: nat)
    requires i < |c|
  {
    c[i] < |size| && c[i] < |itNext| == |itPrev| && (size[c[i]] == 0 ==> itNext[c[i]] == c[i] && itPrev[c[i]] == c[i])
  }

  ghost predicate SameAt(itNext: seq<nat>, itPrev: seq<nat>, itNext': seq<nat>, itPrev': seq<nat>, w: nat) {
    w < |itNext| == |itPrev| == |itNext'| == |itPrev'| ==> itNext'[w] == itNext[w] && itPrev'[w] == itPrev[w]
  }

  /** Pointers of a circle do not depend on what happens elsewhere. */
  lemma IterFrame(itNext: seq<nat>, itPrev: seq<nat>, itNext': seq<nat>, itPrev': seq<nat>, c: seq<nat>, size: seq<nat>, size': seq<nat>)
    requires IterOk(itNext, itPrev, c, size) && c != [] && Distinct(c) && |itNext'| == |itPrev'| == |itNext| && |size'| == |size|
    requires forall w: nat {:trigger SameAt(itNext, itPrev, itNext', itPrev', w)} :: w in c ==> SameAt(itNext, itPrev, itNext', itPrev', w)
    requires forall i :: 0 < i < |c| && c[i] < |size| ==> (size[c[i]] > 0 <==> size'[c[i]] > 0)
    ensures IterOk(itNext', itPrev', c, size')
  {
    LiveFrame(c, size, size');
    LiveMembers(c, size);
    LiveStays(itNext, itPrev, itNext', itPrev', Live(c, size));
    forall i: nat | 0 < i < |c| ensures SelfLinkedAt(itNext', itPrev', c, size', i) {
      assert SelfLinkedAt(itNext, itPrev, c, size, i) && c[i] in c;
      assert SameAt(itNext, itPrev, itNext', itPrev', c[i]);
    }
  }

  lemma LiveStays(itNext: seq<nat>, itPrev: seq<nat>, itNext': seq<nat>, itPrev': seq<nat>, l: seq<nat>)
    requires Ring(itNext, itPrev, l) && |itNext'| == |itPrev'| == |itNext|
    requires forall w: nat {:trigger SameAt(itNext, itPrev, itNext', itPrev', w)} :: w in l ==> SameAt(itNext, itPrev, itNext', itPrev', w)
    ensures Ring(itNext', itPrev', l)
  {
    forall i | 0 <= i < |l| ensures itNext'[l[i]] == itNext[l[i]] && itPrev'[l[i]] == itPrev[l[i]] {
      assert l[i] in l && SameAt(itNext, itPrev, itNext', itPrev', l[i]);
    }
    RingFrame(itNext, itPrev, itNext', itPrev', l);
  }

  // ---------- A list becomes empty ----------

  function IfFilled(w: nat, size: seq<nat>): seq<nat> {
    if w < |size| && size[w] > 0 then [w] else []
  }

  lemma FilledFirst(w: nat, b: seq<nat>, size: seq<nat>)
    ensures Filled([w] + b, size) == IfFilled(w, size) + Filled(b, size)
  {
    FilledAppend([w], b, size);
    assert [w][..0] == [];
  }

  lemma LiveAround(c: seq<nat>, size: seq<nat>, i: nat)
    requires 0 < i < |c|
    ensures Live(c, size) == Live(c[..i], size) + (IfFilled(c[i], size) + Filled(c[i + 1..], size))
  {
    var b := [c[i]] + c[i + 1..];
    LiveAppend(c[..i], b, size);
    assert c == c[..i] + b;
    FilledFirst(c[i], c[i + 1..], size);
  }

  lemma LiveWithoutOne(c: seq<nat>, size: seq<nat>, size': seq<nat>, i: nat)
    requires Distinct(c) && 0 < i < |c| && c[i] < |size| && size' == size[c[i] := 0]
    ensures 0 < |Live(c[..i], size)| <= |Live(c, size)|
    ensures size[c[i]] == 0 ==> Live(c, size') == Live(c, size)
    ensures var p := |Live(c[..i], size)|;
            size[c[i]] > 0 ==> p < |Live(c, size)| && Live(c, size)[p] == c[i] && Live(c, size') == Without(Live(c, size), p, p + 1)
  {
    var a, b := c[..i], c[i + 1..];
    LiveAround(c, size, i);
    LiveAround(c, size', i);
    assert c[i] !in a && c[i] !in b;
    LiveFrame(a, size, size');
    FilledFrame(b, size, size');
  }

  /** Taking an emptied list out of the iterator list. */
  lemma Unlinked(itNext: seq<nat>, itPrev: seq<nat>, c: seq<nat>, size: seq<nat>, i: nat)
    requires IterOk(itNext, itPrev, c, size) && Distinct(c) && 0 < i < |c| && c[i] < |size|
    ensures var w := c[i]; w < |itNext| && itPrev[w] < |itNext| && itNext[w] < |itPrev|
    ensures itPrev[c[i]] in c && itNext[c[i]] in c && (itPrev[c[i]] == c[i] <==> itNext[c[i]] == c[i])
    ensures IterOk(NextCut(itNext, itPrev, c[i], c[i]), PrevCut(itNext, itPrev, c[i], c[i]), c, size[c[i] := 0])
  {
    var w, l, size' := c[i], Live(c, size), size[c[i] := 0];
    assert SelfLinkedAt(itNext, itPrev, c, size, i);
    LiveWithoutOne(c, size, size', i);
    LiveMembers(c, size);
    var p := |Live(c[..i], size)|;
    if size[w] > 0 {
      CutOne(itNext, itPrev, l, p, w);
    }
    UnlinkedSelf(itNext, itPrev, c, size, i);
  }

  lemma UnlinkedSelf(itNext: seq<nat>, itPrev: seq<nat>, c: seq<nat>, size: seq<nat>, i: nat)
    requires SelfLinked(itNext, itPrev, c, size) && Distinct(c) && 0 < i < |c| && c[i] < |size| && c[i] < |itNext| == |itPrev|
    requires var p, n := itPrev[c[i]], itNext[c[i]];
             p < |itNext| && n < |itPrev| && (p == c[i] <==> n == c[i])
             && (p == c[0] || p == c[i] || (p < |size| && size[p] > 0)) && (n == c[0] || n == c[i] || (n < |size| && size[n] > 0))
    ensures SelfLinked(NextCut(itNext, itPrev, c[i], c[i]), PrevCut(itNext, itPrev, c[i], c[i]), c, size[c[i] := 0])
  {
    var w, size' := c[i], size[c[i] := 0];
    var n, q := NextCut(itNext, itPrev, w, w), PrevCut(itNext, itPrev, w, w);
    forall j: nat | 0 < j < |c| ensures SelfLinkedAt(n, q, c, size', j) {
      assert SelfLinkedAt(itNext, itPrev, c, size, j) && c[j] != c[0];
    }
  }

  // ---------- Two circles are joined ----------

  lemma Joined(itNext: seq<nat>, itPrev: seq<nat>, c: seq<nat>, d: seq<nat>, size: seq<nat>, u: nat, v: nat)
    requires IterOk(itNext, itPrev, c, size) && IterOk(itNext, itPrev, d, size) && Distinct(c + d) && c != [] && d != []
    requires c[0] == u && d[0] == v && v < |size|
    ensures u < |itPrev| && v < |itPrev| && itPrev[u] < |itNext| && itPrev[v] < |itNext| && itPrev[u] in c && itPrev[v] in d
    ensures IterOk(NextAppended(itNext, itPrev, u, v), PrevAppended(itPrev, u, v), c + d, size[v := size[v] + 1])
  {
    var size1 := size[v := size[v] + 1];
    var l, m := Live(c, size), Live(d, size);
    PartsDistinct(c, d);
    LiveMembers(c, size);
    LiveMembers(d, size);
    forall i, j | 0 <= i < |l| && 0 <= j < |m| ensures l[i] != m[j] {
      assert l[i] in l && m[j] in m;
    }
    AppendedIsRing(itNext, itPrev, l, m);
    assert l[|l| - 1] in l && m[|m| - 1] in m;
    JoinedLive(c, d, size, size1);
    assert itPrev[u] in l && itPrev[v] in m;
    JoinedSelf(itNext, itPrev, c, d, size, itPrev[u], itPrev[v]);
  }

  lemma JoinedSelf(itNext: seq<nat>, itPrev: seq<nat>, c: seq<nat>, d: seq<nat>, size: seq<nat>, p: nat, q: nat)
    requires SelfLinked(itNext, itPrev, c, size) && SelfLinked(itNext, itPrev, d, size) && Distinct(c + d) && c != [] && d != []
    requires |itNext| == |itPrev| && c[0] < |itPrev| && d[0] < |itPrev| && d[0] < |size| && p == itPrev[c[0]] < |itNext| && q == itPrev[d[0]] < |itNext|
    requires p in c && (p == c[0] || (p < |size| && size[p] > 0)) && q in d && (q == d[0] || (q < |size| && size[q] > 0))
    ensures SelfLinked(NextAppended(itNext, itPrev, c[0], d[0]), PrevAppended(itPrev, c[0], d[0]), c + d, size[d[0] := size[d[0]] + 1])
  {
    var e, n, r, size1 := c + d, NextAppended(itNext, itPrev, c[0], d[0]), PrevAppended(itPrev, c[0], d[0]), size[d[0] := size[d[0]] + 1];
    PartsDistinct(c, d);
    forall i: nat | 0 < i < |e| ensures SelfLinkedAt(n, r, e, size1, i) {
      if i < |c| {
        assert SelfLinkedAt(itNext, itPrev, c, size, i) && e[i] == c[i] && c[i] in c && e[i] != e[0];
      } else if i > |c| {
        assert SelfLinkedAt(itNext, itPrev, d, size, i - |c|) && e[i] == d[i - |c|] && d[i - |c|] in d && e[|c|] == d[0] && e[i] != e[|c|];
      } else {
        assert e[i] == d[0];
      }
    }
  }

  lemma PartsDistinct(c: seq<nat>, d: seq<nat>)
    requires Distinct(c + d)
    ensures Distinct(c) && Distinct(d) && Disjoint(c, d)
    ensures forall w: nat :: !(w in c && w in d)
  {
    var e := c + d;
    assert forall i :: 0 <= i < |c| ==> e[i] == c[i];
    assert forall j :: 0 <= j < |d| ==> e[|c| + j] == d[j];
    forall i, j | 0 <= i < |c| && 0 <= j < |d| ensures c[i] != d[j] {
      assert e[i] != e[|c| + j];
    }
  }

  lemma JoinedLive(c: seq<nat>, d: seq<nat>, size: seq<nat>, size1: seq<nat>)
    requires Distinct(c + d) && c != [] && d != [] && d[0] < |size| && size1 == size[d[0] := size[d[0]] + 1]
    ensures Live(c + d, size1) == Live(c, size) + Live(d, size)
  {
    var t := d[1..];
    PartsDistinct(c, d);
    assert d == [d[0]] + t;
    PartsDistinct([d[0]], t);
    LiveAppend(c, d, size1);
    FilledFirst(d[0], t, size1);
    assert d[0] in d && d[0] !in c && d[0] in [d[0]] && d[0] !in t;
    forall i | 0 < i < |c| ensures c[i] != d[0] { assert c[i] in c; }
    LiveFrame(c, size, size1);
    FilledFrame(t, size, size1);
    assert Filled(d, size1) == [d[0]] + Filled(t, size);
  }

  // ---------- A circle is cut out ----------

  /** Within c, a list that is the predecessor of another one knows it. */
  ghost predicate Coherent(itNext: seq<nat>, itPrev: seq<nat>, c: seq<nat>) {
    forall x: nat, y: nat {:trigger CoherentAt(itNext, itPrev, x, y)} :: x in c && y in c && x != y ==> CoherentAt(itNext, itPrev, x, y)
  }

  ghost predicate CoherentAt(itNext: seq<nat>, itPrev: seq<nat>, x: nat, y: nat) {
    x < |itNext| && y < |itPrev| ==> (itPrev[y] == x ==> itNext[x] == y)
  }

  function Successor(a: seq<nat>, b: seq<nat>, size: seq<nat>): nat
    requires a != []
  {
    if Filled(b, size) == [] then a[0] else Filled(b, size)[0]
  }

  function Predecessor(a: seq<nat>, size: seq<nat>): nat
    requires a != []
  {
    Live(a, size)[|Live(a, size)| - 1]
  }

  /** The iterator list of what stays behind when the stretch d is cut out of a + d + b. */
  lemma IterSpliced(itNext: seq<nat>, itPrev: seq<nat>, a: seq<nat>, d: seq<nat>, b: seq<nat>, size: seq<nat>)
    requires IterOk(itNext, itPrev, a + (d + b), size) && Distinct(a + (d + b)) && a != []
    ensures var p, n := Predecessor(a, size), Successor(a, b, size); p < |itNext| && n < |itPrev| && p in a && n in a + b
    ensures var p, n := Predecessor(a, size), Successor(a, b, size);
            IterOk(itNext[p := n], itPrev[n := p], a + b, size)
  {
    EndsInRange(a, d, b, size);
    BridgedLive(itNext, itPrev, a, d, b, size);
    SplicedSelf(itNext, itPrev, a, d, b, size, Predecessor(a, size), Successor(a, b, size));
  }

  lemma EndsInRange(a: seq<nat>, d: seq<nat>, b: seq<nat>, size: seq<nat>)
    requires Distinct(a + (d + b)) && a != []
    ensures var p, n := Predecessor(a, size), Successor(a, b, size); p in a && n in a + b
    ensures var p, n := Predecessor(a, size), Successor(a, b, size);
            (p == a[0] || (p < |size| && size[p] > 0)) && (n == a[0] || (n < |size| && size[n] > 0))
  {
    PartsDistinct(a, d + b);
    PartsDistinct(d, b);
    LiveMembers(a, size);
    FilledMembers(b, size);
    var la, fb := Live(a, size), Filled(b, size);
    assert la[|la| - 1] in la && (fb != [] ==> fb[0] in fb);
  }

  lemma BridgedLive(itNext: seq<nat>, itPrev: seq<nat>, a: seq<nat>, d: seq<nat>, b: seq<nat>, size: seq<nat>)
    requires Ring(itNext, itPrev, Live(a + (d + b), size)) && a != []
    ensures var p, n := Predecessor(a, size), Successor(a, b, size);
            p < |itNext| && n < |itPrev| && Ring(itNext[p := n], itPrev[n := p], Live(a + b, size))
  {
    LiveAppend(a, d + b, size);
    FilledAppend(d, b, size);
    LiveAppend(a, b, size);
    BridgedParts(itNext, itPrev, Live(a, size), Filled(d, size), Filled(b, size));
  }

  lemma BridgedParts(next: seq<nat>, prev: seq<nat>, a: seq<nat>, d: seq<nat>, b: seq<nat>)
    requires Ring(next, prev, a + (d + b)) && a != []
    ensures var p, n := a[|a| - 1], if b == [] then a[0] else b[0];
            p < |next| && n < |prev| && Ring(next[p := n], prev[n := p], a + b)
  {
    var l := a + (d + b);
    var p, q := |a|, |a| + |d|;
    assert Without(l, p, q) == a + b;
    assert l[p - 1] == a[|a| - 1] && l[0] == a[0] && (b != [] ==> l[q] == b[0]);
    Bridged(next, prev, l, p, q);
  }

  lemma SplicedSelf(itNext: seq<nat>, itPrev: seq<nat>, a: seq<nat>, d: seq<nat>, b: seq<nat>, size: seq<nat>, p: nat, n: nat)
    requires SelfLinked(itNext, itPrev, a + (d + b), size) && Distinct(a + (d + b)) && a != [] && p < |itNext| == |itPrev| && n < |itPrev|
    requires p == a[0] || (p < |size| && size[p] > 0)
    requires n == a[0] || (n < |size| && size[n] > 0)
    ensures SelfLinked(itNext[p := n], itPrev[n := p], a + b, size)
  {
    var c := a + (d + b);
    var c', next', prev' := a + b, itNext[p := n], itPrev[n := p];
    forall i: nat | 0 < i < |c'| ensures SelfLinkedAt(next', prev', c', size, i) {
      var k := if i < |a| then i else i + |d|;
      assert c'[i] == c[k] && c[k] != c[0];
      assert SelfLinkedAt(itNext, itPrev, c, size, k);
    }
  }

  /** The pointers of the stretch that is cut out stay coherent. */
  lemma StretchCoherent(itNext: seq<nat>, itPrev: seq<nat>, a: seq<nat>, d: seq<nat>, b: seq<nat>, size: seq<nat>, p: nat, n: nat)
    requires IterOk(itNext, itPrev, a + (d + b), size) && Distinct(a + (d + b)) && a != [] && p < |itNext| && n < |itPrev|
    requires p in a && n in a + b
    ensures Coherent(itNext[p := n], itPrev[n := p], d)
    ensures SelfLinked(itNext[p := n], itPrev[n := p], [a[0]] + d, size)
  {
    var c := a + (d + b);
    PartsDistinct(a, d + b);
    PartsDistinct(d, b);
    RingCoherent(itNext, itPrev, c, size);
    forall x: nat, y: nat | x in d && y in d && x != y ensures CoherentAt(itNext[p := n], itPrev[n := p], x, y) {
      assert x in c && y in c;
      assert CoherentAt(itNext, itPrev, x, y);
    }
    var e, next', prev' := [a[0]] + d, itNext[p := n], itPrev[n := p];
    forall i: nat | 0 < i < |e| ensures SelfLinkedAt(next', prev', e, size, i) {
      var k := |a| + (i - 1);
      assert e[i] == d[i - 1] && c[k] == d[i - 1] && d[i - 1] in d;
      assert SelfLinkedAt(itNext, itPrev, c, size, k);
    }
  }

  /** The iterator pointers of a circle are coherent. */
  lemma RingCoherent(itNext: seq<nat>, itPrev: seq<nat>, c: seq<nat>, size: seq<nat>)
    requires IterOk(itNext, itPrev, c, size) && Distinct(c) && c != []
    ensures Coherent(itNext, itPrev, c)
  {
    var l := Live(c, size);
    LiveMembers(c, size);
    forall x: nat, y: nat | x in c && y in c && x != y ensures CoherentAt(itNext, itPrev, x, y) {
      var j :| 0 <= j < |c| && c[j] == y;
      if y in l {
        var k :| 0 <= k < |l| && l[k] == y;
        assert k > 0 ==> itPrev[l[k]] == l[k - 1] && itNext[l[k - 1]] == l[k];
      } else {
        assert j > 0 && SelfLinkedAt(itNext, itPrev, c, size, j);
      }
    }
  }

  /** Searching backwards from position k for a non-empty list or the head finds the predecessor. */
  lemma PredecessorFound(a: seq<nat>, size: seq<nat>, j: nat)
    requires j < |a| && (j == 0 || (a[j] < |size| && size[a[j]] > 0))
    requires forall i :: j < i < |a| ==> a[i] < |size| && size[a[i]] == 0
    ensures Predecessor(a, size) == a[j]
  {
    var h, t := a[..j + 1], a[j + 1..];
    assert a == h + t;
    LiveAppend(h, t, size);
    NothingFilled(t, size);
    if j > 0 {
      LiveAround(h, size, j);
      assert h[j + 1..] == [];
    }
  }

  lemma {:induction false} NothingFilled(t: seq<nat>, size: seq<nat>)
    requires forall i :: 0 <= i < |t| ==> t[i] < |size| && size[t[i]] == 0
    ensures Filled(t, size) == []
  {
    if t != [] {
      NothingFilled(t[..|t| - 1], size);
    }
  }

  /** Searching forwards finds the successor; `j == |b|` means that the head was reached. */
  lemma SuccessorFound(a: seq<nat>, b: seq<nat>, size: seq<nat>, j: nat)
    requires a != [] && j <= |b| && (j < |b| ==> b[j] < |size| && size[b[j]] > 0)
    requires forall i :: 0 <= i < j ==> b[i] < |size| && size[b[i]] == 0
    ensures Successor(a, b, size) == if j == |b| then a[0] else b[j]
  {
    NothingFilled(b[..j], size);
    assert b == b[..j] + b[j..];
    FilledAppend(b[..j], b[j..], size);
    if j < |b| {
      assert b[j..] == [b[j]] + b[j + 1..];
      FilledFirst(b[j], b[j + 1..], size);
    }
  }

  // ---------- Relinking after lists were refilled ----------

  ghost predicate Chain(itNext: seq<nat>, itPrev: seq<nat>, l: seq<nat>) {
    && (forall i :: 0 <= i < |l| ==> l[i] < |itNext| == |itPrev|)
    && (forall i, j :: 0 <= i && j == i + 1 && j < |l| ==> itNext[l[i]] == l[j] && itPrev[l[j]] == l[i])
  }

  /** The lists l are linked; apart from that nothing changed. */
  ghost predicate LinkedUpTo(itNext0: seq<nat>, itPrev0: seq<nat>, itNext: seq<nat>, itPrev: seq<nat>, l: seq<nat>) {
    && |itNext| == |itPrev| == |itNext0| == |itPrev0| && l != [] && Chain(itNext, itPrev, l)
    && itNext[l[|l| - 1]] == itNext0[l[|l| - 1]] && itPrev[l[0]] == itPrev0[l[0]]
    && forall w: nat {:trigger SameAt(itNext0, itPrev0, itNext, itPrev, w)} :: w !in l ==> SameAt(itNext0, itPrev0, itNext, itPrev, w)
  }

  /** The state of the relinking loop after the first i lists of c; `last` is the last live one. */
  ghost predicate RelinkedUpTo(itNext0: seq<nat>, itPrev0: seq<nat>, itNext: seq<nat>, itPrev: seq<nat>, c: seq<nat>, size: seq<nat>, i: nat, last: nat) {
    && 0 < i <= |c| && LinkedUpTo(itNext0, itPrev0, itNext, itPrev, Live(c[..i], size)) && last == Predecessor(c[..i], size)
  }

  lemma RelinkStart(itNext: seq<nat>, itPrev: seq<nat>, c: seq<nat>, size: seq<nat>)
    requires c != [] && c[0] < |itNext| == |itPrev|
    ensures RelinkedUpTo(itNext, itPrev, itNext, itPrev, c, size, 1, c[0])
  {
    assert c[..1] == [c[0]] && [c[0]][1..] == [];
    assert Live(c[..1], size) == [c[0]];
    forall w: nat ensures SameAt(itNext, itPrev, itNext, itPrev, w) {}
  }

  lemma RelinkEmpty(itNext0: seq<nat>, itPrev0: seq<nat>, itNext: seq<nat>, itPrev: seq<nat>, c: seq<nat>, size: seq<nat>, i: nat, last: nat)
    requires RelinkedUpTo(itNext0, itPrev0, itNext, itPrev, c, size, i, last) && i < |c| && c[i] < |size| && size[c[i]] == 0
    ensures RelinkedUpTo(itNext0, itPrev0, itNext, itPrev, c, size, i + 1, last)
  {
    EmptyLive(c, size, i);
  }

  lemma EmptyLive(c: seq<nat>, size: seq<nat>, i: nat)
    requires 0 < i < |c| && c[i] < |size| && size[c[i]] == 0
    ensures Live(c[..i + 1], size) == Live(c[..i], size)
  {
    assert c[..i + 1] == c[..i] + [c[i]];
    LiveAppend(c[..i], [c[i]], size);
    NothingFilled([c[i]], size);
  }

  /** Linking a non-empty list to the last one; nothing is written if its predecessor is right already. */
  lemma RelinkFilled(itNext0: seq<nat>, itPrev0: seq<nat>, itNext: seq<nat>, itPrev: seq<nat>, c: seq<nat>, size: seq<nat>, i: nat, last: nat, w: nat)
    requires RelinkedUpTo(itNext0, itPrev0, itNext, itPrev, c, size, i, last) && Distinct(c) && Coherent(itNext0, itPrev0, c)
    requires i < |c| && c[i] == w && w < |size| && size[w] > 0 && w < |itNext|
    ensures RelinkedUpTo(itNext0, itPrev0, if itPrev[w] != last then itNext[last := w] else itNext, if itPrev[w] != last then itPrev[w := last] else itPrev,
                         c, size, i + 1, w)
  {
    NextLive(c, size, i);
    assert CoherentAt(itNext0, itPrev0, last, w);
    LinkOneMore(itNext0, itPrev0, itNext, itPrev, Live(c[..i], size), last, w);
  }

  lemma LinkOneMore(itNext0: seq<nat>, itPrev0: seq<nat>, itNext: seq<nat>, itPrev: seq<nat>, l: seq<nat>, last: nat, w: nat)
    requires LinkedUpTo(itNext0, itPrev0, itNext, itPrev, l) && last == l[|l| - 1] && Distinct(l) && w !in l && w < |itPrev|
    requires CoherentAt(itNext0, itPrev0, last, w)
    ensures LinkedUpTo(itNext0, itPrev0, if itPrev[w] != last then itNext[last := w] else itNext, if itPrev[w] != last then itPrev[w := last] else itPrev, l + [w])
  {
    var n, p := if itPrev[w] != last then itNext[last := w] else itNext, if itPrev[w] != last then itPrev[w := last] else itPrev;
    assert SameAt(itNext0, itPrev0, itNext, itPrev, w) && last in l && l[0] in l;
    ChainGrows(itNext, itPrev, n, p, l, w);
    OthersSame(itNext0, itPrev0, itNext, itPrev, n, p, l, last, w);
  }

  lemma OthersSame(itNext0: seq<nat>, itPrev0: seq<nat>, itNext: seq<nat>, itPrev: seq<nat>, n: seq<nat>, p: seq<nat>, l: seq<nat>, last: nat, w: nat)
    requires |itNext| == |itPrev| == |itNext0| == |itPrev0| && last in l && last < |itNext| && w < |itPrev|
    requires n == (if itPrev[w] != last then itNext[last := w] else itNext) && p == (if itPrev[w] != last then itPrev[w := last] else itPrev)
    requires forall x: nat {:trigger SameAt(itNext0, itPrev0, itNext, itPrev, x)} :: x !in l ==> SameAt(itNext0, itPrev0, itNext, itPrev, x)
    ensures forall x: nat {:trigger SameAt(itNext0, itPrev0, n, p, x)} :: x !in l + [w] ==> SameAt(itNext0, itPrev0, n, p, x)
  {
    forall x: nat | x !in l + [w] ensures SameAt(itNext0, itPrev0, n, p, x) {
      assert x !in l && x != w && SameAt(itNext0, itPrev0, itNext, itPrev, x);
    }
  }

  lemma NextLive(c: seq<nat>, size: seq<nat>, i: nat)
    requires 0 < i < |c| && Distinct(c) && c[i] < |size| && size[c[i]] > 0
    ensures Live(c[..i + 1], size) == Live(c[..i], size) + [c[i]]
    ensures Distinct(Live(c[..i], size)) && c[i] !in Live(c[..i], size) && c[i] in c
    ensures Predecessor(c[..i], size) in Live(c[..i], size) && Predecessor(c[..i], size) in c && Predecessor(c[..i], size) != c[i]
    ensures Predecessor(c[..i + 1], size) == c[i] && c[0] in Live(c[..i], size)
  {
    var w := c[i];
    assert c[..i + 1] == c[..i] + [w];
    LiveAppend(c[..i], [w], size);
    FilledFirst(w, [], size);
    assert [w] + [] == [w];
    assert c == c[..i] + c[i..];
    PartsDistinct(c[..i], c[i..]);
    assert w in c[i..];
    LiveMembers(c[..i], size);
    assert c[..i][0] == c[0];
    assert Live(c[..i], size)[|Live(c[..i], size)| - 1] in Live(c[..i], size);
  }

  lemma ChainGrows(itNext: seq<nat>, itPrev: seq<nat>, n: seq<nat>, p: seq<nat>, l: seq<nat>, w: nat)
    requires Chain(itNext, itPrev, l) && Distinct(l) && l != [] && w !in l && w < |itNext| == |itPrev|
    requires l[|l| - 1] < |itNext| && (itPrev[w] == l[|l| - 1] ==> itNext[l[|l| - 1]] == w)
    requires n == if itPrev[w] != l[|l| - 1] then itNext[l[|l| - 1] := w] else itNext
    requires p == if itPrev[w] != l[|l| - 1] then itPrev[w := l[|l| - 1]] else itPrev
    ensures Chain(n, p, l + [w])
  {
    var l' := l + [w];
    forall k, m | 0 <= k && m == k + 1 && m < |l'| ensures n[l'[k]] == l'[m] && p[l'[m]] == l'[k] {
      if m < |l| {
        assert itNext[l[k]] == l[m] && l[m] in l && l[k] != l[|l| - 1];
      }
    }
  }

  /** Closing the list at its end. */
  lemma RelinkEnd(itNext0: seq<nat>, itPrev0: seq<nat>, itNext: seq<nat>, itPrev: seq<nat>, c: seq<nat>, size: seq<nat>, last: nat)
    requires RelinkedUpTo(itNext0, itPrev0, itNext, itPrev, c, size, |c|, last) && Distinct(c)
    requires SelfLinked(itNext0, itPrev0, c, size)
    ensures IterOk(itNext[last := c[0]], itPrev[c[0] := last], c, size)
    ensures last in c
  {
    assert c[..|c|] == c;
    LiveMembers(c, size);
    var l := Live(c, size);
    var n, p := itNext[last := c[0]], itPrev[c[0] := last];
    assert last in l;
    forall k, m | 0 <= k && m == k + 1 && m < |l| ensures n[l[k]] == l[m] && p[l[m]] == l[k] {
      assert l[k] != l[|l| - 1] && l[m] != l[0];
    }
    forall i: nat | 0 < i < |c| ensures SelfLinkedAt(n, p, c, size, i) {
      assert SelfLinkedAt(itNext0, itPrev0, c, size, i);
      assert c[i] != c[0];
      if size[c[i]] == 0 { assert SameAt(itNext0, itPrev0, itNext, itPrev, c[i]); }
    }
  }
}
