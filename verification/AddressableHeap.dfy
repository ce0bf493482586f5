/** A d-ary heap whose elements are found through external handles.

    It stands for a map from ids to keys. */
module AddressableHeap {
  import opened Sorting

  /** Value of invalid_position. */
  const INVALID_POSITION: nat := 0xFFFF_FFFF

  datatype HeapElement<K> = HeapElement(key: K, id: nat)

  function Parent(i: nat, arity: nat): (p: nat)
    requires i > 0 && arity > 0
    ensures p < i
  {
    ParentBelow(i - 1, arity);
    (i - 1) / arity
  }

  lemma ParentBelow(i: nat, arity: nat)
    requires arity > 0
    ensures 0 <= i / arity <= i
  {
    assert i == i / arity * arity + i % arity;
    Grows(i / arity, arity);
  }

  lemma Grows(q: nat, arity: nat)
    requires arity > 0
    ensures q * arity >= q
  {
    assert q * arity == q + q * (arity - 1);
    assert q * (arity - 1) >= 0;
  }

  function FirstChild(pos: nat, arity: nat): nat {
    pos * arity + 1
  }

  /** The children of p are the next `arity` positions from p * arity + 1 on. */
  lemma ChildRange(p: nat, c: nat, arity: nat)
    requires c > 0 && arity > 0
    ensures Parent(c, arity) == p <==> p * arity + 1 <= c <= p * arity + arity
  {
    var q := Parent(c, arity);
    assert c - 1 == q * arity + (c - 1) % arity;
    if q < p { assert p * arity >= q * arity + arity by { Grows(p - q - 1, arity); assert p * arity == q * arity + arity + (p - q - 1) * arity; } }
    if p < q { assert q * arity >= p * arity + arity by { Grows(q - p - 1, arity); assert q * arity == p * arity + arity + (q - p - 1) * arity; } }
  }

  // ---------- Heap order ----------

  ghost predicate OrderedAt<K>(h: seq<HeapElement<K>>, comp: (K, K) -> bool, arity: nat, i: nat)
    requires 0 < i < |h| && arity > 0
  {
    !comp(h[Parent(i, arity)].key, h[i].key)
  }

  ghost predicate IsHeap<K>(h: seq<HeapElement<K>>, comp: (K, K) -> bool, arity: nat)
    requires arity > 0
  {
    forall i: nat {:trigger OrderedAt(h, comp, arity, i)} :: 0 < i < |h| ==> OrderedAt(h, comp, arity, i)
  }

  /** c is a child of pos, and does not belong above the parent of pos. */
  ghost predicate GrandchildOk<K>(h: seq<HeapElement<K>>, comp: (K, K) -> bool, arity: nat, pos: nat, c: nat)
    requires 0 < c < |h| && arity > 0 && pos < |h|
  {
    Parent(c, arity) == pos && pos > 0 ==> !comp(h[Parent(pos, arity)].key, h[c].key)
  }

  /** Heap order holds except that the element at pos may have to move up. */
  ghost predicate HeapButUp<K>(h: seq<HeapElement<K>>, comp: (K, K) -> bool, arity: nat, pos: nat)
    requires arity > 0 && pos < |h|
  {
    && (forall i: nat {:trigger OrderedAt(h, comp, arity, i)} :: 0 < i < |h| && i != pos ==> OrderedAt(h, comp, arity, i))
    && (forall c: nat {:trigger GrandchildOk(h, comp, arity, pos, c)} :: 0 < c < |h| ==> GrandchildOk(h, comp, arity, pos, c))
  }

  /** Heap order holds except that the element at pos may have to move down. */
  ghost predicate HeapButDown<K>(h: seq<HeapElement<K>>, comp: (K, K) -> bool, arity: nat, pos: nat)
    requires arity > 0 && pos < |h|
  {
    && (forall i: nat {:trigger OrderedAt(h, comp, arity, i)} :: 0 < i < |h| && Parent(i, arity) != pos ==> OrderedAt(h, comp, arity, i))
    && (forall c: nat {:trigger GrandchildOk(h, comp, arity, pos, c)} :: 0 < c < |h| ==> GrandchildOk(h, comp, arity, pos, c))
  }

  function Swapped<K>(h: seq<HeapElement<K>>, a: nat, b: nat): seq<HeapElement<K>>
    requires a < |h| && b < |h|
  {
    h[a := h[b]][b := h[a]]
  }

  lemma MoveUp<K(!new)>(h: seq<HeapElement<K>>, comp: (K, K) -> bool, arity: nat, pos: nat)
    requires arity > 0 && 0 < pos < |h| && IsOrder(comp) && HeapButUp(h, comp, arity, pos)
    requires comp(h[Parent(pos, arity)].key, h[pos].key)
    ensures HeapButUp(Swapped(h, pos, Parent(pos, arity)), comp, arity, Parent(pos, arity))
  {
    var up := Parent(pos, arity);
    var h' := Swapped(h, pos, up);
    forall i: nat | 0 < i < |h| && i != up ensures OrderedAt(h', comp, arity, i) {
      if i != pos { assert OrderedAt(h, comp, arity, i) && GrandchildOk(h, comp, arity, pos, i); }
    }
    forall c: nat | 0 < c < |h| ensures GrandchildOk(h', comp, arity, up, c) {
      if up > 0 && Parent(c, arity) == up {
        assert OrderedAt(h, comp, arity, up);
        if c != pos { assert OrderedAt(h, comp, arity, c); }
      }
    }
  }

  lemma UpDone<K>(h: seq<HeapElement<K>>, comp: (K, K) -> bool, arity: nat, pos: nat)
    requires arity > 0 && pos < |h| && HeapButUp(h, comp, arity, pos) && (pos > 0 ==> !comp(h[Parent(pos, arity)].key, h[pos].key))
    ensures IsHeap(h, comp, arity)
  {
    forall i: nat | 0 < i < |h| ensures OrderedAt(h, comp, arity, i) {}
  }

  /** c is a child of pos that no other child of pos exceeds. */
  ghost predicate LargestChild<K>(h: seq<HeapElement<K>>, comp: (K, K) -> bool, arity: nat, pos: nat, c: nat)
    requires arity > 0
  {
    && 0 < c < |h| && Parent(c, arity) == pos
    && forall d: nat {:trigger ChildBelow(h, comp, arity, pos, c, d)} :: 0 < d < |h| ==> ChildBelow(h, comp, arity, pos, c, d)
  }

  ghost predicate ChildBelow<K>(h: seq<HeapElement<K>>, comp: (K, K) -> bool, arity: nat, pos: nat, c: nat, d: nat)
    requires arity > 0 && c < |h| && 0 < d < |h|
  {
    Parent(d, arity) == pos ==> !comp(h[c].key, h[d].key)
  }

  lemma MoveDown<K(!new)>(h: seq<HeapElement<K>>, comp: (K, K) -> bool, arity: nat, pos: nat, c: nat)
    requires arity > 0 && pos < |h| && IsOrder(comp) && HeapButDown(h, comp, arity, pos) && LargestChild(h, comp, arity, pos, c)
    requires !comp(h[c].key, h[pos].key)
    ensures HeapButDown(Swapped(h, pos, c), comp, arity, c)
  {
    var h' := Swapped(h, pos, c);
    forall i: nat | 0 < i < |h| && Parent(i, arity) != c ensures OrderedAt(h', comp, arity, i) {
      assert ChildBelow(h, comp, arity, pos, c, i) && GrandchildOk(h, comp, arity, pos, c);
      if Parent(i, arity) != pos { assert OrderedAt(h, comp, arity, i); }
    }
    forall d: nat | 0 < d < |h| ensures GrandchildOk(h', comp, arity, c, d) {
      if Parent(d, arity) == c {
        assert OrderedAt(h, comp, arity, d);
      }
    }
  }

  lemma DownDone<K(!new)>(h: seq<HeapElement<K>>, comp: (K, K) -> bool, arity: nat, pos: nat, c: nat)
    requires arity > 0 && pos < |h| && IsOrder(comp) && HeapButDown(h, comp, arity, pos)
    requires LargestChild(h, comp, arity, pos, c) && !comp(h[pos].key, h[c].key)
    ensures IsHeap(h, comp, arity)
  {
    forall i: nat | 0 < i < |h| ensures OrderedAt(h, comp, arity, i) {
      assert ChildBelow(h, comp, arity, pos, c, i);
      if Parent(i, arity) != pos { assert OrderedAt(h, comp, arity, i); }
    }
  }

  lemma NoChildren<K>(h: seq<HeapElement<K>>, comp: (K, K) -> bool, arity: nat, pos: nat)
    requires arity > 0 && pos < |h| && HeapButDown(h, comp, arity, pos) && FirstChild(pos, arity) >= |h|
    ensures IsHeap(h, comp, arity)
  {
    forall i: nat | 0 < i < |h| ensures OrderedAt(h, comp, arity, i) {
      ChildRange(pos, i, arity);
    }
  }

  /** The element at the root is a maximum. */
  lemma {:induction false} RootIsMaximal<K(!new)>(h: seq<HeapElement<K>>, comp: (K, K) -> bool, arity: nat, i: nat)
    requires arity > 0 && IsOrder(comp) && IsHeap(h, comp, arity) && i < |h|
    ensures !comp(h[0].key, h[i].key)
    decreases i
  {
    if i > 0 {
      assert OrderedAt(h, comp, arity, i);
      RootIsMaximal(h, comp, arity, Parent(i, arity));
    }
  }

  // ---------- Handles and contents ----------

  ghost predicate DistinctIds<K>(h: seq<HeapElement<K>>) {
    forall i, j :: 0 <= i < j < |h| ==> h[i].id != h[j].id
  }

  ghost predicate HandleAt<K>(h: seq<HeapElement<K>>, p: seq<nat>, i: nat)
    requires i < |h|
  {
    h[i].id < |p| && p[h[i].id] == i
  }

  ghost predicate HandlesMatch<K>(h: seq<HeapElement<K>>, p: seq<nat>) {
    forall i: nat {:trigger HandleAt(h, p, i)} :: i < |h| ==> HandleAt(h, p, i)
  }

  /** All handles are right, except perhaps that of the element at pos. */
  ghost predicate HandlesBut<K>(h: seq<HeapElement<K>>, p: seq<nat>, pos: nat) {
    && pos < |h| && h[pos].id < |p|
    && forall i: nat {:trigger HandleAt(h, p, i)} :: i < |h| && i != pos ==> HandleAt(h, p, i)
  }

  lemma HandlesDistinct<K>(h: seq<HeapElement<K>>, p: seq<nat>)
    requires HandlesMatch(h, p)
    ensures DistinctIds(h)
  {
    forall i, j | 0 <= i < j < |h| ensures h[i].id != h[j].id {
      assert HandleAt(h, p, i) && HandleAt(h, p, j);
    }
  }

  ghost predicate InHeap<K>(h: seq<HeapElement<K>>, e: nat) {
    exists i :: 0 <= i < |h| && h[i].id == e
  }

  ghost function Ids<K>(h: seq<HeapElement<K>>): set<nat> {
    set i | 0 <= i < |h| :: h[i].id
  }

  ghost function KeyOf<K>(h: seq<HeapElement<K>>, e: nat): K
    requires InHeap(h, e)
  {
    var i :| 0 <= i < |h| && h[i].id == e;
    h[i].key
  }

  /** What the heap stands for: a key for each of its ids. */
  ghost function Contents<K>(h: seq<HeapElement<K>>): (m: map<nat, K>)
    requires DistinctIds(h)
    ensures forall e: nat {:trigger e in m} :: e in m <==> InHeap(h, e)
    ensures forall i: nat {:trigger h[i]} :: i < |h| ==> h[i].id in m && m[h[i].id] == h[i].key
  {
    map e | e in Ids(h) :: KeyOf(h, e)
  }

  lemma ContentsAre<K>(h: seq<HeapElement<K>>, m: map<nat, K>)
    requires DistinctIds(h) && forall e: nat {:trigger e in m} :: e in m <==> InHeap(h, e)
    requires forall i: nat {:trigger h[i]} :: i < |h| ==> h[i].id in m && m[h[i].id] == h[i].key
    ensures Contents(h) == m
  {
    var c := Contents(h);
    forall e: nat ensures e in c <==> e in m {}
    forall e: nat | e in m ensures c[e] == m[e] {
      var i :| 0 <= i < |h| && h[i].id == e;
    }
    assert c.Keys == m.Keys;
    assert c == m;
  }

  function Image(a: nat, b: nat, i: nat): nat {
    if i == a then b else if i == b then a else i
  }

  lemma SwapIds<K>(h: seq<HeapElement<K>>, a: nat, b: nat)
    requires a < |h| && b < |h| && DistinctIds(h)
    ensures DistinctIds(Swapped(h, a, b)) && forall e: nat :: InHeap(Swapped(h, a, b), e) <==> InHeap(h, e)
  {
    var h' := Swapped(h, a, b);
    forall i: nat | i < |h| ensures h'[i] == h[Image(a, b, i)] && h[i] == h'[Image(a, b, i)] {}
    forall e: nat ensures InHeap(h, e) <==> InHeap(h', e) {
      if InHeap(h, e) {
        var i: nat :| i < |h| && h[i].id == e;
        assert h'[Image(a, b, i)].id == e;
      }
      if InHeap(h', e) {
        var i: nat :| i < |h'| && h'[i].id == e;
        assert h[Image(a, b, i)].id == e;
      }
    }
  }

  lemma SwapKeeps<K>(h: seq<HeapElement<K>>, a: nat, b: nat)
    requires a < |h| && b < |h| && DistinctIds(h)
    ensures DistinctIds(Swapped(h, a, b)) && Contents(Swapped(h, a, b)) == Contents(h)
  {
    var h', m := Swapped(h, a, b), Contents(h);
    SwapIds(h, a, b);
    hide Contents, DistinctIds, InHeap;
    forall i: nat | i < |h'| ensures h'[i].id in m && m[h'[i].id] == h'[i].key {
      assert h'[i] == h[Image(a, b, i)];
    }
    ContentsAre(h', m);
  }

  lemma HandleOf<K>(h: seq<HeapElement<K>>, p: seq<nat>, e: nat)
    requires HandlesMatch(h, p) && InHeap(h, e)
    ensures e < |p| && p[e] < |h| && h[p[e]].id == e
  {
    var i: nat :| i < |h| && h[i].id == e;
    assert HandleAt(h, p, i);
  }

  /** Only handles of the given ids have changed. */
  ghost predicate OthersKept(p: seq<nat>, p': seq<nat>, ids: set<nat>) {
    |p'| == |p| && forall e: nat {:trigger p'[e]} :: e < |p| && e !in ids ==> p'[e] == p[e]
  }

  /** While the element at pos moves: heap h with handles p comes from handles p0 and contents m. */
  ghost predicate Sifting<K(!new)>(h: seq<HeapElement<K>>, p: seq<nat>, pos: nat, m: map<nat, K>, p0: seq<nat>) {
    DistinctIds(h) && HandlesBut(h, p, pos) && Contents(h) == m && OthersKept(p0, p, m.Keys)
  }

  lemma SiftingStarts<K(!new)>(h: seq<HeapElement<K>>, p: seq<nat>, pos: nat)
    requires HandlesMatch(h, p) && pos < |h|
    ensures DistinctIds(h) && Sifting(h, p, pos, Contents(h), p)
  {
    HandlesDistinct(h, p);
    assert HandleAt(h, p, pos);
  }

  /** The element at pos changes places with the one at q, whose handle is corrected. */
  lemma SiftingStep<K(!new)>(h: seq<HeapElement<K>>, p: seq<nat>, pos: nat, q: nat, m: map<nat, K>, p0: seq<nat>)
    requires Sifting(h, p, pos, m, p0) && q < |h| && q != pos
    ensures h[q].id < |p| && Sifting(Swapped(h, pos, q), p[h[q].id := pos], q, m, p0)
  {
    assert HandleAt(h, p, q);
    var h', p' := Swapped(h, pos, q), p[h[q].id := pos];
    SwapKeeps(h, pos, q);
    forall i: nat | i < |h'| && i != q ensures HandleAt(h', p', i) {
      if i != pos { assert HandleAt(h, p, i); }
    }
    assert h[q].id in m;
  }

  lemma SiftingEnds<K(!new)>(h: seq<HeapElement<K>>, p: seq<nat>, pos: nat, m: map<nat, K>, p0: seq<nat>)
    requires Sifting(h, p, pos, m, p0)
    ensures h[pos].id < |p| && HandlesMatch(h, p[h[pos].id := pos]) && OthersKept(p0, p[h[pos].id := pos], m.Keys)
  {
    var p' := p[h[pos].id := pos];
    forall i: nat | i < |h| ensures HandleAt(h, p', i) {
      if i != pos { assert HandleAt(h, p, i); }
    }
    assert h[pos].id in m;
  }

  // ---------- Single changes ----------

  lemma ElementAppended<K(!new)>(h: seq<HeapElement<K>>, p: seq<nat>, comp: (K, K) -> bool, arity: nat, e: nat, k: K)
    requires arity > 0 && HandlesMatch(h, p) && IsHeap(h, comp, arity) && e < |p| && !InHeap(h, e)
    ensures var h', p' := h + [HeapElement(k, e)], p[e := |h|];
            && HandlesMatch(h', p') && HeapButUp(h', comp, arity, |h|)
            && DistinctIds(h) && DistinctIds(h') && Contents(h') == Contents(h)[e := k]
  {
    var h', p' := h + [HeapElement(k, e)], p[e := |h|];
    HandlesDistinct(h, p);
    forall i: nat | i < |h'| ensures HandleAt(h', p', i) {
      if i < |h| {
        assert HandleAt(h, p, i);
        assert h'[i] == h[i];
      }
    }
    HandlesDistinct(h', p');
    forall i: nat | 0 < i < |h'| && i != |h| ensures OrderedAt(h', comp, arity, i) {
      assert OrderedAt(h, comp, arity, i);
    }
    forall c: nat | 0 < c < |h'| ensures GrandchildOk(h', comp, arity, |h|, c) {}
    var m := Contents(h)[e := k];
    forall x: nat ensures x in m <==> InHeap(h', x) {
      if InHeap(h, x) {
        var i :| 0 <= i < |h| && h[i].id == x;
        assert h'[i].id == x;
      }
      assert h'[|h|].id == e;
    }
    forall i: nat | i < |h'| ensures h'[i].id in m && m[h'[i].id] == h'[i].key {
      if i < |h| { assert h'[i] == h[i] && h[i].id in Contents(h); }
    }
    ContentsAre(h', m);
  }

  /** Another key at pos: the element has to move in one direction at most. */
  lemma KeyChanged<K(!new)>(h: seq<HeapElement<K>>, p: seq<nat>, comp: (K, K) -> bool, arity: nat, pos: nat, k: K)
    requires arity > 0 && HandlesMatch(h, p) && IsHeap(h, comp, arity) && IsOrder(comp) && pos < |h|
    ensures var h' := h[pos := HeapElement(k, h[pos].id)];
            && HandlesMatch(h', p) && DistinctIds(h) && DistinctIds(h') && Contents(h') == Contents(h)[h[pos].id := k]
    ensures !comp(k, h[pos].key) ==> HeapButUp(h[pos := HeapElement(k, h[pos].id)], comp, arity, pos)
    ensures !comp(h[pos].key, k) ==> HeapButDown(h[pos := HeapElement(k, h[pos].id)], comp, arity, pos)
  {
    var h' := h[pos := HeapElement(k, h[pos].id)];
    HandlesDistinct(h, p);
    forall i: nat | i < |h'| ensures HandleAt(h', p, i) {
      assert HandleAt(h, p, i);
    }
    HandlesDistinct(h', p);
    OrderReplaced(h, comp, arity, pos, HeapElement(k, h[pos].id));
    var m := Contents(h)[h[pos].id := k];
    forall x: nat ensures x in m <==> InHeap(h', x) {
      if InHeap(h, x) {
        var i :| 0 <= i < |h| && h[i].id == x;
        assert h'[i].id == x;
      }
      if InHeap(h', x) {
        var i :| 0 <= i < |h'| && h'[i].id == x;
        assert h[i].id == x;
      }
      assert h'[pos].id == h[pos].id;
    }
    ContentsAre(h', m);
  }

  lemma OrderReplaced<K(!new)>(h: seq<HeapElement<K>>, comp: (K, K) -> bool, arity: nat, pos: nat, x: HeapElement<K>)
    requires arity > 0 && IsHeap(h, comp, arity) && IsOrder(comp) && pos < |h|
    ensures !comp(x.key, h[pos].key) ==> HeapButUp(h[pos := x], comp, arity, pos)
    ensures !comp(h[pos].key, x.key) ==> HeapButDown(h[pos := x], comp, arity, pos)
  {
    var h' := h[pos := x];
    forall c: nat | 0 < c < |h| ensures GrandchildOk(h', comp, arity, pos, c) {
      assert OrderedAt(h, comp, arity, c);
      if Parent(c, arity) == pos && pos > 0 { assert OrderedAt(h, comp, arity, pos); }
    }
    forall i: nat | 0 < i < |h|
      ensures !comp(x.key, h[pos].key) && i != pos ==> OrderedAt(h', comp, arity, i)
      ensures !comp(h[pos].key, x.key) && Parent(i, arity) != pos ==> OrderedAt(h', comp, arity, i)
    {
      assert OrderedAt(h, comp, arity, i);
    }
  }

  /** The last element takes the place of the one at pos, which leaves the heap. */
  function WithoutAt<K>(h: seq<HeapElement<K>>, pos: nat): seq<HeapElement<K>>
    requires pos < |h|
    ensures |WithoutAt(h, pos)| == |h| - 1
  {
    h[pos := h[|h| - 1]][..|h| - 1]
  }

  lemma HandlesWithout<K(!new)>(h: seq<HeapElement<K>>, p: seq<nat>, p': seq<nat>, pos: nat)
    requires HandlesMatch(h, p) && pos < |h| && OthersKept(p, p', {h[pos].id, h[|h| - 1].id})
    requires pos < |h| - 1 && h[|h| - 1].id < |p'| ==> p'[h[|h| - 1].id] == pos
    ensures HandlesMatch(WithoutAt(h, pos), p')
  {
    var last, h' := |h| - 1, WithoutAt(h, pos);
    assert HandleAt(h, p, last) && HandleAt(h, p, pos);
    forall i: nat | i < |h'| ensures HandleAt(h', p', i) {
      assert HandleAt(h, p, i);
    }
  }

  lemma IdsWithout<K(!new)>(h: seq<HeapElement<K>>, pos: nat, e: nat)
    requires DistinctIds(h) && pos < |h|
    ensures InHeap(WithoutAt(h, pos), e) <==> InHeap(h, e) && e != h[pos].id
  {
    var last, h' := |h| - 1, WithoutAt(h, pos);
    if InHeap(h, e) && e != h[pos].id {
      var i: nat :| i < |h| && h[i].id == e;
      assert h'[if i == last then pos else i].id == e;
    }
    if InHeap(h', e) {
      var i: nat :| i < |h'| && h'[i].id == e;
      assert h[if i == pos then last else i].id == e;
    }
  }

  lemma ContentsWithout<K(!new)>(h: seq<HeapElement<K>>, pos: nat)
    requires DistinctIds(h) && pos < |h|
    ensures DistinctIds(WithoutAt(h, pos)) && Contents(WithoutAt(h, pos)) == Contents(h) - {h[pos].id}
  {
    var last, h', m := |h| - 1, WithoutAt(h, pos), Contents(h) - {h[pos].id};
    forall i: nat | i < |h'| ensures h'[i] == h[if i == pos then last else i] {}
    assert forall i: nat :: i < |h'| ==> h'[i].id != h[pos].id;
    hide Contents, InHeap, WithoutAt;
    forall e: nat ensures e in m <==> InHeap(h', e) {
      IdsWithout(h, pos, e);
    }
    ContentsAre(h', m);
  }

  lemma OrderWithout<K(!new)>(h: seq<HeapElement<K>>, comp: (K, K) -> bool, arity: nat, pos: nat)
    requires arity > 0 && IsHeap(h, comp, arity) && IsOrder(comp) && pos < |h|
    ensures pos == |h| - 1 ==> IsHeap(WithoutAt(h, pos), comp, arity)
    ensures pos < |h| - 1 && !comp(h[|h| - 1].key, h[pos].key) ==> HeapButUp(WithoutAt(h, pos), comp, arity, pos)
    ensures pos < |h| - 1 && !comp(h[pos].key, h[|h| - 1].key) ==> HeapButDown(WithoutAt(h, pos), comp, arity, pos)
  {
    var last, h', full := |h| - 1, WithoutAt(h, pos), h[pos := h[|h| - 1]];
    OrderReplaced(h, comp, arity, pos, h[last]);
    forall i: nat | 0 < i < last
      ensures OrderedAt(full, comp, arity, i) ==> OrderedAt(h', comp, arity, i)
      ensures GrandchildOk(full, comp, arity, pos, i) && pos < last ==> GrandchildOk(h', comp, arity, pos, i)
    {
    }
    if pos == last {
      forall i: nat | 0 < i < last ensures OrderedAt(h', comp, arity, i) {
        assert OrderedAt(h, comp, arity, i);
      }
    }
  }

  lemma TakeOutReady<K(!new)>(h: seq<HeapElement<K>>, p: seq<nat>, comp: (K, K) -> bool, arity: nat, pos: nat)
    requires HandlesMatch(h, p) && pos < |h|
    ensures DistinctIds(h) && h[pos].id < |p| && h[|h| - 1].id < |p| && h[pos].id in Contents(h) && h[|h| - 1].id in Contents(h)
  {
    HandlesDistinct(h, p);
    assert HandleAt(h, p, |h| - 1) && HandleAt(h, p, pos);
  }

  lemma TakenOut<K(!new)>(h: seq<HeapElement<K>>, p: seq<nat>, p': seq<nat>, comp: (K, K) -> bool, arity: nat, pos: nat)
    requires arity > 0 && HandlesMatch(h, p) && IsHeap(h, comp, arity) && IsOrder(comp) && pos < |h|
    requires |p'| == |p| && h[|h| - 1].id < |p| && h[pos].id < |p|
    requires forall e: nat :: e < |p| && e != h[pos].id && e != h[|h| - 1].id ==> p'[e] == p[e]
    requires pos < |h| - 1 ==> p'[h[|h| - 1].id] == pos
    ensures DistinctIds(h) && OthersKept(p, p', Contents(h).Keys) && HandlesMatch(WithoutAt(h, pos), p')
    ensures DistinctIds(WithoutAt(h, pos)) && Contents(WithoutAt(h, pos)) == Contents(h) - {h[pos].id}
    ensures pos == |h| - 1 ==> IsHeap(WithoutAt(h, pos), comp, arity)
    ensures pos < |h| - 1 && comp(h[pos].key, h[|h| - 1].key) ==> HeapButUp(WithoutAt(h, pos), comp, arity, pos)
    ensures pos < |h| - 1 && !comp(h[pos].key, h[|h| - 1].key) ==> HeapButDown(WithoutAt(h, pos), comp, arity, pos)
  {
    TakeOutReady(h, p, comp, arity, pos);
    HandlesWithout(h, p, p', pos);
    ContentsWithout(h, pos);
    OrderWithout(h, comp, arity, pos);
    assert OthersKept(p, p', Contents(h).Keys);
  }

  lemma LastIsOther<K(!new)>(h: seq<HeapElement<K>>, pos: nat)
    requires DistinctIds(h) && pos < |h|
    ensures h[pos].id == h[|h| - 1].id ==> pos == |h| - 1
  {
  }

  lemma OthersAllKept(p: seq<nat>, ids: set<nat>)
    ensures OthersKept(p, p, ids)
  {
  }

  lemma SiftingIs<K(!new)>(h: seq<HeapElement<K>>, p: seq<nat>, pos: nat, m: map<nat, K>, p0: seq<nat>)
    requires Sifting(h, p, pos, m, p0)
    ensures DistinctIds(h) && Contents(h) == m
  {
  }

  lemma NotBelow<K(!new)>(comp: (K, K) -> bool, child: K, k: K)
    requires IsOrder(comp) && (comp(child, k) || child == k)
    ensures !comp(k, child)
  {
  }

  lemma ChildrenSearched<K(!new)>(h: seq<HeapElement<K>>, comp: (K, K) -> bool, arity: nat, pos: nat, first: nat, end: nat, c: nat)
    requires arity > 0 && first == FirstChild(pos, arity) && first <= c < end <= |h| && end <= first + arity
    requires end == |h| || end == first + arity
    requires forall d :: first <= d < end ==> !comp(h[c].key, h[d].key)
    ensures LargestChild(h, comp, arity, pos, c)
  {
    ChildRange(pos, c, arity);
    forall d: nat | 0 < d < |h| ensures ChildBelow(h, comp, arity, pos, c, d) {
      ChildRange(pos, d, arity);
    }
  }

  lemma SameChildren<K(!new)>(h: seq<HeapElement<K>>, comp: (K, K) -> bool, arity: nat, pos: nat, c: nat, x: HeapElement<K>)
    requires arity > 0 && pos < |h| && LargestChild(h, comp, arity, pos, c)
    ensures LargestChild(h[pos := x], comp, arity, pos, c) && c != pos && c < |h| && h[pos := x][c] == h[c] && pos < c
  {
    var h' := h[pos := x];
    forall d: nat | 0 < d < |h'| ensures ChildBelow(h', comp, arity, pos, c, d) {
      assert ChildBelow(h, comp, arity, pos, c, d);
    }
  }

  class Heap<K(==, !new)> {
    const comp: (K, K) -> bool
    const arity: nat
    var heap: seq<HeapElement<K>>
    var positions: array<nat>

    constructor (comp: (K, K) -> bool, arity: nat, positions: array<nat>)
      requires arity > 1 && IsOrder(comp)
      ensures Valid() && this.positions == positions && this.comp == comp && this.arity == arity && M() == map[]
    {
      this.comp, this.arity, heap, this.positions := comp, arity, [], positions;
    }

    ghost predicate Valid()
      reads this, positions
    {
      arity > 1 && IsOrder(comp) && HandlesMatch(heap, positions[..]) && IsHeap(heap, comp, arity)
    }

    /** The key of every id in the heap. */
    ghost function M(): map<nat, K>
      reads this, positions
      requires Valid()
    {
      HandlesDistinct(heap, positions[..]);
      Contents(heap)
    }

    /** Right whatever the handles of ids outside the heap are. */
    method Contains(e: nat) returns (b: bool)
      requires Valid() && e < positions.Length
      ensures b <==> e in M()
    {
      b := positions[e] < |heap| && heap[positions[e]].id == e;
      HandlesDistinct(heap, positions[..]);
      if e in M() {
        var i: nat :| i < |heap| && heap[i].id == e;
        assert HandleAt(heap, positions[..], i);
      }
    }

    method GetKey(e: nat) returns (key: K)
      requires Valid() && e in M()
      ensures key == M()[e]
    {
      HandleOf(heap, positions[..], e);
      key := heap[positions[e]].key;
    }

    method Top() returns (id: nat, key: K)
      requires Valid() && heap != []
      ensures id in M() && M()[id] == key
      ensures forall e: nat :: e in M() ==> !comp(key, M()[e])
    {
      id, key := heap[0].id, heap[0].key;
      HandlesDistinct(heap, positions[..]);
      assert heap[0].id in M();
      forall e: nat | e in M() ensures !comp(key, M()[e]) {
        var i :| 0 <= i < |heap| && heap[i].id == e;
        RootIsMaximal(heap, comp, arity, i);
      }
    }

    /** Moves the element at q to pos, where x belonged, and corrects its handle. */
    method MoveTo(pos: nat, q: nat, ghost x: HeapElement<K>, ghost m: map<nat, K>, ghost p0: seq<nat>)
      requires pos < |heap| && q < |heap| && q != pos && Sifting(heap[pos := x], positions[..], pos, m, p0)
      modifies `heap, positions
      ensures |heap| == |old(heap)| && heap[q := x] == Swapped(old(heap)[pos := x], pos, q)
      ensures Sifting(heap[q := x], positions[..], q, m, p0)
    {
      ghost var h, p := heap[pos := x], positions[..];
      SiftingStep(h, p, pos, q, m, p0);
      hide Sifting;
      positions[heap[q].id] := pos;
      heap := heap[pos := heap[q]];
      assert heap[q := x] == Swapped(h, pos, q) && positions[..] == p[h[q].id := pos];
    }

    /** Puts x at pos and corrects its handle. */
    method Place(pos: nat, x: HeapElement<K>, ghost m: map<nat, K>, ghost p0: seq<nat>)
      requires pos < |heap| && Sifting(heap[pos := x], positions[..], pos, m, p0)
      modifies `heap, positions
      ensures heap == old(heap)[pos := x] && HandlesMatch(heap, positions[..])
      ensures DistinctIds(heap) && Contents(heap) == m && OthersKept(p0, positions[..], m.Keys)
    {
      SiftingEnds(heap[pos := x], positions[..], pos, m, p0);
      SiftingIs(heap[pos := x], positions[..], pos, m, p0);
      hide Sifting, Contents, DistinctIds, OthersKept, HandlesMatch;
      ghost var p := positions[..];
      positions[x.id] := pos;
      heap := heap[pos := x];
      assert positions[..] == p[x.id := pos];
    }

    method SiftUp(start: nat)
      requires arity > 1 && IsOrder(comp) && start < |heap| && HandlesMatch(heap, positions[..]) && HeapButUp(heap, comp, arity, start)
      modifies `heap, positions
      ensures Valid() && DistinctIds(old(heap)) && M() == Contents(old(heap)) && OthersKept(old(positions[..]), positions[..], M().Keys)
    {
      SiftingStarts(heap, positions[..], start);
      ghost var m, p0 := Contents(heap), positions[..];
      hide IsOrder, HeapButUp, HandlesMatch, Sifting, Contents, DistinctIds, OthersKept, IsHeap;
      var x, pos: nat := heap[start], start;
      assert heap[pos := x] == heap;
      while pos > 0 && comp(heap[Parent(pos, arity)].key, x.key)
        invariant pos < |heap| && Sifting(heap[pos := x], positions[..], pos, m, p0) && HeapButUp(heap[pos := x], comp, arity, pos)
      {
        var parentPos := Parent(pos, arity);
        MoveUp(heap[pos := x], comp, arity, pos);
        MoveTo(pos, parentPos, x, m, p0);
        pos := parentPos;
      }
      UpDone(heap[pos := x], comp, arity, pos);
      Place(pos, x, m, p0);
    }

    /** The child of pos with the largest key. */
    method FindLargestChild(pos: nat) returns (largestChild: nat)
      requires arity > 1 && IsOrder(comp) && FirstChild(pos, arity) < |heap|
      ensures LargestChild(heap, comp, arity, pos, largestChild)
    {
      var first := FirstChild(pos, arity);
      largestChild := first;
      if arity > 2 {
        var firstInvalid := if |heap| < FirstChild(pos + 1, arity) then |heap| else FirstChild(pos + 1, arity);
        assert FirstChild(pos + 1, arity) == first + arity;
        for c := first + 1 to firstInvalid
          invariant first <= largestChild < c && forall d :: first <= d < c ==> !comp(heap[largestChild].key, heap[d].key)
        {
          if comp(heap[largestChild].key, heap[c].key) {
            largestChild := c;
          }
        }
        ChildrenSearched(heap, comp, arity, pos, first, firstInvalid, largestChild);
      } else {
        var second := if first + 1 < |heap| - 1 then first + 1 else |heap| - 1;
        if comp(heap[first].key, heap[second].key) {
          largestChild := second;
        }
        ChildrenSearched(heap, comp, arity, pos, first, second + 1, largestChild);
      }
    }

    method SiftDown(start: nat)
      requires arity > 1 && IsOrder(comp) && start < |heap| && HandlesMatch(heap, positions[..]) && HeapButDown(heap, comp, arity, start)
      modifies `heap, positions
      ensures Valid() && DistinctIds(old(heap)) && M() == Contents(old(heap)) && OthersKept(old(positions[..]), positions[..], M().Keys)
    {
      SiftingStarts(heap, positions[..], start);
      ghost var m, p0 := Contents(heap), positions[..];
      OthersAllKept(p0, m.Keys);
      hide HeapButDown, HandlesMatch, Sifting, Contents, DistinctIds, OthersKept, IsHeap, LargestChild, IsOrder, FirstChild;
      var x, pos: nat := heap[start], start;
      assert heap[pos := x] == heap;
      ghost var done := false;
      while FirstChild(pos, arity) < |heap|
        invariant pos < |heap| && Sifting(heap[pos := x], positions[..], pos, m, p0) && HeapButDown(heap[pos := x], comp, arity, pos)
        invariant start <= pos && (pos == start ==> heap == old(heap) && positions[..] == p0)
        decreases |heap| - pos
      {
        var largestChild := FindLargestChild(pos);
        SameChildren(heap, comp, arity, pos, largestChild, x);
        if comp(heap[largestChild].key, x.key) || heap[largestChild].key == x.key {
          NotBelow(comp, heap[largestChild].key, x.key);
          DownDone(heap[pos := x], comp, arity, pos, largestChild);
          done := true;
          break;
        }
        MoveDown(heap[pos := x], comp, arity, pos, largestChild);
        MoveTo(pos, largestChild, x, m, p0);
        pos := largestChild;
      }
      if !done { NoChildren(heap[pos := x], comp, arity, pos); }
      if pos != start {
        Place(pos, x, m, p0);
      }
    }

    // ---------- Operations ----------

    method Insert(e: nat, key: K)
      requires Valid() && e !in M() && e < positions.Length
      modifies `heap, positions
      ensures Valid() && M() == old(M())[e := key] && OthersKept(old(positions[..]), positions[..], M().Keys)
    {
      ElementAppended(heap, positions[..], comp, arity, e, key);
      hide IsHeap, HandlesMatch, HeapButUp, Contents, DistinctIds, IsOrder;
      ghost var p := positions[..];
      var pos := |heap|;
      positions[e] := pos;
      heap := heap + [HeapElement(key, e)];
      assert positions[..] == p[e := pos];
      SiftUp(pos);
    }

    /** Replaces the element at the root by the last one. */
    method TakeOutTop()
      requires heap != [] && heap[0].id < positions.Length && heap[|heap| - 1].id < positions.Length
      modifies `heap, positions
      ensures heap == WithoutAt(old(heap), 0)
      ensures forall e: nat {:trigger positions[..][e]} :: e < positions.Length && e != old(heap)[0].id && e != old(heap)[|old(heap)| - 1].id ==> positions[..][e] == old(positions[..])[e]
      ensures positions[..][old(heap)[|old(heap)| - 1].id] == 0
    {
      positions[heap[0].id] := INVALID_POSITION;
      positions[heap[|heap| - 1].id] := 0;
      heap := heap[0 := heap[|heap| - 1]];
      heap := heap[..|heap| - 1];
    }

    method DeleteTop()
      requires Valid() && heap != []
      modifies `heap, positions
      ensures Valid() && M() == old(M() - {heap[0].id}) && OthersKept(old(positions[..]), positions[..], old(M()).Keys)
    {
      TakeOutReady(heap, positions[..], comp, arity, 0);
      RootIsMaximal(heap, comp, arity, |heap| - 1);
      hide IsHeap, HandlesMatch, HeapButDown, Contents, DistinctIds, IsOrder, WithoutAt;
      ghost var h, p := heap, positions[..];
      TakeOutTop();
      TakenOut(h, p, positions[..], comp, arity, 0);
      if heap != [] {
        SiftDown(0);
      }
    }

    /** Replaces the element at pos by the last one. */
    method TakeOut(pos: nat)
      requires pos < |heap| && heap[pos].id < positions.Length && heap[|heap| - 1].id < positions.Length
      requires heap[pos].id == heap[|heap| - 1].id ==> pos == |heap| - 1
      modifies `heap, positions
      ensures heap == WithoutAt(old(heap), pos)
      ensures forall e: nat {:trigger positions[..][e]} :: e < positions.Length && e != old(heap)[pos].id && e != old(heap)[|old(heap)| - 1].id ==> positions[..][e] == old(positions[..])[e]
      ensures pos < |old(heap)| - 1 ==> positions[..][old(heap)[|old(heap)| - 1].id] == pos
    {
      var e := heap[pos].id;
      positions[heap[|heap| - 1].id] := pos;
      heap := heap[pos := heap[|heap| - 1]];
      positions[e] := INVALID_POSITION;
      heap := heap[..|heap| - 1];
    }

    method Remove(e: nat)
      requires Valid() && e in M()
      modifies `heap, positions
      ensures Valid() && M() == old(M() - {e}) && OthersKept(old(positions[..]), positions[..], old(M()).Keys)
    {
      HandleOf(heap, positions[..], e);
      var pos := positions[e];
      TakeOutReady(heap, positions[..], comp, arity, pos);
      LastIsOther(heap, pos);
      hide IsHeap, HandlesMatch, HeapButDown, HeapButUp, Contents, DistinctIds, IsOrder, WithoutAt;
      ghost var h, p := heap, positions[..];
      var removedKey, lastKey := heap[pos].key, heap[|heap| - 1].key;
      TakeOut(pos);
      TakenOut(h, p, positions[..], comp, arity, pos);
      if pos == |heap| {
        return;
      }
      if comp(removedKey, lastKey) {
        SiftUp(pos);
      } else {
        SiftDown(pos);
      }
    }

    method IncreaseKey(e: nat, newKey: K)
      requires Valid() && e in M() && comp(M()[e], newKey)
      modifies `heap, positions
      ensures Valid() && M() == old(M())[e := newKey] && OthersKept(old(positions[..]), positions[..], M().Keys)
    {
      HandleOf(heap, positions[..], e);
      var pos := positions[e];
      KeyChanged(heap, positions[..], comp, arity, pos, newKey);
      heap := heap[pos := heap[pos].(key := newKey)];
      SiftUp(pos);
    }

    method DecreaseKey(e: nat, newKey: K)
      requires Valid() && e in M() && comp(newKey, M()[e])
      modifies `heap, positions
      ensures Valid() && M() == old(M())[e := newKey] && OthersKept(old(positions[..]), positions[..], M().Keys)
    {
      HandleOf(heap, positions[..], e);
      var pos := positions[e];
      KeyChanged(heap, positions[..], comp, arity, pos, newKey);
      heap := heap[pos := heap[pos].(key := newKey)];
      SiftDown(pos);
    }

    /** A key that the comparator does not tell from the old one is not stored. */
    method AdjustKey(e: nat, newKey: K)
      requires Valid() && e in M()
      modifies `heap, positions
      ensures Valid() && OthersKept(old(positions[..]), positions[..], M().Keys)
      ensures M() == if old(comp(M()[e], newKey) || comp(newKey, M()[e])) then old(M())[e := newKey] else old(M())
    {
      HandleOf(heap, positions[..], e);
      HandlesDistinct(heap, positions[..]);
      OthersAllKept(positions[..], M().Keys);
      hide IsHeap, HandlesMatch, Contents, DistinctIds, IsOrder, OthersKept;
      var pos := positions[e];
      if comp(heap[pos].key, newKey) {
        IncreaseKey(e, newKey);
      } else if comp(newKey, heap[pos].key) {
        DecreaseKey(e, newKey);
      }
    }

    method InsertOrAdjustKey(e: nat, newKey: K)
      requires Valid() && e < positions.Length
      modifies `heap, positions
      ensures Valid() && OthersKept(old(positions[..]), positions[..], M().Keys)
      ensures M() == if old(e in M() && !comp(M()[e], newKey) && !comp(newKey, M()[e])) then old(M()) else old(M())[e := newKey]
    {
      var present := Contains(e);
      hide IsHeap, HandlesMatch, Contents, DistinctIds, IsOrder, OthersKept;
      if present {
        AdjustKey(e, newKey);
      } else {
        Insert(e, newKey);
      }
    }

    /** The handles of the elements stay as they are. */
    method Clear()
      requires Valid()
      modifies `heap
      ensures Valid() && M() == map[]
    {
      heap := [];
    }

    /** Empties the heap and goes over to other handles. */
    method SetHandle(positions: array<nat>)
      requires Valid()
      modifies `heap, `positions
      ensures Valid() && M() == map[] && this.positions == positions
    {
      Clear();
      this.positions := positions;
    }
  }
}
