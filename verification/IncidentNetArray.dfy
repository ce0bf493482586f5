/** The incident-net array: versioned lists, chained in circles, with an iterator list per circle.

    Its methods are tied to functions on the incidence that module IncidentNets defines. */
module IncidentNetArray {
  import opened Rings
  import opened Chains
  import opened VersionedLists
  import opened LiveLists
  import opened IteratorLists
  import opened IncidentNets

  function Sizes(lists: seq<NetList>): (r: seq<nat>)
    ensures |r| == |lists|
  {
    seq(|lists|, w requires 0 <= w < |lists| => lists[w].size)
  }

  ghost function LevelsOf(lists: seq<NetList>): (r: seq<seq<set<nat>>>)
    ensures |r| == |lists|
  {
    seq(|lists|, w requires 0 <= w < |lists| => lists[w].Levels())
  }

  ghost predicate ListsValid(lists: seq<NetList>) {
    forall w: nat {:trigger ListValid(lists, w)} :: w < |lists| ==> ListValid(lists, w)
  }

  ghost predicate ListValid(lists: seq<NetList>, w: nat)
    requires w < |lists|
  {
    lists[w].Valid()
  }

  /** In the contraction phase all lists are current. */
  ghost predicate ListsCurrent(lists: seq<NetList>) {
    forall w: nat {:trigger ListCurrent(lists, w)} :: w < |lists| ==> ListCurrent(lists, w)
  }

  ghost predicate ListCurrent(lists: seq<NetList>, w: nat)
    requires w < |lists|
  {
    lists[w].Current()
  }

  // ---------- A new array ----------

  ghost predicate PinsInRange(pins: seq<nat>, numNodes: nat) {
    Distinct(pins) && forall i :: 0 <= i < |pins| ==> pins[i] < numNodes
  }

  ghost function NetsWith(edgeVector: seq<seq<nat>>, p: nat): set<nat> {
    set e: nat | e < |edgeVector| && p in edgeVector[e]
  }

  /** The nets with pin p among the first k. */
  function NetsAmongFirst(edgeVector: seq<seq<nat>>, p: nat, k: nat): (r: seq<nat>)
    requires k <= |edgeVector|
    ensures forall i :: 0 <= i < |r| ==> r[i] < k
    ensures forall i, j :: 0 <= i < j < |r| ==> r[i] != r[j]
    ensures forall e: nat :: e in r <==> e < k && p in edgeVector[e]
  {
    if k == 0 then []
    else if p in edgeVector[k - 1] then NetsAmongFirst(edgeVector, p, k - 1) + [k - 1]
    else NetsAmongFirst(edgeVector, p, k - 1)
  }

  method EnterNet(edgeVector: seq<seq<nat>>, e: nat, nets: seq<seq<nat>>) returns (nets': seq<seq<nat>>)
    requires e < |edgeVector| && PinsInRange(edgeVector[e], |nets|)
    requires forall p: nat :: p < |nets| ==> nets[p] == NetsAmongFirst(edgeVector, p, e)
    ensures |nets'| == |nets| && forall p: nat :: p < |nets| ==> nets'[p] == NetsAmongFirst(edgeVector, p, e + 1)
  {
    nets' := nets;
    var pins := edgeVector[e];
    for j := 0 to |pins|
      invariant |nets'| == |nets|
      invariant forall p: nat :: p < |nets| ==> nets'[p] == if p in pins[..j] then nets[p] + [e] else nets[p]
    {
      assert pins[..j + 1] == pins[..j] + [pins[j]];
      assert pins[j] !in pins[..j];
      nets' := nets'[pins[j] := nets'[pins[j]] + [e]];
    }
    assert pins[..|pins|] == pins;
  }

  function NewList(nets: seq<nat>): NetList {
    NetList(seq(|nets|, i requires 0 <= i < |nets| => Entry(nets[i], 0)), |nets|, 0)
  }

  lemma NewListOk(nets: seq<nat>)
    requires forall i, j :: 0 <= i < j < |nets| ==> nets[i] != nets[j]
    ensures NewList(nets).Valid() && NewList(nets).Current() && |NewList(nets).Levels()| == 1
    ensures forall e: nat :: e in Newest(NewList(nets).Levels()) <==> e in nets
    ensures |Newest(NewList(nets).Levels())| == |nets|
  {
    var l := NewList(nets);
    forall e: nat ensures e in l.ActiveAt(0) <==> e in nets {
      if e in nets {
        var i :| 0 <= i < |nets| && nets[i] == e;
        assert l.entries[i].net == e;
      }
    }
    SizeCounts(l);
  }

  lemma NewListsOk(edgeVector: seq<seq<nat>>, nets: seq<seq<nat>>, lists: seq<NetList>, degree: seq<int>)
    requires |nets| == |lists| == |degree| && forall p: nat :: p < |nets| ==> nets[p] == NetsAmongFirst(edgeVector, p, |edgeVector|)
    requires forall p: nat :: p < |nets| ==> lists[p] == NewList(nets[p]) && degree[p] == |nets[p]|
    ensures ListsValid(lists) && ListsCurrent(lists)
    ensures var a := Incidence(LevelsOf(lists), degree, Singles(|nets|));
            a.Shape() && a.DegreesOk() && forall p: nat :: p < |nets| ==> a.ListedOnce(p) && a.NetsOf(p) == NetsWith(edgeVector, p)
  {
    SinglesLinked(|nets|);
    var a := Incidence(LevelsOf(lists), degree, Singles(|nets|));
    forall p: nat | p < |nets|
      ensures ListValid(lists, p) && ListCurrent(lists, p) && a.levels[p] != [] && degree[p] == Entries(a.levels, a.chain.circ[p]) && a.ListedOnce(p) && a.NetsOf(p) == NetsWith(edgeVector, p)
    {
      NewListOk(nets[p]);
      LevelsOfOne(a.levels, p);
    }
  }

  lemma LevelsOfOne(levels: seq<seq<set<nat>>>, p: nat)
    requires p < |levels|
    ensures NetsIn(levels, [p]) == Newest(levels[p]) && Entries(levels, [p]) == |Newest(levels[p])|
  {
    assert [p][..0] == [];
  }

  lemma NewIters(lists: seq<NetList>, n: nat)
    requires |lists| == n
    ensures ItersOk(Singles(n), Identity(n), Identity(n), Sizes(lists))
  {
    forall h: nat | h < n ensures IterAt(Singles(n), Identity(n), Identity(n), Sizes(lists), h) {
      assert Live([h], Sizes(lists)) == [h];
    }
  }

  // ---------- Degrees ----------

  /** The number of active entries of the lists c. */
  function Total(size: seq<nat>, c: seq<nat>): int {
    if c == [] then 0 else Total(size, c[..|c| - 1]) + if c[|c| - 1] < |size| then size[c[|c| - 1]] else 0
  }

  lemma {:induction false} TotalFrame(size: seq<nat>, size': seq<nat>, c: seq<nat>)
    requires |size| == |size'| && forall w: nat :: w in c && w < |size| ==> size'[w] == size[w]
    ensures Total(size', c) == Total(size, c)
  {
    if c != [] {
      assert c[|c| - 1] in c;
      TotalFrame(size, size', c[..|c| - 1]);
    }
  }

  lemma {:induction false} TotalIsEntries(lists: seq<NetList>, c: seq<nat>)
    requires ListsValid(lists)
    ensures Total(Sizes(lists), c) == Entries(LevelsOf(lists), c)
  {
    if c != [] {
      TotalIsEntries(lists, c[..|c| - 1]);
      var w := c[|c| - 1];
      if w < |lists| {
        assert ListValid(lists, w);
        SizeCounts(lists[w]);
        assert Newest(lists[w].Levels()) == lists[w].ActiveAt(lists[w].version);
      }
    }
  }

  /** The lists `done` changed their sizes from `size0`, and the degree of u changed by as much. */
  ghost predicate DegreesFollow(degree0: seq<int>, u: nat, size0: seq<nat>, size: seq<nat>, done: seq<nat>, degree: seq<int>) {
    && u < |degree0| && |size| == |size0|
    && degree == degree0[u := degree0[u] + (Total(size, done) - Total(size0, done))]
    && forall w: nat {:trigger UnchangedAt(size0, size, w)} :: w !in done ==> UnchangedAt(size0, size, w)
  }

  ghost predicate UnchangedAt(size0: seq<nat>, size: seq<nat>, w: nat) {
    w < |size| && w < |size0| ==> size[w] == size0[w]
  }

  lemma EntriesFollow(degree0: seq<int>, u: nat, before: seq<NetList>, lists: seq<NetList>, done: seq<nat>, degree: seq<int>)
    requires ListsValid(before) && ListsValid(lists) && DegreesFollow(degree0, u, Sizes(before), Sizes(lists), done, degree)
    ensures u < |degree0|
    ensures degree == degree0[u := degree0[u] + (Entries(LevelsOf(lists), done) - Entries(LevelsOf(before), done))]
  {
    TotalIsEntries(before, done);
    TotalIsEntries(lists, done);
  }

  lemma DegreesStart(degree: seq<int>, u: nat, size: seq<nat>)
    requires u < |degree|
    ensures DegreesFollow(degree, u, size, size, [], degree)
  {
    forall w: nat ensures UnchangedAt(size, size, w) {}
  }

  lemma DegreesStep(degree0: seq<int>, u: nat, size0: seq<nat>, size: seq<nat>, done: seq<nat>, degree: seq<int>, w: nat, n: nat)
    requires DegreesFollow(degree0, u, size0, size, done, degree) && w !in done && w < |size|
    ensures u < |degree| && DegreesFollow(degree0, u, size0, size[w := n], done + [w], degree[u := degree[u] + (n - size[w])])
  {
    var size' := size[w := n];
    assert UnchangedAt(size0, size, w);
    assert (done + [w])[..|done|] == done;
    TotalFrame(size, size', done);
    forall x: nat | x !in done + [w] ensures UnchangedAt(size0, size', x) {
      assert x !in done && x != w && UnchangedAt(size0, size, x);
    }
  }

  // ---------- Removing nets, list by list ----------

  /** The nets in `flags` were removed from the lists `done` of u. */
  ghost predicate RemovedUpTo(a: Incidence, u: nat, flags: set<nat>, size0: seq<nat>, done: seq<nat>, lists: seq<NetList>, degree: seq<int>) {
    && |lists| == |a.levels| && LevelsOf(lists) == LevelsReduced(a.levels, done, flags)
    && DegreesFollow(a.degree, u, size0, Sizes(lists), done, degree)
  }

  lemma RemovalStarts(a: Incidence, u: nat, flags: set<nat>, lists: seq<NetList>)
    requires u < |a.degree| && LevelsOf(lists) == a.levels
    ensures RemovedUpTo(a, u, flags, Sizes(lists), [], lists, a.degree)
  {
    assert LevelsReduced(a.levels, [], flags) == a.levels;
    DegreesStart(a.degree, u, Sizes(lists));
  }

  lemma ListShrinks(l: NetList, l': NetList, flags: set<nat>)
    requires l.Valid() && l'.Valid() && l'.Levels() == l.Levels() + [l.ActiveAt(l.version) - flags]
    ensures l'.Levels() == Reduced(l.Levels(), flags) && l'.size <= l.size
  {
    SizeCounts(l);
    SizeCounts(l');
    assert Newest(l.Levels()) == l.ActiveAt(l.version) && Newest(l'.Levels()) == l'.ActiveAt(l'.version);
    SubsetIsSmaller(Newest(l.Levels()), flags);
  }

  lemma SubsetIsSmaller(a: set<nat>, b: set<nat>)
    ensures |a - b| <= |a|
  {
    assert a == (a - b) + (a * b);
  }

  lemma LevelsStep(levels: seq<seq<set<nat>>>, done: seq<nat>, flags: set<nat>, lists: seq<NetList>, w: nat, l: NetList)
    requires w !in done && w < |lists| && LevelsOf(lists) == LevelsReduced(levels, done, flags)
    requires l.Levels() == Reduced(lists[w].Levels(), flags)
    ensures lists[w].Levels() == levels[w]
    ensures LevelsOf(lists[w := l]) == LevelsReduced(levels, done + [w], flags)
  {
    assert LevelsOf(lists)[w] == levels[w];
    var after := LevelsReduced(levels, done + [w], flags);
    forall x: nat | x < |lists| ensures LevelsOf(lists[w := l])[x] == after[x] {
      assert LevelsOf(lists)[x] == LevelsReduced(levels, done, flags)[x];
      assert x in done + [w] <==> x in done || x == w;
    }
  }

  // ---------- Restoring nets, list by list ----------

  /** The lists `done` of u went back one version; `degree0` are the degrees before. */
  ghost predicate RestoredUpTo(a: Incidence, u: nat, degree0: seq<int>, size0: seq<nat>, done: seq<nat>, lists: seq<NetList>, degree: seq<int>) {
    && |lists| == |a.levels| && LevelsOf(lists) == LevelsRestored(a.levels, done)
    && DegreesFollow(degree0, u, size0, Sizes(lists), done, degree)
  }

  lemma RestorationBegins(a: Incidence, u: nat, degree0: seq<int>, lists: seq<NetList>)
    requires u < |degree0| && LevelsOf(lists) == a.levels
    ensures RestoredUpTo(a, u, degree0, Sizes(lists), [], lists, degree0)
  {
    assert LevelsRestored(a.levels, []) == a.levels;
    DegreesStart(degree0, u, Sizes(lists));
  }

  lemma RestoredLevels(levels: seq<seq<set<nat>>>, done: seq<nat>, lists: seq<NetList>, w: nat, l: NetList)
    requires w !in done && w < |lists| && LevelsOf(lists) == LevelsRestored(levels, done) && lists[w].version > 0
    requires l.Levels() == lists[w].Levels()[..lists[w].version]
    ensures lists[w].Levels() == levels[w]
    ensures LevelsOf(lists[w := l]) == LevelsRestored(levels, done + [w])
  {
    assert LevelsOf(lists)[w] == levels[w];
    var after := LevelsRestored(levels, done + [w]);
    forall x: nat | x < |lists| ensures LevelsOf(lists[w := l])[x] == after[x] {
      assert LevelsOf(lists)[x] == LevelsRestored(levels, done)[x];
      assert x in done + [w] <==> x in done || x == w;
    }
  }

  // ---------- Iterator lists ----------

  /** The position after i in the circle of a head. */
  lemma NextList(g: Chains, next: seq<nat>, prev: seq<nat>, tail: seq<nat>, u: nat, i: nat)
    requires g.Valid() && ListsOk(g, next, prev, tail) && u < |g.isHead| && g.isHead[u] && i < |g.circ[u]|
    ensures g.circ[u][0] == u && g.circ[u][i] < |g.rep| && g.circ[u][i] !in g.circ[u][..i]
    ensures g.circ[u][..i + 1] == g.circ[u][..i] + [g.circ[u][i]]
    ensures var n := next[g.circ[u][i]]; if i + 1 < |g.circ[u]| then n == g.circ[u][i + 1] && n != u else n == u
  {
    assert g.CircleOk(u) && ListOk(next, prev, tail, g.circ, g.isHead, u);
    assert g.circ[u][i] in g.circ[u];
    NextInRing(next, prev, g.circ[u], i);
  }

  class IncidentNetArray {
    var lists: seq<NetList>
    var degree: seq<int>
    var isHead: seq<bool>
    var next: seq<nat>
    var prev: seq<nat>
    var tail: seq<nat>
    var itNext: seq<nat>
    var itPrev: seq<nat>
    ghost var rep: seq<nat>
    ghost var circ: seq<seq<nat>>

    /** Enters every net into the list of each of its pins. */
    constructor (numNodes: nat, edgeVector: seq<seq<nat>>)
      requires forall e: nat :: e < |edgeVector| ==> PinsInRange(edgeVector[e], numNodes)
      ensures Valid() && ListsCurrent(lists) && A().chain == Singles(numNodes) && |lists| == numNodes && A().DegreesOk()
      ensures forall p: nat :: p < numNodes ==> A().ListedOnce(p) && A().NetsOf(p) == NetsWith(edgeVector, p)
    {
      var nets: seq<seq<nat>> := seq(numNodes, p => []);
      for e := 0 to |edgeVector|
        invariant |nets| == numNodes && forall p: nat :: p < numNodes ==> nets[p] == NetsAmongFirst(edgeVector, p, e)
      {
        nets := EnterNet(edgeVector, e, nets);
      }
      lists := seq(numNodes, p requires 0 <= p < numNodes => NewList(nets[p]));
      degree := seq(numNodes, p requires 0 <= p < numNodes => |nets[p]|);
      isHead, next, prev, tail := seq(numNodes, p => true), Identity(numNodes), Identity(numNodes), Identity(numNodes);
      itNext, itPrev := Identity(numNodes), Identity(numNodes);
      rep, circ := Singles(numNodes).rep, Singles(numNodes).circ;
      new;
      SinglesLinked(numNodes);
      assert Chain() == Singles(numNodes);
      NewListsOk(edgeVector, nets, lists, degree);
      NewIters(lists, numNodes);
    }

    ghost function Chain(): Chains
      reads this
    {
      Chains(isHead, rep, circ)
    }

    ghost function A(): Incidence
      reads this
    {
      Incidence(LevelsOf(lists), degree, Chain())
    }

    ghost predicate Linked()
      reads this
    {
      Chain().Valid() && ListsOk(Chain(), next, prev, tail) && ItersOk(Chain(), itNext, itPrev, Sizes(lists))
    }

    ghost predicate Valid()
      reads this
    {
      Linked() && |lists| == |degree| == |rep| && ListsValid(lists)
    }

    /** Takes the empty list w out of the iterator list. */
    method RemoveEmptyIncidentNetList(w: nat)
      requires w < |itNext| == |itPrev| && itPrev[w] < |itNext| && itNext[w] < |itPrev| && (itPrev[w] == w <==> itNext[w] == w)
      modifies `itNext, `itPrev
      ensures itNext == NextCut(old(itNext), old(itPrev), w, w) && itPrev == PrevCut(old(itNext), old(itPrev), w, w)
    {
      itNext := itNext[itPrev[w] := itNext[w]];
      itPrev := itPrev[itNext[w] := itPrev[w]];
      itNext := itNext[w := w];
      itPrev := itPrev[w := w];
    }

    /** Removes the nets in `flags` from list w of u. */
    method RemoveFromList(u: nat, w: nat, flags: set<nat>, ghost a: Incidence, ghost size0: seq<nat>, ghost i: nat)
      requires RemovalReady(Chain(), u, i, w, |lists|)
      requires RemovalState(a, Chain(), itNext, itPrev, lists, degree, u, flags, size0, circ[u][..i])
      modifies `lists, `degree, `itNext, `itPrev
      ensures RemovalState(a, Chain(), itNext, itPrev, lists, degree, u, flags, size0, circ[u][..i] + [w])
    {
      var l := ShrinkList(w, flags);
      ListRemoved(a, Chain(), itNext, itPrev, lists, degree, u, flags, size0, i, w, l);
      ReplaceList(u, w, l);
    }

    method ShrinkList(w: nat, flags: set<nat>) returns (l: NetList)
      requires ListsValid(lists) && ListsCurrent(lists) && w < |lists|
      ensures Shrunk(lists[w], l, flags)
    {
      assert ListValid(lists, w) && ListCurrent(lists, w);
      l := RemoveNets(lists[w], flags);
    }

    /** Stores the list w of u again and takes it out of the iterator list if it became empty. */
    method ReplaceList(u: nat, w: nat, l: NetList)
      requires w < |lists| && u < |degree|
      requires l.size == 0 && w != u ==> w < |itNext| == |itPrev| && itPrev[w] < |itNext| && itNext[w] < |itPrev| && (itPrev[w] == w <==> itNext[w] == w)
      modifies `lists, `degree, `itNext, `itPrev
      ensures lists == old(lists)[w := l] && degree == old(degree)[u := old(degree)[u] + (l.size - old(lists)[w].size)]
      ensures itNext == if l.size == 0 && w != u then NextCut(old(itNext), old(itPrev), w, w) else old(itNext)
      ensures itPrev == if l.size == 0 && w != u then PrevCut(old(itNext), old(itPrev), w, w) else old(itPrev)
    {
      degree := degree[u := degree[u] - (lists[w].size - l.size)];
      lists := lists[w := l];
      if l.size == 0 && w != u {
        RemoveEmptyIncidentNetList(w);
      }
    }

    /** Removes the nets in `flags` from all lists of u. */
    method RemoveIncidentNets(u: nat, flags: set<nat>)
      requires Valid() && ListsCurrent(lists) && CanRemove(A(), u)
      modifies `lists, `degree, `itNext, `itPrev
      ensures Valid() && ListsCurrent(lists) && A() == old(Removed(A(), u, flags))
    {
      ghost var a, before := A(), lists;
      RemoveFromLists(u, flags, a);
      RemovalIs(a, u, flags, before, lists, degree);
    }

    method RemoveFromLists(u: nat, flags: set<nat>, ghost a: Incidence)
      requires Valid() && ListsCurrent(lists) && a == A() && CanRemove(a, u)
      modifies `lists, `degree, `itNext, `itPrev
      ensures ItersOk(Chain(), itNext, itPrev, Sizes(lists)) && ListsValid(lists) && ListsCurrent(lists)
      ensures RemovedUpTo(a, u, flags, old(Sizes(lists)), a.chain.circ[u], lists, degree)
    {
      ghost var c, size0 := circ[u], Sizes(lists);
      RemovalStarts(a, u, flags, lists);
      HeadStarts(Chain(), u);
      var current, finished := u, false;
      ghost var i := 0;
      while !finished
        invariant i <= |c| && (finished <==> i == |c|) && (!finished ==> current == c[i])
        invariant RemovalState(a, Chain(), itNext, itPrev, lists, degree, u, flags, size0, c[..i])
        decreases |c| - i
      {
        NextList(Chain(), next, prev, tail, u, i);
        RemoveFromList(u, current, flags, a, size0, i);
        current := next[current];
        finished := current == u;
        i := i + 1;
      }
      assert c[..i] == c;
    }
  
    /** Concatenates the iterator lists of u and v. */
    method AppendIterators(u: nat, v: nat)
      requires u < |itPrev| == |itNext| && v < |itPrev| && itPrev[u] < |itNext| && itPrev[v] < |itNext|
      modifies `itNext, `itPrev
      ensures itNext == NextAppended(old(itNext), old(itPrev), u, v) && itPrev == PrevAppended(old(itPrev), u, v)
    {
      var itTailU, itTailV := itPrev[u], itPrev[v];
      itNext := itNext[itTailU := v];
      itPrev := itPrev[u := itTailV];
      itPrev := itPrev[v := itTailU];
      itNext := itNext[itTailV := u];
    }

    /** Lets the end of each of the two circles lead to the start of the other one. */
    method Join(u: nat, v: nat)
      requires u < |next| == |prev| == |tail| && v < |next| && u != v && prev[u] < |next| && prev[v] < |next| && prev[u] != v
      modifies `next, `prev, `tail
      ensures next == old(NextAppended(next, prev, u, v)) && prev == old(PrevAppended(prev, u, v))
      ensures tail == old(tail[v := prev[v]])
    {
      var tailU, tailV := prev[u], prev[v];
      next := next[tailU := v];
      prev := prev[u := tailV];
      tail := tail[v := tailV];
      prev := prev[v := tailU];
      next := next[tailV := u];
    }

    /** Concatenates circle and iterator list of v to those of u. */
    method Append(u: nat, v: nat)
      requires Linked() && |lists| == |rep| && u < |isHead| && v < |isHead| && u != v && isHead[u] && isHead[v]
      modifies `next, `prev, `tail, `isHead, `rep, `circ, `itNext, `itPrev
      ensures Linked() && Chain() == old(Appended(Chain(), u, v))
    {
      hide ListsOk, Chains.Valid, AllRenamed, NextAppended, PrevAppended, IterOk;
      ghost var g, n, p, t := Chain(), next, prev, tail;
      TailsInRange(g, n, p, t, u, v);
      IterAppended(g, itNext, itPrev, Sizes(lists), u, v);
      AppendedWired(g, n, p, t, u, v);
      Join(u, v);
      AppendIterators(u, v);
      isHead := isHead[v := false];
      circ := circ[u := circ[u] + circ[v]];
      rep := AllRenamed(rep, v, u);
      if lists[v].size == 0 {
        RemoveEmptyIncidentNetList(v);
      }
    }

    /** Contracts v into u: the nets in `shared` leave the lists of v, which then belong to u. */
    method Contract(u: nat, v: nat, shared: set<nat>)
      requires Valid() && ListsCurrent(lists) && IncidentNets.CanContract(A(), u, v)
      modifies this
      ensures Valid() && ListsCurrent(lists) && A() == old(IncidentNets.Contracted(A(), u, v, shared))
    {
      ghost var a := A();
      RemoveIncidentNets(v, shared);
      ContractionIs(a, u, v, shared);
      Append(u, v);
      degree := degree[u := degree[u] + degree[v]];
    }

    // ---------- Restoring ----------

    /** Stores the restored list w of u and links it to the last non-empty list before it. */
    method RelinkList(u: nat, w: nat, l: NetList, last: nat) returns (last': nat)
      requires w < |lists| && u < |degree| && w < |itPrev| && (last < |itNext| || last == INVALID)
      modifies `lists, `degree, `itNext, `itPrev
      ensures lists == old(lists)[w := l] && degree == old(degree)[u := old(degree)[u] + (l.size - old(lists)[w].size)]
      ensures last' == if l.size > 0 || w == u then w else last
      ensures itNext == if LinkNeeded(old(itPrev), l, u, w, last) then old(itNext)[last := w] else old(itNext)
      ensures itPrev == if LinkNeeded(old(itPrev), l, u, w, last) then old(itPrev)[w := last] else old(itPrev)
    {
      degree := degree[u := degree[u] + (l.size - lists[w].size)];
      lists := lists[w := l];
      last' := last;
      if l.size > 0 || w == u {
        if last != INVALID && itPrev[w] != last {
          itNext := itNext[last := w];
          itPrev := itPrev[w := last];
        }
        last' := w;
      }
    }

    method GrowList(w: nat, ghost s: Restoration) returns (l: NetList, caseTwo: seq<nat>, caseOne: seq<nat>)
      requires w < |lists| == |s.a.levels| && lists[w].Valid() && lists[w].version > 0 && lists[w].Levels() == s.a.levels[w]
      ensures Grown(lists[w], l) && |s.a.levels[w]| > 0 && Reports(caseTwo, Newest(s.a.levels[w])) && |caseTwo| == lists[w].size
      ensures Reports(caseOne, Newest(s.a.levels[w][..|s.a.levels[w]| - 1]) - Newest(s.a.levels[w]))
    {
      l, caseTwo, caseOne := RestoreNets(lists[w]);
      LevelsSplit(s, lists[w], l, w, caseTwo, caseOne);
    }

    /** Restores list i of u, and reports which of its nets stayed and which are back. */
    method RestoreList(u: nat, w: nat, last: nat, ghost s: Restoration, ghost i: nat) returns (last': nat, caseTwo: seq<nat>, caseOne: seq<nat>)
      requires RestorationReady(s, u, i, w, lists) && RestoringAt(s, u, i, lists, degree, itNext, itPrev, last)
      modifies `lists, `degree, `itNext, `itPrev
      ensures RestoringAt(s, u, i + 1, lists, degree, itNext, itPrev, last') && |lists| == |old(lists)|
      ensures Reports(caseTwo, Newest(s.a.levels[w])) && w < |s.size0| && |caseTwo| == s.size0[w]
      ensures Reports(caseOne, Newest(s.a.levels[w][..|s.a.levels[w]| - 1]) - Newest(s.a.levels[w]))
    {
      hide *;
      ListReady(s, u, i, w, lists, degree, itNext, itPrev, last);
      var l;
      l, caseTwo, caseOne := GrowList(w, s);
      ListRestored(s, u, i, w, lists, degree, itNext, itPrev, last, l);
      last' := RelinkList(u, w, l, last);
    }
  
    /** Restores all lists of u. */
    method RestoreLists(u: nat, ghost s: Restoration) returns (caseTwo: seq<nat>, caseOne: seq<nat>, last: nat)
      requires CircleToRestore(s, Chain(), u, |lists|) && ListsOk(Chain(), next, prev, tail) && s.circ != [] && s.circ[0] == u
      requires RestoringAt(s, u, 0, lists, degree, itNext, itPrev, INVALID)
      modifies `lists, `degree, `itNext, `itPrev
      ensures RestoringAt(s, u, |s.circ|, lists, degree, itNext, itPrev, last)
      ensures ReportedUpTo(s, |s.circ|, caseTwo, caseOne)
    {
      hide RestoringAt, ReportedUpTo;
      caseTwo, caseOne := [], [];
      NothingReported(s);
      var current, finished := u, false;
      last := INVALID;
      ghost var g, i := Chain(), 0;
      while !finished
        invariant i <= |s.circ| && (finished <==> i == |s.circ|) && (!finished ==> current == s.circ[i])
        invariant RestoringAt(s, u, i, lists, degree, itNext, itPrev, last) && |lists| == |old(lists)|
        invariant ReportedUpTo(s, i, caseTwo, caseOne)
        decreases |s.circ| - i
      {
        NextList(g, next, prev, tail, u, i);
        ListComes(s, g, u, i, lists);
        var two, one;
        last, two, one := RestoreList(u, current, last, s, i);
        ReportsGrow(s, i, caseTwo, caseOne, two, one);
        caseTwo, caseOne := caseTwo + two, caseOne + one;
        current := next[current];
        finished := current == u;
        i := i + 1;
      }
    }

    /** Restores all lists of u and closes its iterator list. */
    method RestoreCircle(u: nat, ghost s: Restoration) returns (caseTwo: seq<nat>, caseOne: seq<nat>)
      requires RestorationStarts(s, Chain(), u, lists, degree, itNext, itPrev) && ListsOk(Chain(), next, prev, tail)
      modifies `lists, `degree, `itNext, `itPrev
      ensures ListsValid(lists) && RestoredUpTo(s.a, u, s.degree0, s.size0, s.circ, lists, degree)
      ensures IterOk(itNext, itPrev, s.circ, Sizes(lists)) && |itNext| == |itPrev| == |lists|
      ensures OnlyCircleChanged(s, itNext, itPrev)
      ensures Reports(caseTwo, NetsIn(s.a.levels, s.circ)) && Reports(caseOne, NetsReturned(s.a.levels, s.circ))
      ensures |caseTwo| == Total(s.size0, s.circ)
    {
      FirstList(s, Chain(), u, lists, degree, itNext, itPrev);
      var last;
      caseTwo, caseOne, last := RestoreLists(u, s);
      LastList(s, u, lists, degree, itNext, itPrev, last);
      itPrev := itPrev[u := last];
      itNext := itNext[last := u];
    }
  
    /** Restores the nets of u that were removed last; nothing else changes. */
    method RestoreIncidentNets(u: nat) returns (caseTwo: seq<nat>, caseOne: seq<nat>)
      requires Valid() && CanRestore(A(), u) && |lists| <= INVALID
      modifies `lists, `degree, `itNext, `itPrev
      ensures Valid() && A() == old(Restored(A(), u))
      ensures Reports(caseTwo, old(NetsIn(A().levels, circ[u]))) && Reports(caseOne, old(NetsReturned(A().levels, circ[u])))
    {
      ghost var s, before := Restoration(A(), degree, Sizes(lists), circ[u], itNext, itPrev), lists;
      IntactCircle(s, Chain(), u, lists);
      caseTwo, caseOne := RestoreCircle(u, s);
      RestorationIs(s, u, before, lists, degree);
      CircleDone(s, Chain(), u, before, lists, itNext, itPrev);
    }

    /** The last non-empty list before v, or u. */
    method NonEmptyBefore(u: nat, v: nat, ghost k: nat) returns (x: nat)
      requires Linked() && |lists| == |rep| && u < |isHead| && v < |isHead| && u != v && isHead[u] && 0 < k < |circ[u]| && circ[u][k] == v
      ensures x == Predecessor(circ[u][..k], Sizes(lists))
    {
      ghost var c, j := circ[u], k;
      CircleFacts(Chain(), next, prev, tail, u);
      x := v;
      while (x == v || lists[x].size == 0) && x != u
        invariant 0 <= j <= k && x == c[j]
        invariant forall i :: j < i < k ==> lists[c[i]].size == 0
        decreases j
      {
        assert prev[c[j]] == c[j - 1];
        x := prev[x];
        j := j - 1;
      }
      PredecessorFound(c[..k], Sizes(lists), j);
    }

    /** The first non-empty list after t, or u. */
    method NonEmptyAfter(u: nat, t: nat, ghost k: nat) returns (x: nat)
      requires Linked() && |lists| == |rep| && u < |isHead| && isHead[u] && 0 < k < |circ[u]| && circ[u][k] == t
      ensures x == Successor([u], circ[u][k + 1..], Sizes(lists))
    {
      ghost var c, j := circ[u], k;
      CircleFacts(Chain(), next, prev, tail, u);
      x := t;
      while (x == t || lists[x].size == 0) && x != u
        invariant k <= j <= |c| && x == (if j == |c| then u else c[j])
        invariant forall i :: k < i < j ==> lists[c[i]].size == 0
        decreases |c| - j
      {
        assert j + 1 < |c| ==> next[c[j]] == c[j + 1];
        x := next[x];
        j := j + 1;
      }
      SuccessorFound([u], c[k + 1..], Sizes(lists), j - (k + 1));
    }
  
    /** Takes the former circle of v, which starts at position k, out of the iterator list of u. */
    method SpliceIterators(u: nat, v: nat, ghost k: nat)
      requires Linked() && |lists| == |rep| && u < |isHead| && v < |isHead| && u != v && isHead[u] && rep[v] == u
      requires IsSegment(Chain(), u, v, k) && circ[v] != [] && circ[v][0] == v && tail[v] == circ[v][|circ[v]| - 1]
      modifies `itNext, `itPrev
      ensures OthersOk(Spliced(Chain(), u, v, k), itNext, itPrev, Sizes(lists), v)
      ensures Coherent(itNext, itPrev, circ[v]) && SelfLinked(itNext, itPrev, circ[v], Sizes(lists))
    {
      assert circ[u][k..k + |circ[v]|][0] == circ[u][k] && circ[u][k..k + |circ[v]|][|circ[v]| - 1] == circ[u][k + |circ[v]| - 1];
      var before := NonEmptyBefore(u, v, k);
      var after := NonEmptyAfter(u, tail[v], k + |circ[v]| - 1);
      IterSplice(Chain(), itNext, itPrev, Sizes(lists), u, v, k, before, after);
      itNext := itNext[before := after];
      itPrev := itPrev[after := before];
    }

    /** Cuts the former circle of v out of the circle of u. */
    method SpliceCircle(u: nat, v: nat, ghost k: nat)
      requires Chain().Valid() && ListsOk(Chain(), next, prev, tail) && u < |isHead| && v < |isHead| && u != v && isHead[u] && rep[v] == u
      requires IsSegment(Chain(), u, v, k)
      modifies `next, `prev, `isHead, `rep, `circ
      ensures Chain() == old(Spliced(Chain(), u, v, k)) && Chain().Valid() && ListsOk(Chain(), next, prev, tail)
    {
      ghost var g, n, p, t := Chain(), next, prev, tail;
      SegmentInRange(g, n, p, t, u, v, k);
      SplicedWired(g, n, p, t, u, v, k);
      var tailV := tail[v];
      var prevV, nextTail := prev[v], next[tailV];
      prev := prev[v := tailV];
      next := next[tailV := v];
      prev := prev[nextTail := prevV];
      next := next[prevV := nextTail];
      isHead := isHead[v := true];
      circ := circ[u := Without(circ[u], k, k + |circ[v]|)];
      rep := AllReturned(rep, circ[v], v);
      assert next == NextCut(n, p, v, tailV) && prev == PrevCut(n, p, v, tailV);
    }

    /** Undoes the contraction of v into u, and reports which nets of v stayed and which are back. */
    method Uncontract(u: nat, v: nat, ghost k: nat) returns (caseTwo: seq<nat>, caseOne: seq<nat>)
      requires Valid() && IncidentNets.CanUncontract(A(), u, v, k) && |lists| <= INVALID
      modifies this
      ensures Valid() && A() == old(IncidentNets.Uncontracted(A(), u, v, k))
      ensures Reports(caseTwo, old(NetsIn(A().levels, circ[v]))) && Reports(caseOne, old(NetsReturned(A().levels, circ[v])))
      ensures |caseTwo| == old(Entries(A().levels, circ[v])) && |lists| == old(|lists|)
    {
      ghost var a, before := A(), lists;
      TailOf(Chain(), next, prev, tail, v);
      SpliceIterators(u, v, k);
      SpliceCircle(u, v, k);
      degree := degree[u := degree[u] - degree[v]];
      ghost var s := Restoration(a, degree, Sizes(lists), circ[v], itNext, itPrev);
      caseTwo, caseOne := RestoreSegment(v, s);
      UncontractionIs(s, u, v, k, before, lists, degree);
      TotalIsEntries(before, s.circ);
    }

    /** Restores the circle of v that was just cut out. */
    method RestoreSegment(v: nat, ghost s: Restoration) returns (caseTwo: seq<nat>, caseOne: seq<nat>)
      requires Chain().Valid() && ListsOk(Chain(), next, prev, tail) && OthersOk(Chain(), itNext, itPrev, Sizes(lists), v)
      requires SegmentReady(s, Chain(), v, lists) && degree == s.degree0 && itNext == s.itNext0 && itPrev == s.itPrev0
      modifies `lists, `degree, `itNext, `itPrev
      ensures ItersOk(Chain(), itNext, itPrev, Sizes(lists)) && ListsValid(lists) && RestoredUpTo(s.a, v, s.degree0, s.size0, s.circ, lists, degree)
      ensures Reports(caseTwo, NetsIn(s.a.levels, s.circ)) && Reports(caseOne, NetsReturned(s.a.levels, s.circ))
      ensures |caseTwo| == Total(s.size0, s.circ)
    {
      ghost var before := lists;
      SegmentToRestore(s, Chain(), v, lists);
      caseTwo, caseOne := RestoreCircle(v, s);
      CircleDone(s, Chain(), v, before, lists, itNext, itPrev);
    }

    /** Walks along the iterator list of u until it meets a head again, and lists all active nets: exactly
        the incident nets of u, as often as they are listed in its circle. */
    method IncidentEdges(u: nat) returns (nets: seq<nat>)
      requires Valid() && u < |isHead| && isHead[u]
      ensures Reports(nets, NetsIn(A().levels, circ[u])) && |nets| == Entries(A().levels, circ[u])
    {
      ghost var l := Live(circ[u], Sizes(lists));
      LiveRing(Chain(), itNext, itPrev, Sizes(lists), u);
      NothingListed(l);
      nets := [];
      var current, end := u, false;
      ghost var i := 0;
      while !end
        invariant i <= |l| && (end <==> i == |l|) && (!end ==> current == l[i])
        invariant ListedUpTo(LevelsOf(lists), Sizes(lists), l[..i], nets)
        decreases |l| - i
      {
        NextLiveList(Chain(), itNext, itPrev, Sizes(lists), u, i);
        assert ListValid(lists, current);
        var more := ActiveNets(lists[current]);
        ActiveNetsReported(lists, current, more);
        ListedMore(LevelsOf(lists), Sizes(lists), l, i, nets, more);
        nets := nets + more;
        var lastU := current;
        current := itNext[current];
        end := isHead[current] || lastU == current;
        i := i + 1;
      }
      assert l[..i] == l;
      HeadCircle(Chain(), u);
      LiveIsAll(lists, circ[u]);
      TotalIsEntries(lists, circ[u]);
    }

    /** Undoes a whole history of contractions and removals, the last one first: every list, circle, head
        flag and degree is as it was before the first one. */
    method UndoAll(history: seq<Step>, ghost trail: seq<Incidence>)
      requires |trail| == |history| + 1 && |lists| <= INVALID
      requires forall i: nat {:trigger StepOk(trail, history, i)} :: i < |history| ==> StepOk(trail, history, i)
      requires Valid() && A() == trail[|history|]
      modifies this
      ensures Valid() && A() == trail[0]
    {
      var i := |history|;
      while i > 0
        invariant 0 <= i <= |history| && Valid() && A() == trail[i] && |lists| <= INVALID
      {
        i := i - 1;
        assert StepOk(trail, history, i);
        match history[i] {
          case Contraction(u, v, shared) =>
            UncontractRestores(trail[i], u, v, shared);
            var caseTwo, caseOne := Uncontract(u, v, |trail[i].chain.circ[u]|);
          case NetRemoval(u, flags) =>
            RestoreUndoesRemove(trail[i], u, flags);
            var caseTwo, caseOne := RestoreIncidentNets(u);
        }
      }
    }
  }

  /** One step of the contraction phase. */
  datatype Step = Contraction(u: nat, v: nat, shared: set<nat>) | NetRemoval(u: nat, flags: set<nat>)

  ghost predicate StepOk(trail: seq<Incidence>, history: seq<Step>, i: nat)
    requires |trail| == |history| + 1 && i < |history|
  {
    match history[i]
    case Contraction(u, v, shared) => IncidentNets.CanContract(trail[i], u, v) && trail[i + 1] == IncidentNets.Contracted(trail[i], u, v, shared)
    case NetRemoval(u, flags) => CanRemove(trail[i], u) && trail[i + 1] == Removed(trail[i], u, flags)
  }

  ghost predicate Shrunk(l: NetList, l': NetList, flags: set<nat>) {
    l'.Valid() && l'.Current() && l'.Levels() == l.Levels() + [l.ActiveAt(l.version) - flags]
  }

  /** The state of the removal from u when the lists `done` were dealt with. */
  ghost predicate RemovalState(a: Incidence, g: Chains, itNext: seq<nat>, itPrev: seq<nat>, lists: seq<NetList>, degree: seq<int>,
                               u: nat, flags: set<nat>, size0: seq<nat>, done: seq<nat>) {
    && ItersOk(g, itNext, itPrev, Sizes(lists)) && ListsValid(lists) && ListsCurrent(lists)
    && RemovedUpTo(a, u, flags, size0, done, lists, degree)
  }

  ghost predicate RemovalReady(g: Chains, u: nat, i: nat, w: nat, n: nat) {
    && g.Valid() && u < |g.isHead| && g.isHead[u] && n == |g.rep| && i < |g.circ[u]| && w < n
    && g.circ[u][i] == w && w !in g.circ[u][..i] && g.circ[u][0] == u
  }

  lemma RemovalIs(a: Incidence, u: nat, flags: set<nat>, before: seq<NetList>, lists: seq<NetList>, degree: seq<int>)
    requires CanRemove(a, u) && ListsValid(before) && ListsValid(lists) && LevelsOf(before) == a.levels
    requires RemovedUpTo(a, u, flags, Sizes(before), a.chain.circ[u], lists, degree)
    ensures Incidence(LevelsOf(lists), degree, a.chain) == Removed(a, u, flags)
  {
    EntriesFollow(a.degree, u, before, lists, a.chain.circ[u], degree);
    RemovedParts(a, u, flags, LevelsOf(lists), degree);
  }

  lemma RemovedParts(a: Incidence, u: nat, flags: set<nat>, levels: seq<seq<set<nat>>>, degree: seq<int>)
    requires CanRemove(a, u) && levels == LevelsReduced(a.levels, a.chain.circ[u], flags)
    requires degree == a.degree[u := a.degree[u] + (Entries(levels, a.chain.circ[u]) - Entries(a.levels, a.chain.circ[u]))]
    ensures Incidence(levels, degree, a.chain) == Removed(a, u, flags)
  {
    hide Entries, LevelsReduced, Chains.Valid;
  }

  lemma ContractionIs(a: Incidence, u: nat, v: nat, shared: set<nat>)
    requires IncidentNets.CanContract(a, u, v)
    ensures CanRemove(a, v)
    ensures var b := Removed(a, v, shared);
            |b.degree| == |a.degree| && b.chain == a.chain
            && b.(degree := b.degree[u := b.degree[u] + b.degree[v]], chain := Appended(b.chain, u, v)) == IncidentNets.Contracted(a, u, v, shared)
  {
  }

  lemma HeadStarts(g: Chains, u: nat)
    requires g.Valid() && u < |g.rep| && g.isHead[u]
    ensures g.circ[u] != [] && g.circ[u][0] == u && g.circ[u][..0] == []
  {
    assert g.CircleOk(u);
  }

  /** Everything that holds after list w of u was replaced by l. */
  lemma ListRemoved(a: Incidence, g: Chains, itNext: seq<nat>, itPrev: seq<nat>, lists: seq<NetList>, degree: seq<int>,
                    u: nat, flags: set<nat>, size0: seq<nat>, i: nat, w: nat, l: NetList)
    requires RemovalReady(g, u, i, w, |lists|) && RemovalState(a, g, itNext, itPrev, lists, degree, u, flags, size0, g.circ[u][..i])
    requires Shrunk(lists[w], l, flags)
    ensures u < |degree|
    ensures l.size == 0 && w != u ==> w < |itNext| == |itPrev| && itPrev[w] < |itNext| && itNext[w] < |itPrev| && (itPrev[w] == w <==> itNext[w] == w)
    ensures RemovalState(a, g, if l.size == 0 && w != u then NextCut(itNext, itPrev, w, w) else itNext,
                         if l.size == 0 && w != u then PrevCut(itNext, itPrev, w, w) else itPrev, lists[w := l],
                         degree[u := degree[u] + (l.size - lists[w].size)], u, flags, size0, g.circ[u][..i] + [w])
  {
    OneMoreRemoved(a, lists, degree, u, flags, size0, g.circ[u][..i], w, l);
    IterRemoval(g, itNext, itPrev, Sizes(lists), u, i, l.size);
    StillValid(lists, w, l);
    assert g.CircleOk(u);
    assert w == u <==> i == 0;
  }

  lemma OneMoreRemoved(a: Incidence, lists: seq<NetList>, degree: seq<int>, u: nat, flags: set<nat>, size0: seq<nat>, done: seq<nat>, w: nat, l: NetList)
    requires RemovedUpTo(a, u, flags, size0, done, lists, degree) && ListsValid(lists) && ListsCurrent(lists)
    requires w !in done && w < |lists| && Shrunk(lists[w], l, flags)
    ensures u < |degree| && l.size <= lists[w].size && Sizes(lists[w := l]) == Sizes(lists)[w := l.size]
    ensures RemovedUpTo(a, u, flags, size0, done + [w], lists[w := l], degree[u := degree[u] + (l.size - lists[w].size)])
  {
    assert ListValid(lists, w) && ListCurrent(lists, w);
    ListShrinks(lists[w], l, flags);
    LevelsStep(a.levels, done, flags, lists, w, l);
    DegreesStep(a.degree, u, size0, Sizes(lists), done, degree, w, l.size);
    assert Sizes(lists[w := l]) == Sizes(lists)[w := l.size];
  }

  lemma StillValid(lists: seq<NetList>, w: nat, l: NetList)
    requires w < |lists| && ListsValid(lists) && l.Valid()
    ensures ListsValid(lists[w := l])
    ensures ListsCurrent(lists) && l.Current() ==> ListsCurrent(lists[w := l])
  {
    var lists' := lists[w := l];
    forall x: nat | x < |lists| ensures ListValid(lists', x) {
      assert ListValid(lists, x);
    }
    if ListsCurrent(lists) && l.Current() {
      forall x: nat | x < |lists| ensures ListCurrent(lists', x) {
        assert ListCurrent(lists, x);
      }
    }
  }

  // ---------- The steps of a restoration ----------

  /** What is fixed while the lists of u are restored: the abstract state, circles and pointers before. */
  datatype Restoration = Restoration(a: Incidence, degree0: seq<int>, size0: seq<nat>, circ: seq<nat>, itNext0: seq<nat>, itPrev0: seq<nat>)

  predicate LinkNeeded(itPrev: seq<nat>, l: NetList, u: nat, w: nat, last: nat)
    requires w < |itPrev|
  {
    (l.size > 0 || w == u) && last != INVALID && itPrev[w] != last
  }

  ghost predicate RestoringAt(s: Restoration, u: nat, i: nat, lists: seq<NetList>, degree: seq<int>, itNext: seq<nat>, itPrev: seq<nat>, last: nat) {
    && i <= |s.circ| && ListsValid(lists) && RestoredUpTo(s.a, u, s.degree0, s.size0, s.circ[..i], lists, degree)
    && SelfLinked(s.itNext0, s.itPrev0, s.circ, Sizes(lists))
    && (if i == 0 then itNext == s.itNext0 && itPrev == s.itPrev0 && last == INVALID
        else RelinkedUpTo(s.itNext0, s.itPrev0, itNext, itPrev, s.circ, Sizes(lists), i, last) && last != INVALID)
  }

  ghost predicate RestorationReady(s: Restoration, u: nat, i: nat, w: nat, lists: seq<NetList>) {
    && Distinct(s.circ) && i < |s.circ| && s.circ[i] == w && s.circ[0] == u && u < |lists| && w < |lists| == |s.a.levels| == |s.itNext0| == |s.itPrev0| <= INVALID
    && w !in s.circ[..i] && |s.a.levels[w]| > 1
    && Coherent(s.itNext0, s.itPrev0, s.circ)
  }

  ghost predicate Grown(l: NetList, l': NetList) {
    l.version > 0 && l'.Valid() && l'.Levels() == l.Levels()[..l.version] && l.size <= l'.size
  }

  lemma ListReady(s: Restoration, u: nat, i: nat, w: nat, lists: seq<NetList>, degree: seq<int>, itNext: seq<nat>, itPrev: seq<nat>, last: nat)
    requires RestorationReady(s, u, i, w, lists) && RestoringAt(s, u, i, lists, degree, itNext, itPrev, last)
    ensures u < |lists| && w < |lists| == |s.a.levels|
    ensures lists[w].Valid() && lists[w].version > 0 && lists[w].Levels() == s.a.levels[w]
    ensures w < |s.size0| && lists[w].size == s.size0[w]
    ensures u < |degree| && w < |itPrev| && (last < |itNext| || last == INVALID)
  {
    assert ListValid(lists, w);
    assert LevelsOf(lists)[w] == LevelsRestored(s.a.levels, s.circ[..i])[w];
    assert UnchangedAt(s.size0, Sizes(lists), w);
  }

  lemma LevelsSplit(s: Restoration, l: NetList, l': NetList, w: nat, caseTwo: seq<nat>, caseOne: seq<nat>)
    requires forall n: nat :: n in caseTwo <==> n in l.ActiveAt(l.version)
    requires l.version > 0 && l'.version == l.version - 1 && forall n: nat :: n in caseOne <==> n in l'.ActiveAt(l'.version) - l.ActiveAt(l.version)
    requires w < |s.a.levels| && l.Levels() == s.a.levels[w] && l.version > 0 && l'.entries == l.entries && l'.version == l.version - 1
    ensures l.ActiveAt(l.version) == Newest(s.a.levels[w])
    ensures l'.ActiveAt(l'.version) == Newest(s.a.levels[w][..|s.a.levels[w]| - 1])
    ensures Reports(caseTwo, Newest(s.a.levels[w]))
    ensures Reports(caseOne, Newest(s.a.levels[w][..|s.a.levels[w]| - 1]) - Newest(s.a.levels[w]))
  {
    assert l.Levels()[l.version] == l.ActiveAt(l.version) && l.Levels()[l.version - 1] == l.ActiveAt(l.version - 1);
    forall n: nat ensures ReportedAt(caseTwo, Newest(s.a.levels[w]), n) {}
    var back := Newest(s.a.levels[w][..|s.a.levels[w]| - 1]) - Newest(s.a.levels[w]);
    forall n: nat ensures ReportedAt(caseOne, back, n) {}
  }

  lemma ListRestored(s: Restoration, u: nat, i: nat, w: nat, lists: seq<NetList>, degree: seq<int>, itNext: seq<nat>, itPrev: seq<nat>, last: nat, l: NetList)
    requires RestorationReady(s, u, i, w, lists) && RestoringAt(s, u, i, lists, degree, itNext, itPrev, last)
    requires lists[w].Valid() && Grown(lists[w], l)
    ensures u < |degree| && w < |itPrev| && (last < |itNext| || last == INVALID)
    ensures var link := LinkNeeded(itPrev, l, u, w, last);
            RestoringAt(s, u, i + 1, lists[w := l], degree[u := degree[u] + (l.size - lists[w].size)],
                        if link then itNext[last := w] else itNext, if link then itPrev[w := last] else itPrev,
                        if l.size > 0 || w == u then w else last)
  {
    RestoredLevels(s.a.levels, s.circ[..i], lists, w, l);
    DegreesStep(s.degree0, u, s.size0, Sizes(lists), s.circ[..i], degree, w, l.size);
    assert s.circ[..i + 1] == s.circ[..i] + [w];
    StillValid(lists, w, l);
    assert Sizes(lists[w := l]) == Sizes(lists)[w := l.size];
    SelfLinkedGrows(s.itNext0, s.itPrev0, s.circ, Sizes(lists), w, l.size);
    RelinkStep(s, u, i, w, Sizes(lists), l.size, itNext, itPrev, last);
  }

  lemma SelfLinkedGrows(itNext: seq<nat>, itPrev: seq<nat>, c: seq<nat>, size: seq<nat>, w: nat, n: nat)
    requires SelfLinked(itNext, itPrev, c, size) && w < |size| && size[w] <= n
    ensures SelfLinked(itNext, itPrev, c, size[w := n])
  {
    var size' := size[w := n];
    forall i: nat | 0 < i < |c| ensures SelfLinkedAt(itNext, itPrev, c, size', i) {
      assert SelfLinkedAt(itNext, itPrev, c, size, i);
    }
  }

  lemma RelinkStep(s: Restoration, u: nat, i: nat, w: nat, size: seq<nat>, n: nat, itNext: seq<nat>, itPrev: seq<nat>, last: nat)
    requires Distinct(s.circ) && i < |s.circ| && s.circ[i] == w && s.circ[0] == u && u < |size| && w < |size| == |s.itNext0| == |s.itPrev0| <= INVALID
    requires w !in s.circ[..i] && Coherent(s.itNext0, s.itPrev0, s.circ) && size[w] <= n
    requires if i == 0 then itNext == s.itNext0 && itPrev == s.itPrev0 && last == INVALID
             else RelinkedUpTo(s.itNext0, s.itPrev0, itNext, itPrev, s.circ, size, i, last) && last != INVALID
    ensures |itNext| == |itPrev| == |size| && (last < |itNext| || last == INVALID)
    ensures var link := (n > 0 || w == u) && last != INVALID && itPrev[w] != last;
            RelinkedUpTo(s.itNext0, s.itPrev0, if link then itNext[last := w] else itNext, if link then itPrev[w := last] else itPrev,
                         s.circ, size[w := n], i + 1, if n > 0 || w == u then w else last)
  {
    var size' := size[w := n];
    if i == 0 {
      RelinkStart(itNext, itPrev, s.circ, size');
    } else {
      RelinkFrame(s.itNext0, s.itPrev0, itNext, itPrev, s.circ, size, size', i, last, w);
      if n > 0 {
        RelinkFilled(s.itNext0, s.itPrev0, itNext, itPrev, s.circ, size', i, last, w);
      } else {
        RelinkEmpty(s.itNext0, s.itPrev0, itNext, itPrev, s.circ, size', i, last);
      }
    }
  }

  lemma RelinkFrame(itNext0: seq<nat>, itPrev0: seq<nat>, itNext: seq<nat>, itPrev: seq<nat>, c: seq<nat>, size: seq<nat>, size': seq<nat>, i: nat, last: nat, w: nat)
    requires RelinkedUpTo(itNext0, itPrev0, itNext, itPrev, c, size, i, last) && w !in c[..i] && w < |size| == |size'| && size' == size[w := size'[w]]
    ensures RelinkedUpTo(itNext0, itPrev0, itNext, itPrev, c, size', i, last)
  {
    forall k | 0 < k < i ensures c[..i][k] != w { assert c[..i][k] in c[..i]; }
    LiveFrame(c[..i], size, size');
  }

  /** u is a head, its circle is s.circ, and its pointers are good enough to relink it. */
  ghost predicate RestorationStarts(s: Restoration, g: Chains, u: nat, lists: seq<NetList>, degree: seq<int>, itNext: seq<nat>, itPrev: seq<nat>) {
    && g.Valid() && u < |g.rep| && g.isHead[u] && s.circ == g.circ[u] && |lists| == |g.rep| == |degree| == |itNext| == |itPrev| <= INVALID
    && ListsValid(lists) && LevelsOf(lists) == s.a.levels && Sizes(lists) == s.size0 && degree == s.degree0 && itNext == s.itNext0 && itPrev == s.itPrev0
    && Coherent(itNext, itPrev, s.circ) && SelfLinked(itNext, itPrev, s.circ, Sizes(lists))
    && Restorable(s.a.levels, s.circ)
  }

  ghost predicate CircleToRestore(s: Restoration, g: Chains, u: nat, n: nat) {
    && g.Valid() && u < |g.rep| && g.isHead[u] && s.circ == g.circ[u] && n == |g.rep| == |s.itNext0| == |s.itPrev0| == |s.a.levels| <= INVALID
    && Coherent(s.itNext0, s.itPrev0, s.circ) && Restorable(s.a.levels, s.circ)
  }

  lemma FirstList(s: Restoration, g: Chains, u: nat, lists: seq<NetList>, degree: seq<int>, itNext: seq<nat>, itPrev: seq<nat>)
    requires RestorationStarts(s, g, u, lists, degree, itNext, itPrev)
    ensures s.circ != [] && s.circ[0] == u && Distinct(s.circ) && CircleToRestore(s, g, u, |lists|)
    ensures RestoringAt(s, u, 0, lists, degree, itNext, itPrev, INVALID)
  {
    assert g.CircleOk(u);
    assert s.circ[..0] == [];
    RestorationBegins(s.a, u, s.degree0, lists);
  }

  lemma ListComes(s: Restoration, g: Chains, u: nat, i: nat, lists: seq<NetList>)
    requires CircleToRestore(s, g, u, |lists|) && i < |s.circ|
    ensures RestorationReady(s, u, i, s.circ[i], lists)
  {
    assert g.CircleOk(u) && s.circ[i] in s.circ;
    assert RestorableAt(s.a.levels, s.circ[i]);
  }

  ghost predicate OnlyCircleChanged(s: Restoration, itNext: seq<nat>, itPrev: seq<nat>) {
    forall w: nat {:trigger SameAt(s.itNext0, s.itPrev0, itNext, itPrev, w)} :: w !in s.circ ==> SameAt(s.itNext0, s.itPrev0, itNext, itPrev, w)
  }

  lemma NothingReported(s: Restoration)
    ensures ReportedUpTo(s, 0, [], [])
  {
    assert s.circ[..0] == [];
    forall n: nat ensures ReportedAt([], {}, n) {}
  }

  /** `nets` are exactly the nets that were reported. */
  ghost predicate Reports(reported: seq<nat>, nets: set<nat>) {
    forall n: nat {:trigger ReportedAt(reported, nets, n)} :: ReportedAt(reported, nets, n)
  }

  ghost predicate ReportedAt(reported: seq<nat>, nets: set<nat>, n: nat) {
    n in reported <==> n in nets
  }

  lemma AllReported(nets: seq<nat>, some: set<nat>, done: set<nat>)
    requires Reports(nets, some) && done <= some && forall k :: 0 <= k < |nets| ==> nets[k] in done
    ensures done == some
  {
    forall e: nat | e in some ensures e in done {
      assert ReportedAt(nets, some, e);
    }
  }

  ghost predicate ReportedUpTo(s: Restoration, i: nat, caseTwo: seq<nat>, caseOne: seq<nat>)
    requires i <= |s.circ|
  {
    && Reports(caseTwo, NetsIn(s.a.levels, s.circ[..i])) && Reports(caseOne, NetsReturned(s.a.levels, s.circ[..i]))
    && |caseTwo| == Total(s.size0, s.circ[..i])
  }

  lemma ReportsAppend(a: seq<nat>, nets: set<nat>, b: seq<nat>, more: set<nat>)
    requires Reports(a, nets) && Reports(b, more)
    ensures Reports(a + b, nets + more)
  {
    var c, all := a + b, nets + more;
    forall n: nat ensures ReportedAt(c, all, n) {
      assert ReportedAt(a, nets, n) && ReportedAt(b, more, n);
    }
  }

  lemma ReportsGrow(s: Restoration, i: nat, caseTwo: seq<nat>, caseOne: seq<nat>, two: seq<nat>, one: seq<nat>)
    requires i < |s.circ| && s.circ[i] < |s.a.levels| && s.a.levels[s.circ[i]] != [] && ReportedUpTo(s, i, caseTwo, caseOne)
    requires Reports(two, Newest(s.a.levels[s.circ[i]])) && s.circ[i] < |s.size0| && |two| == s.size0[s.circ[i]]
    requires var l := s.a.levels[s.circ[i]]; Reports(one, Newest(l[..|l| - 1]) - Newest(l))
    ensures ReportedUpTo(s, i + 1, caseTwo + two, caseOne + one)
  {
    var l := s.a.levels[s.circ[i]];
    assert s.circ[..i + 1][..i] == s.circ[..i];
    ReportsAppend(caseTwo, NetsIn(s.a.levels, s.circ[..i]), two, Newest(l));
    ReportsAppend(caseOne, NetsReturned(s.a.levels, s.circ[..i]), one, Newest(l[..|l| - 1]) - Newest(l));
  }

  lemma LastList(s: Restoration, u: nat, lists: seq<NetList>, degree: seq<int>, itNext: seq<nat>, itPrev: seq<nat>, last: nat)
    requires s.circ != [] && s.circ[0] == u && Distinct(s.circ) && RestoringAt(s, u, |s.circ|, lists, degree, itNext, itPrev, last)
    ensures u < |itPrev| && last < |itNext| == |itPrev|
    ensures RestoredUpTo(s.a, u, s.degree0, s.size0, s.circ, lists, degree)
    ensures IterOk(itNext[last := u], itPrev[u := last], s.circ, Sizes(lists))
    ensures s.circ[..|s.circ|] == s.circ
    ensures OnlyCircleChanged(s, itNext[last := u], itPrev[u := last])
  {
    var c, n, p := s.circ, itNext[last := u], itPrev[u := last];
    assert c[..|c|] == c;
    RelinkEnd(s.itNext0, s.itPrev0, itNext, itPrev, c, Sizes(lists), last);
    LiveMembers(c, Sizes(lists));
    forall w: nat | w !in c ensures SameAt(s.itNext0, s.itPrev0, n, p, w) {
      assert SameAt(s.itNext0, s.itPrev0, itNext, itPrev, w) && last in c && u in c;
    }
  }

  lemma IntactCircle(s: Restoration, g: Chains, u: nat, lists: seq<NetList>)
    requires g.Valid() && ItersOk(g, s.itNext0, s.itPrev0, Sizes(lists)) && u < |g.rep| && g.isHead[u] && s.circ == g.circ[u]
    requires |lists| == |g.rep| == |s.degree0| <= INVALID && ListsValid(lists) && LevelsOf(lists) == s.a.levels && Sizes(lists) == s.size0
    requires Restorable(s.a.levels, s.circ)
    ensures RestorationStarts(s, g, u, lists, s.degree0, s.itNext0, s.itPrev0)
  {
    assert g.CircleOk(u) && IterAt(g, s.itNext0, s.itPrev0, Sizes(lists), u);
    RingCoherent(s.itNext0, s.itPrev0, s.circ, Sizes(lists));
  }

  lemma RestorationIs(s: Restoration, u: nat, before: seq<NetList>, lists: seq<NetList>, degree: seq<int>)
    requires CanRestore(s.a, u) && s.circ == s.a.chain.circ[u] && s.degree0 == s.a.degree && s.size0 == Sizes(before)
    requires ListsValid(before) && ListsValid(lists) && LevelsOf(before) == s.a.levels
    requires RestoredUpTo(s.a, u, s.degree0, s.size0, s.circ, lists, degree)
    ensures Incidence(LevelsOf(lists), degree, s.a.chain) == Restored(s.a, u)
  {
    hide ListsValid, Entries, Total, LevelsRestored;
    EntriesFollow(s.degree0, u, before, lists, s.circ, degree);
  }

  lemma TailOf(g: Chains, next: seq<nat>, prev: seq<nat>, tail: seq<nat>, v: nat)
    requires g.Valid() && ListsOk(g, next, prev, tail) && v < |g.rep| && g.rep[v] != v
    ensures v < |tail| && g.circ[v] != [] && tail[v] == g.circ[v][|g.circ[v]| - 1]
  {
    assert g.CircleOk(v) && ListOk(next, prev, tail, g.circ, g.isHead, v);
  }

  lemma UncontractionIs(s: Restoration, u: nat, v: nat, k: nat, before: seq<NetList>, lists: seq<NetList>, degree: seq<int>)
    requires IncidentNets.InRange(s.a, u, v) && k + |s.a.chain.circ[v]| <= |s.a.chain.circ[u]| && s.circ == s.a.chain.circ[v]
    requires s.degree0 == s.a.degree[u := s.a.degree[u] - s.a.degree[v]] && s.size0 == Sizes(before) && u != v
    requires ListsValid(before) && ListsValid(lists) && LevelsOf(before) == s.a.levels
    requires RestoredUpTo(s.a, v, s.degree0, s.size0, s.circ, lists, degree)
    ensures Incidence(LevelsOf(lists), degree, Spliced(s.a.chain, u, v, k)) == IncidentNets.Uncontracted(s.a, u, v, k)
  {
    hide ListsValid, Entries, Total, Spliced, AllReturned;
    EntriesFollow(s.degree0, v, before, lists, s.circ, degree);
  }

  lemma CircleDone(s: Restoration, g: Chains, u: nat, before: seq<NetList>, lists: seq<NetList>, itNext: seq<nat>, itPrev: seq<nat>)
    requires g.Valid() && OthersOk(g, s.itNext0, s.itPrev0, Sizes(before), u) && u < |g.rep| && g.isHead[u] && s.circ == g.circ[u]
    requires OnlyCircleChanged(s, itNext, itPrev) && IterOk(itNext, itPrev, s.circ, Sizes(lists)) && |itNext| == |itPrev| == |lists| == |before|
    requires LevelsOf(before) == s.a.levels && LevelsOf(lists) == LevelsRestored(s.a.levels, s.circ) && ListsValid(before) && ListsValid(lists)
    ensures ItersOk(g, itNext, itPrev, Sizes(lists))
  {
    forall w: nat | w < |lists| && w !in s.circ ensures Sizes(lists)[w] == Sizes(before)[w] {
      assert ListValid(before, w) && ListValid(lists, w);
      assert LevelsOf(before)[w] == LevelsOf(lists)[w] by { assert LevelsRestored(s.a.levels, s.circ)[w] == s.a.levels[w]; }
      SameSize(before[w], lists[w]);
    }
    OthersUntouched(g, s.itNext0, s.itPrev0, itNext, itPrev, Sizes(before), Sizes(lists), u);
  }

  lemma SameSize(l: NetList, l': NetList)
    requires l.Valid() && l'.Valid() && l.Levels() == l'.Levels()
    ensures l.size == l'.size
  {
    SizeCounts(l);
    SizeCounts(l');
    assert l.Levels()[l.version] == l'.Levels()[l.version];
  }

  ghost predicate SegmentReady(s: Restoration, g: Chains, v: nat, lists: seq<NetList>) {
    && v < |g.rep| == |g.isHead| == |g.circ| && g.isHead[v] && s.circ == g.circ[v]
    && |lists| == |g.rep| == |s.degree0| == |s.itNext0| == |s.itPrev0| <= INVALID && ListsValid(lists) && LevelsOf(lists) == s.a.levels && Sizes(lists) == s.size0
    && Coherent(s.itNext0, s.itPrev0, s.circ) && SelfLinked(s.itNext0, s.itPrev0, s.circ, Sizes(lists))
    && Restorable(s.a.levels, s.circ)
  }

  lemma SegmentToRestore(s: Restoration, g: Chains, v: nat, lists: seq<NetList>)
    requires g.Valid() && SegmentReady(s, g, v, lists)
    ensures RestorationStarts(s, g, v, lists, s.degree0, s.itNext0, s.itPrev0)
  {
  }

  // ---------- Iterating over the incident nets ----------

  lemma ActiveNetsReported(lists: seq<NetList>, w: nat, nets: seq<nat>)
    requires w < |lists| && ListsValid(lists) && forall n: nat :: n in nets <==> n in lists[w].ActiveAt(lists[w].version)
    ensures Reports(nets, Newest(LevelsOf(lists)[w]))
  {
    var newest := Newest(LevelsOf(lists)[w]);
    assert newest == lists[w].ActiveAt(lists[w].version);
    forall n: nat ensures ReportedAt(nets, newest, n) {}
  }

  ghost predicate ListedUpTo(levels: seq<seq<set<nat>>>, size: seq<nat>, done: seq<nat>, nets: seq<nat>) {
    Reports(nets, NetsIn(levels, done)) && |nets| == Total(size, done)
  }

  lemma NothingListed(l: seq<nat>)
    ensures l[..0] == [] && Reports([], {})
  {
    forall n: nat ensures ReportedAt([], {}, n) {}
  }

  lemma ListedMore(levels: seq<seq<set<nat>>>, size: seq<nat>, l: seq<nat>, i: nat, nets: seq<nat>, more: seq<nat>)
    requires i < |l| && l[i] < |levels| == |size| && ListedUpTo(levels, size, l[..i], nets)
    requires |more| == size[l[i]] && Reports(more, Newest(levels[l[i]]))
    ensures ListedUpTo(levels, size, l[..i + 1], nets + more)
  {
    assert l[..i + 1][..i] == l[..i];
    ReportsAppend(nets, NetsIn(levels, l[..i]), more, Newest(levels[l[i]]));
  }

  lemma OneList(lists: seq<NetList>, w: nat)
    requires ListsValid(lists)
    ensures Total(Sizes(lists), IfFilled(w, Sizes(lists))) == Total(Sizes(lists), [w])
    ensures NetsIn(LevelsOf(lists), IfFilled(w, Sizes(lists))) == NetsIn(LevelsOf(lists), [w])
  {
    if w < |lists| {
      assert ListValid(lists, w);
      NewestSize(lists[w]);
    }
    assert [w][..0] == [];
  }

  /** Empty lists contribute neither nets nor entries. */
  lemma {:induction false} FilledIsAll(lists: seq<NetList>, c: seq<nat>)
    requires ListsValid(lists)
    ensures Total(Sizes(lists), Filled(c, Sizes(lists))) == Total(Sizes(lists), c)
    ensures NetsIn(LevelsOf(lists), Filled(c, Sizes(lists))) == NetsIn(LevelsOf(lists), c)
  {
    if c != [] {
      var d, w, size, levels := c[..|c| - 1], c[|c| - 1], Sizes(lists), LevelsOf(lists);
      var f := Filled(d, size);
      assert c == d + [w];
      FilledIsAll(lists, d);
      OneList(lists, w);
      TotalAppend(size, d, [w]);
      TotalAppend(size, f, IfFilled(w, size));
      NetsAppend(levels, d, [w]);
      NetsAppend(levels, f, IfFilled(w, size));
      FilledAppend(d, [w], size);
      FilledFirst(w, [], size);
      assert [w] + [] == [w];
    }
  }

  lemma NewestSize(l: NetList)
    requires l.Valid()
    ensures |Newest(l.Levels())| == l.size
    ensures l.size == 0 ==> Newest(l.Levels()) == {}
  {
    SizeCounts(l);
    assert Newest(l.Levels()) == l.ActiveAt(l.version);
  }

  lemma LiveIsAll(lists: seq<NetList>, c: seq<nat>)
    requires ListsValid(lists) && c != []
    ensures Total(Sizes(lists), Live(c, Sizes(lists))) == Total(Sizes(lists), c)
    ensures NetsIn(LevelsOf(lists), Live(c, Sizes(lists))) == NetsIn(LevelsOf(lists), c)
  {
    var t := c[1..];
    assert c == [c[0]] + t;
    FilledIsAll(lists, t);
    TotalAppend(Sizes(lists), [c[0]], t);
    TotalAppend(Sizes(lists), [c[0]], Filled(t, Sizes(lists)));
    NetsAppend(LevelsOf(lists), [c[0]], t);
    NetsAppend(LevelsOf(lists), [c[0]], Filled(t, Sizes(lists)));
  }

  lemma {:induction false} TotalAppend(size: seq<nat>, a: seq<nat>, b: seq<nat>)
    ensures Total(size, a + b) == Total(size, a) + Total(size, b)
    decreases |b|
  {
    if b == [] {
      assert a + b == a;
    } else {
      assert (a + b)[..|a + b| - 1] == a + b[..|b| - 1];
      TotalAppend(size, a, b[..|b| - 1]);
    }
  }

  /** A node whose nets are listed once gets every net once. */
  lemma ListedWithoutRepetition(nets: seq<nat>, all: set<nat>)
    requires Reports(nets, all) && |nets| == |all|
    ensures forall i, j :: 0 <= i < j < |nets| ==> nets[i] != nets[j]
  {
    forall i, j | 0 <= i < j < |nets| ensures nets[i] != nets[j] {
      if nets[i] == nets[j] {
        var rest := nets[..j] + nets[j + 1..];
        forall n | n in all ensures n in rest {
          assert n in nets by { assert n >= 0 ==> ReportedAt(nets, all, n); }
          var k :| 0 <= k < |nets| && nets[k] == n;
          assert rest[if k < j then k else if k == j then i else k - 1] == n;
        }
        ElementsAtMost(rest, all);
        assert false;
      }
    }
  }

  lemma {:induction false} ElementsAtMost(s: seq<nat>, all: set<nat>)
    requires forall n :: n in all ==> n in s
    ensures |all| <= |s|
  {
    if s == [] {
      assert all == {};
    } else {
      var t, x := s[..|s| - 1], s[|s| - 1];
      forall n | n in all - {x} ensures n in t {
        var k :| 0 <= k < |s| && s[k] == n;
        assert t[k] == n;
      }
      ElementsAtMost(t, all - {x});
    }
  }
}
