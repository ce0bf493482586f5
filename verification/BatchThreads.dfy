/** The threads that schedule a version, together with the assigner they share. */
module BatchThreads {
  import opened FiniteSets
  import opened Sums
  import opened BatchSchedule
  import A = BatchAssigner

  // A turn of a thread is one request: the thread chooses a group, asks for a place above its current batch,
  // and goes on once it got one. In between come the single steps of all requests. The current batch of a
  // thread is what the assigner sees as its local index.

  datatype Phase =
    | Looping                                                                          // between two turns, or passing to the next level
    | Asked(k: nat, until: nat, hull: Interval, from: nat, given: seq<Group>)         // `given` is the place once there is one

  datatype State = State(assigner: A.State, work: seq<Work>, phase: seq<Phase>)

  datatype Action =
    | Ask(t: nat, k: nat, until: nat, hull: Interval)
    | Inner(a: A.Action)
    | Answer(t: nat)

  function ThreadOf(a: Action): nat {
    if a.Inner? then a.a.t else a.t
  }

  ghost predicate Sized(s: State) {
    |s.work| == |s.phase| == |s.assigner.threads| == |s.assigner.local|
  }

  ghost predicate Enabled(h: Hierarchy, ver: nat, s: State, a: Action) {
    && Sized(s) && ThreadOf(a) < |s.work|
    && match a
       case Ask(t, k, until, hull) =>
         && s.phase[t].Looping? && Chosen(h, ver, s.work[t], k, until, hull)
         && A.Enabled(s.assigner, A.Request(t, until - s.work[t].pq[k].pos))
       case Inner(i) => !i.Request? && !i.LevelUp? && A.Enabled(s.assigner, i)
       case Answer(t) =>
         && s.phase[t].Asked? && |s.phase[t].given| == 1 && s.assigner.threads[t] == A.Ready(true)
         && Chosen(h, ver, s.work[t], s.phase[t].k, s.phase[t].until, s.phase[t].hull)
         && A.Enabled(s.assigner, A.LevelUp(t))
  }

  /** The step hands out a place. */
  ghost predicate Places(s: State, i: A.Action)
    requires Sized(s) && A.Enabled(s.assigner, i)
  {
    i.Probe? && s.phase[i.t].Asked? && s.assigner.counter[s.assigner.threads[i.t].cur] < s.assigner.maxBatchSize
  }

  ghost function Place(s: State, t: nat): Group
    requires Sized(s) && t < |s.work| && s.assigner.threads[t].Probing? && s.assigner.threads[t].cur < |s.assigner.counter|
  {
    var th := s.assigner.threads[t];
    Group(th.cur, s.assigner.counter[th.cur], |s.work[t].out|, th.num)
  }

  ghost function Apply(h: Hierarchy, ver: nat, s: State, a: Action): State
    requires Enabled(h, ver, s, a)
  {
    match a
    case Ask(t, k, until, hull) =>
      s.(assigner := A.Apply(s.assigner, A.Request(t, until - s.work[t].pq[k].pos)),
         phase := s.phase[t := Asked(k, until, hull, s.assigner.local[t], [])])
    case Inner(i) =>
      s.(assigner := A.Apply(s.assigner, i),
         phase := if Places(s, i) then s.phase[i.t := s.phase[i.t].(given := [Place(s, i.t)])] else s.phase)
    case Answer(t) =>
      var p := s.phase[t];
      s.(work := s.work[t := Turned(h, ver, s.work[t], p.k, p.until, p.hull, p.given[0].batch, p.given[0].base)],
         phase := s.phase[t := Looping],
         assigner := if LevelDone(h, ver, s.work[t], p.k, p.until, p.hull) then A.Apply(s.assigner, A.LevelUp(t)) else s.assigner)
  }

  // ---------- The invariant ----------

  /** Nothing is being requested. */
  predicate AtTop(th: A.Thread) {
    match th
    case Ready(_) => true
    case Scanning(_, _) => true
    case Marking(_, _, requested) => !requested
    case Raising(_, _, _, requested) => !requested
    case _ => false
  }

  /** A request for `num` places from batch `from` on is being served. */
  predicate Serving(th: A.Thread, local: nat, from: nat, num: nat, lo: nat, given: seq<Group>) {
    match th
    case Checked(min, n) => min == from && n == num && given == []
    case Probing(min, _, n, _) => min == from && n == num && given == []
    case Positioned(min, cur, n, _) => min == from && n == num && GivenIn(given, cur, num, lo)
    case Marking(min, target, requested) => requested && min == from && GivenIn(given, target, num, lo)
    case Raising(min, target, _, requested) => requested && min == from && GivenIn(given, target, num, lo)
    case Ready(requested) => requested && from <= local && GivenIn(given, local, num, lo)
    case Scanning(_, _) => false
  }

  predicate GivenIn(given: seq<Group>, b: nat, num: nat, lo: nat) {
    |given| == 1 && given[0].batch == b && given[0].num == num && given[0].lo == lo
  }

  ghost predicate ThreadOk(h: Hierarchy, ver: nat, roots: set<nat>, w: Work, p: Phase, th: A.Thread, local: nat) {
    match p
    case Looping => Between(h, ver, roots, w, local) && AtTop(th)
    case Asked(k, until, hull, from, given) =>
      && Between(h, ver, roots, w, from) && Chosen(h, ver, w, k, until, hull)
      && Serving(th, local, from, until - w.pq[k].pos, |w.out|, given)
  }

  /** The answers that thread t got, the one it has not used yet included. */
  function Claimed(w: Work, p: Phase): seq<Group> {
    w.groups + (if p.Asked? then p.given else [])
  }

  ghost function Claims(s: State): (r: seq<seq<Group>>)
    requires Sized(s)
    ensures |r| == |s.work| && forall t :: 0 <= t < |r| ==> r[t] == Claimed(s.work[t], s.phase[t])
  {
    seq(|s.work|, t requires 0 <= t < |s.work| => Claimed(s.work[t], s.phase[t]))
  }

  ghost predicate IsAnswer(logs: seq<seq<Group>>, t: nat, i: nat) {
    t < |logs| && i < |logs[t]|
  }

  ghost predicate IsRange(ranges: seq<seq<A.Range>>, b: nat, j: nat) {
    b < |ranges| && j < |ranges[b]|
  }

  /** The answers that the threads got are the ranges that the assigner handed out, each of them once. */
  ghost predicate Answered(logs: seq<seq<Group>>, ranges: seq<seq<A.Range>>) {
    && (forall t: nat, i: nat {:trigger IsAnswer(logs, t, i)} :: IsAnswer(logs, t, i) ==> HandedOut(ranges, logs[t][i]))
    && (forall b: nat, j: nat {:trigger IsRange(ranges, b, j)} :: IsRange(ranges, b, j) ==> Received(logs, b, ranges[b][j]))
    && (forall t: nat, i: nat, t': nat, i': nat {:trigger IsAnswer(logs, t, i), IsAnswer(logs, t', i')} ::
          IsAnswer(logs, t, i) && IsAnswer(logs, t', i') && logs[t][i].batch == logs[t'][i'].batch && logs[t][i].base == logs[t'][i'].base ==> t == t' && i == i')
  }

  ghost predicate HandedOut(ranges: seq<seq<A.Range>>, g: Group) {
    g.batch < |ranges| && A.Range(g.base, g.num) in ranges[g.batch]
  }

  ghost predicate Received(logs: seq<seq<Group>>, b: nat, r: A.Range) {
    exists t: nat, i: nat :: IsAnswer(logs, t, i) && logs[t][i].batch == b && logs[t][i].base == r.base && logs[t][i].num == r.num
  }

  /** v is contracted in the version. */
  ghost predicate OfVersion(h: Hierarchy, ver: nat, v: nat)
    requires h.Shape()
  {
    h.IsNode(v) && h.parent[v] != v && h.version[v] == ver
  }

  ghost function VersionNodes(h: Hierarchy, ver: nat): set<nat>
    requires h.Shape()
  {
    set v: nat | v < |h.parent| && OfVersion(h, ver, v)
  }

  /** The contractions that a thread has assigned or asked a place for. */
  ghost function Taken(h: Hierarchy, w: Work, p: Phase): set<nat> {
    w.p.batch.Keys + (if p.Asked? then Members(h, w, p.k, p.until) else {})
  }

  ghost function Members(h: Hierarchy, w: Work, k: nat, until: nat): set<nat> {
    if k < |w.pq| && w.pq[k].u < |h.childs| && w.pq[k].pos <= until <= |h.childs[w.pq[k].u]|
    then RootSet(h.childs[w.pq[k].u][w.pq[k].pos..until]) else {}
  }

  ghost function TakenColumn(h: Hierarchy, s: State): (r: seq<int>)
    requires Sized(s)
    ensures |r| == |s.work| && forall t :: 0 <= t < |r| ==> r[t] == |Taken(h, s.work[t], s.phase[t])|
  {
    seq(|s.work|, t requires 0 <= t < |s.work| => |Taken(h, s.work[t], s.phase[t])|)
  }

  /** The roots of the version are split among the threads, in any way. */
  ghost predicate Split(roots: set<nat>, parts: seq<seq<nat>>) {
    && (forall r: nat :: r in roots <==> exists t :: 0 <= t < |parts| && r in parts[t])
    && (forall t, t', r {:trigger r in parts[t], r in parts[t']} :: 0 <= t < t' < |parts| && r in parts[t] ==> r !in parts[t'])
  }

  /** What the threads need to start: disjoint parts of the roots of the version. */
  ghost predicate CanStart(h: Hierarchy, ver: nat, parts: seq<seq<nat>>) {
    && h.Valid() && h.parent != []
    && NodesOnly(h, parts) && (forall t :: 0 <= t < |parts| ==> PartOk(h, ver, parts[t]))
    && (forall t, t', r {:trigger r in parts[t], r in parts[t']} :: 0 <= t < t' < |parts| && r in parts[t] ==> r !in parts[t'])
  }

  ghost predicate PartOk(h: Hierarchy, ver: nat, part: seq<nat>) {
    RootsOk(h, ver, RootSet(part)) && NoTwice(part)
  }

  ghost predicate NodesOnly(h: Hierarchy, parts: seq<seq<nat>>) {
    h.Shape() && forall t, r {:trigger r in parts[t]} :: 0 <= t < |parts| && r in parts[t] ==> h.IsNode(r)
  }

  ghost predicate Inv(h: Hierarchy, ver: nat, parts: seq<seq<nat>>, s: State) {
    && CanStart(h, ver, parts) && A.Inv(s.assigner) && Sized(s) && |parts| == |s.work|
    && (forall t {:trigger ThreadIsOk(h, ver, parts, s, t)} :: 0 <= t < |parts| ==> ThreadIsOk(h, ver, parts, s, t))
    && Answered(Claims(s), s.assigner.ranges)
    && s.assigner.remaining + Sum(TakenColumn(h, s)) == |VersionNodes(h, ver)|
  }

  ghost predicate ThreadIsOk(h: Hierarchy, ver: nat, parts: seq<seq<nat>>, s: State, t: int)
    requires Sized(s) && |parts| == |s.work| && 0 <= t < |parts|
  {
    ThreadOk(h, ver, RootSet(parts[t]), s.work[t], s.phase[t], s.assigner.threads[t], s.assigner.local[t])
  }

  // ---------- Every step keeps it ----------

  /** The step of the assigner that a thread takes, if it takes one. */
  ghost predicate AssignerStep(h: Hierarchy, ver: nat, s: State, a: Action)
    requires Enabled(h, ver, s, a)
  {
    a.Answer? ==> LevelDone(h, ver, s.work[a.t], s.phase[a.t].k, s.phase[a.t].until, s.phase[a.t].hull)
  }

  ghost function StepOf(h: Hierarchy, ver: nat, s: State, a: Action): (i: A.Action)
    requires Enabled(h, ver, s, a)
    ensures A.Enabled(s.assigner, i) && i.t == ThreadOf(a)
    ensures Apply(h, ver, s, a).assigner == if AssignerStep(h, ver, s, a) then A.Apply(s.assigner, i) else s.assigner
  {
    match a
    case Ask(t, k, until, hull) => A.Request(t, until - s.work[t].pq[k].pos)
    case Inner(i) => i
    case Answer(t) => A.LevelUp(t)
  }

  lemma AssignerKeeps(h: Hierarchy, ver: nat, parts: seq<seq<nat>>, s: State, a: Action)
    requires Inv(h, ver, parts, s) && Enabled(h, ver, s, a)
    ensures var s' := Apply(h, ver, s, a);
            && A.Inv(s'.assigner) && Sized(s') && |s'.work| == |s.work| && s'.assigner.maxBatchSize == s.assigner.maxBatchSize
            && forall t :: 0 <= t < |s.work| && t != ThreadOf(a) ==>
                 s'.work[t] == s.work[t] && s'.phase[t] == s.phase[t]
                 && s'.assigner.threads[t] == s.assigner.threads[t] && s'.assigner.local[t] == s.assigner.local[t]
  {
    hide A.Inv, A.Apply, A.Enabled, Turned, Chosen, LevelDone, Answered, ThreadIsOk, CanStart, Places, StepOf, AssignerStep, Place;
    var i := StepOf(h, ver, s, a);
    if AssignerStep(h, ver, s, a) {
      A.StepKeeps(s.assigner, i);
      A.FrontGrows(s.assigner, i);
      A.FrontAfter(s.assigner, i);
    }
  }

  /** The step of the acting thread. */
  lemma ActingThread(h: Hierarchy, ver: nat, parts: seq<seq<nat>>, s: State, a: Action)
    requires Inv(h, ver, parts, s) && Enabled(h, ver, s, a) && Sized(Apply(h, ver, s, a)) && |Apply(h, ver, s, a).work| == |s.work|
    ensures ThreadIsOk(h, ver, parts, Apply(h, ver, s, a), ThreadOf(a))
  {
    var t := ThreadOf(a);
    assert ThreadIsOk(h, ver, parts, s, t);
    match a
    case Ask(_, _, _, _) => AskedOk(h, ver, RootSet(parts[t]), s, a);
    case Inner(i) => InnerOk(h, ver, RootSet(parts[t]), s, a);
    case Answer(_) => AnswerOk(h, ver, RootSet(parts[t]), s, a);
  }

  lemma AskedOk(h: Hierarchy, ver: nat, roots: set<nat>, s: State, a: Action)
    requires A.Inv(s.assigner) && Enabled(h, ver, s, a) && a.Ask?
    requires ThreadOk(h, ver, roots, s.work[a.t], s.phase[a.t], s.assigner.threads[a.t], s.assigner.local[a.t])
    ensures var s', t := Apply(h, ver, s, a), a.t;
            Sized(s') && |s'.work| == |s.work| && ThreadOk(h, ver, roots, s'.work[t], s'.phase[t], s'.assigner.threads[t], s'.assigner.local[t])
  {
    hide A.Inv, Between, Chosen;
  }

  lemma InnerOk(h: Hierarchy, ver: nat, roots: set<nat>, s: State, a: Action)
    requires A.Inv(s.assigner) && Enabled(h, ver, s, a) && a.Inner?
    requires var t := a.a.t; ThreadOk(h, ver, roots, s.work[t], s.phase[t], s.assigner.threads[t], s.assigner.local[t])
    ensures var s', t := Apply(h, ver, s, a), a.a.t;
            Sized(s') && |s'.work| == |s.work| && ThreadOk(h, ver, roots, s'.work[t], s'.phase[t], s'.assigner.threads[t], s'.assigner.local[t])
  {
    hide A.Inv, Between, Chosen, AtTop, Serving, Places;
    var t := a.a.t;
    match s.phase[t]
    case Looping => PassingOn(s, a.a);
    case Asked(k, until, hull, from, given) =>
      hide A.Apply;
      ChosenInRange(h, ver, s.work[t], k, until, hull);
      StillServed(s, a.a, from, until - s.work[t].pq[k].pos, |s.work[t].out|, given);
  }

  /** Between its requests a thread only passes on to the next level. */
  lemma PassingOn(s: State, i: A.Action)
    requires Sized(s) && A.Enabled(s.assigner, i) && !i.Request? && !i.LevelUp? && AtTop(s.assigner.threads[i.t]) && s.phase[i.t].Looping?
    ensures var a' := A.Apply(s.assigner, i); |a'.threads| == |a'.local| == |s.work| && AtTop(a'.threads[i.t]) && a'.local[i.t] == s.assigner.local[i.t]
    ensures !Places(s, i)
  {
  }

  lemma StillServed(s: State, i: A.Action, from: nat, num: nat, lo: nat, given: seq<Group>)
    requires Sized(s) && A.Inv(s.assigner) && A.Enabled(s.assigner, i) && !i.Request? && !i.LevelUp? && s.phase[i.t].Asked?
    requires Serving(s.assigner.threads[i.t], s.assigner.local[i.t], from, num, lo, given) && lo == |s.work[i.t].out|
    ensures var a' := A.Apply(s.assigner, i);
            && |a'.threads| == |a'.local| == |s.work|
            && Serving(a'.threads[i.t], a'.local[i.t], from, num, lo, if Places(s, i) then [Place(s, i.t)] else given)
  {
    A.NeverBelowRequest(s.assigner, i.t);
    hide A.Inv;
  }

  lemma AnswerOk(h: Hierarchy, ver: nat, roots: set<nat>, s: State, a: Action)
    requires A.Inv(s.assigner) && Enabled(h, ver, s, a) && a.Answer?
    requires ThreadOk(h, ver, roots, s.work[a.t], s.phase[a.t], s.assigner.threads[a.t], s.assigner.local[a.t])
    ensures var s', t := Apply(h, ver, s, a), a.t;
            Sized(s') && |s'.work| == |s.work| && ThreadOk(h, ver, roots, s'.work[t], s'.phase[t], s'.assigner.threads[t], s'.assigner.local[t])
  {
    hide A.Inv, Between, Chosen, Turned, LevelDone;
    var p := s.phase[a.t];
    TurnedBetween(h, ver, roots, s.work[a.t], p.from, p.k, p.until, p.hull, p.given[0].batch, p.given[0].base);
  }

  // ---------- Answers ----------

  lemma ClaimsAfter(h: Hierarchy, ver: nat, parts: seq<seq<nat>>, s: State, a: Action)
    requires Inv(h, ver, parts, s) && Enabled(h, ver, s, a) && Sized(Apply(h, ver, s, a)) && |Apply(h, ver, s, a).work| == |s.work|
    ensures var s', t, logs, ranges := Apply(h, ver, s, a), ThreadOf(a), Claims(s), s.assigner.ranges;
            if a.Inner? && Places(s, a.a) then
              var g := Place(s, t);
              && g.batch < |ranges| && Claims(s') == logs[t := logs[t] + [g]]
              && s'.assigner.ranges == ranges[g.batch := ranges[g.batch] + [A.Range(g.base, g.num)]]
            else Claims(s') == logs && s'.assigner.ranges == ranges
  {
    hide A.Inv, A.Apply, Apply, Answered, CanStart, Place, Claimed, Chosen, ThreadOk, Taken;
    var t := ThreadOf(a);
    assert ThreadIsOk(h, ver, parts, s, t);
    AssignerKeeps(h, ver, parts, s, a);
    RangesAfter(h, ver, RootSet(parts[t]), s, a);
    ClaimedAfter(h, ver, RootSet(parts[t]), s, a);
    var logs := Claims(s);
    var want := if a.Inner? && Places(s, a.a) then logs[t := logs[t] + [Place(s, t)]] else logs;
    assert logs[t] + [] == logs[t];
    assert Claims(Apply(h, ver, s, a)) == want;
  }

  lemma RangesAfter(h: Hierarchy, ver: nat, roots: set<nat>, s: State, a: Action)
    requires A.Inv(s.assigner) && Enabled(h, ver, s, a)
    requires var t := ThreadOf(a); ThreadOk(h, ver, roots, s.work[t], s.phase[t], s.assigner.threads[t], s.assigner.local[t])
    ensures var ranges := s.assigner.ranges;
            if a.Inner? && Places(s, a.a) then
              var g := Place(s, a.a.t);
              g.batch < |ranges| && Apply(h, ver, s, a).assigner.ranges == ranges[g.batch := ranges[g.batch] + [A.Range(g.base, g.num)]]
            else Apply(h, ver, s, a).assigner.ranges == ranges
  {
    hide A.Inv, A.Apply, Between, GroupOk, Hierarchy.Valid, Turned, LevelDone;
    var i := match a case Ask(t, k, until, hull) => A.Request(t, until - s.work[t].pq[k].pos) case Inner(i) => i case Answer(t) => A.LevelUp(t);
    A.RangesAfter(s.assigner, i);
  }

  lemma ClaimedAfter(h: Hierarchy, ver: nat, roots: set<nat>, s: State, a: Action)
    requires Enabled(h, ver, s, a) && Sized(Apply(h, ver, s, a)) && |Apply(h, ver, s, a).work| == |s.work|
    requires var t := ThreadOf(a); ThreadOk(h, ver, roots, s.work[t], s.phase[t], s.assigner.threads[t], s.assigner.local[t])
    ensures var s', t := Apply(h, ver, s, a), ThreadOf(a);
            Claimed(s'.work[t], s'.phase[t]) == Claimed(s.work[t], s.phase[t]) + (if a.Inner? && Places(s, a.a) then [Place(s, t)] else [])
  {
    hide Between, Chosen, LevelDone;
  }

  /** A further range lies behind all earlier ones of its batch. */
  lemma AnsweredGrows(logs: seq<seq<Group>>, ranges: seq<seq<A.Range>>, t: nat, g: Group, maxBatchSize: nat)
    requires Answered(logs, ranges) && t < |logs| && g.batch < |ranges| && A.Tiles(ranges[g.batch], g.base, maxBatchSize)
    ensures Answered(logs[t := logs[t] + [g]], ranges[g.batch := ranges[g.batch] + [A.Range(g.base, g.num)]])
  {
    var b, r := g.batch, A.Range(g.base, g.num);
    var logs', ranges' := logs[t := logs[t] + [g]], ranges[b := ranges[b] + [r]];
    forall t1: nat, i1: nat | IsAnswer(logs', t1, i1) ensures HandedOut(ranges', logs'[t1][i1]) {
      StillHandedOut(logs, ranges, t, g, t1, i1);
    }
    forall b1: nat, j: nat | IsRange(ranges', b1, j) ensures Received(logs', b1, ranges'[b1][j]) {
      NowReceived(logs, ranges, t, g, b1, j);
    }
    forall t1: nat, i1: nat, t2: nat, i2: nat
      | IsAnswer(logs', t1, i1) && IsAnswer(logs', t2, i2) && logs'[t1][i1].batch == logs'[t2][i2].batch && logs'[t1][i1].base == logs'[t2][i2].base
      ensures t1 == t2 && i1 == i2
    {
      OldOrNew(logs, ranges, t, g, maxBatchSize, t1, i1);
      OldOrNew(logs, ranges, t, g, maxBatchSize, t2, i2);
    }
  }

  lemma StillHandedOut(logs: seq<seq<Group>>, ranges: seq<seq<A.Range>>, t: nat, g: Group, t1: nat, i1: nat)
    requires Answered(logs, ranges) && t < |logs| && g.batch < |ranges| && IsAnswer(logs[t := logs[t] + [g]], t1, i1)
    ensures HandedOut(ranges[g.batch := ranges[g.batch] + [A.Range(g.base, g.num)]], logs[t := logs[t] + [g]][t1][i1])
  {
    var logs' := logs[t := logs[t] + [g]];
    if t1 == t && i1 == |logs[t]| {
      assert logs'[t1][i1] == g;
    } else {
      assert IsAnswer(logs, t1, i1) && logs'[t1][i1] == logs[t1][i1];
    }
  }

  lemma NowReceived(logs: seq<seq<Group>>, ranges: seq<seq<A.Range>>, t: nat, g: Group, b: nat, j: nat)
    requires Answered(logs, ranges) && t < |logs| && g.batch < |ranges|
    requires IsRange(ranges[g.batch := ranges[g.batch] + [A.Range(g.base, g.num)]], b, j)
    ensures Received(logs[t := logs[t] + [g]], b, ranges[g.batch := ranges[g.batch] + [A.Range(g.base, g.num)]][b][j])
  {
    var logs' := logs[t := logs[t] + [g]];
    if b == g.batch && j == |ranges[b]| {
      assert IsAnswer(logs', t, |logs[t]|) && logs'[t][|logs[t]|] == g;
    } else {
      assert IsRange(ranges, b, j);
      var t1: nat, i1: nat :| IsAnswer(logs, t1, i1) && logs[t1][i1].batch == b && logs[t1][i1].base == ranges[b][j].base && logs[t1][i1].num == ranges[b][j].num;
      assert IsAnswer(logs', t1, i1) && logs'[t1][i1] == logs[t1][i1];
    }
  }

  lemma OldOrNew(logs: seq<seq<Group>>, ranges: seq<seq<A.Range>>, t: nat, g: Group, maxBatchSize: nat, t1: nat, i1: nat)
    requires Answered(logs, ranges) && t < |logs| && g.batch < |ranges| && A.Tiles(ranges[g.batch], g.base, maxBatchSize)
    requires IsAnswer(logs[t := logs[t] + [g]], t1, i1)
    ensures var x := logs[t := logs[t] + [g]][t1][i1];
            if t1 == t && i1 == |logs[t]| then x == g
            else IsAnswer(logs, t1, i1) && x == logs[t1][i1] && (x.batch == g.batch ==> x.base < g.base)
  {
    var logs' := logs[t := logs[t] + [g]];
    if t1 == t && i1 == |logs[t]| {
      assert logs'[t1][i1] == g;
    } else {
      assert IsAnswer(logs, t1, i1) && logs'[t1][i1] == logs[t1][i1];
      var x := logs[t1][i1];
      assert HandedOut(ranges, x);
      if x.batch == g.batch {
        var j :| 0 <= j < |ranges[g.batch]| && ranges[g.batch][j] == A.Range(x.base, x.num);
        A.TilesBelow(ranges[g.batch], g.base, maxBatchSize);
        A.TilesNonEmpty(ranges[g.batch], g.base, maxBatchSize);
      }
    }
  }

  lemma AnsweredAfter(h: Hierarchy, ver: nat, parts: seq<seq<nat>>, s: State, a: Action)
    requires Inv(h, ver, parts, s) && Enabled(h, ver, s, a) && Sized(Apply(h, ver, s, a)) && |Apply(h, ver, s, a).work| == |s.work|
    ensures Answered(Claims(Apply(h, ver, s, a)), Apply(h, ver, s, a).assigner.ranges)
  {
    ClaimsAfter(h, ver, parts, s, a);
    if a.Inner? && Places(s, a.a) {
      A.OpenPosition(s.assigner, a.a);
      AnsweredGrows(Claims(s), s.assigner.ranges, a.a.t, Place(s, a.a.t), s.assigner.maxBatchSize);
    }
  }

  // ---------- How much is requested ----------

  lemma ChosenReady(h: Hierarchy, ver: nat, roots: set<nat>, w: Work, cur: nat, k: nat, until: nat, hull: Interval)
    requires Between(h, ver, roots, w, cur) && Chosen(h, ver, w, k, until, hull)
    ensures GroupReady(h, ver, roots, w.p, cur, w.pq[k].u, w.pq[k].pos, until, hull, cur) && h.Shape()
    ensures w.pq[k].pos < until <= |h.childs[w.pq[k].u]|
  {
    hide QueueOk, AllQueued, Disjoint, Matches, Grouped;
    TopReady(h, ver, roots, w.p, w.pq, w.next, cur, k);
  }

  /** A group is made of as many new contractions as it has members. */
  lemma MembersNew(h: Hierarchy, ver: nat, roots: set<nat>, w: Work, cur: nat, k: nat, until: nat, hull: Interval)
    requires Between(h, ver, roots, w, cur) && Chosen(h, ver, w, k, until, hull)
    ensures |Members(h, w, k, until)| == until - w.pq[k].pos && Members(h, w, k, until) !! w.p.batch.Keys
    ensures forall v: nat :: v in Members(h, w, k, until) ==> Due(h, ver, roots, v)
  {
    ChosenReady(h, ver, roots, w, cur, k, until, hull);
    hide Between, Due, GroupOk;
    var u, from := w.pq[k].u, w.pq[k].pos;
    var group := h.childs[u][from..until];
    forall v: nat | v in group ensures v !in w.p.batch && Due(h, ver, roots, v) {
      GroupMembers(h, ver, roots, w.p, cur, u, from, until, hull, cur, v);
      ChildDue(h, ver, roots, w.p, cur, v);
    }
    assert NoTwice(group) by { assert h.ChildsOk(u); }
    NoTwiceSize(group);
  }

  lemma {:induction false} NoTwiceSize(s: seq<nat>)
    requires NoTwice(s)
    ensures |RootSet(s)| == |s|
  {
    if s != [] {
      LastOne(s);
      NoTwiceSize(s[..|s| - 1]);
    }
  }

  lemma LastOne(s: seq<nat>)
    requires NoTwice(s) && s != []
    ensures var front, x := s[..|s| - 1], s[|s| - 1]; NoTwice(front) && x !in RootSet(front) && RootSet(s) == RootSet(front) + {x}
  {
    assert s == s[..|s| - 1] + [s[|s| - 1]];
  }

  lemma TakenDue(h: Hierarchy, ver: nat, roots: set<nat>, w: Work, p: Phase, th: A.Thread, local: nat)
    requires ThreadOk(h, ver, roots, w, p, th, local)
    ensures h.Valid() && forall v: nat :: v in Taken(h, w, p) ==> Due(h, ver, roots, v)
  {
    var cur := if p.Asked? then p.from else local;
    forall v: nat | v in Taken(h, w, p) ensures Due(h, ver, roots, v) {
      if v in w.p.batch {
        AssignedDue(h, ver, roots, w.p, cur, v);
      } else {
        MembersNew(h, ver, roots, w, cur, p.k, p.until, p.hull);
      }
    }
  }

  /** All threads together take no more than the contractions of the version. */
  lemma TakenBounded(h: Hierarchy, ver: nat, parts: seq<seq<nat>>, taken: seq<set<nat>>, sizes: seq<int>)
    requires CanStart(h, ver, parts) && |taken| == |sizes| == |parts|
    requires forall t: nat, v: nat {:trigger v in taken[t]} :: t < |taken| && v in taken[t] ==> Due(h, ver, RootSet(parts[t]), v)
    requires forall t :: 0 <= t < |taken| ==> sizes[t] == |taken[t]|
    ensures Sum(sizes) <= |VersionNodes(h, ver)|
  {
    var all := VersionNodes(h, ver);
    forall t: nat | t < |taken| ensures taken[t] <= all {
      forall v: nat | v in taken[t] ensures v in all {
        assert Due(h, ver, RootSet(parts[t]), v);
      }
    }
    forall t: nat, v: nat | t < |taken| && v in taken[t] ensures h.VersionRoot(v) in parts[t] {
      assert Due(h, ver, RootSet(parts[t]), v);
    }
    forall t: nat, t': nat | t < t' < |taken| ensures taken[t] !! taken[t'] {
      assert forall v: nat :: v in taken[t] && v in taken[t'] ==> h.VersionRoot(v) in parts[t] && h.VersionRoot(v) in parts[t'];
    }
    DisjointParts(taken, sizes, |taken|, all);
    assert sizes[..|taken|] == sizes;
    SubsetSize(UnionOf(taken, |taken|), all);
  }

  ghost function AllTaken(h: Hierarchy, s: State): (r: seq<set<nat>>)
    requires Sized(s)
    ensures |r| == |s.work| && forall t :: 0 <= t < |r| ==> r[t] == Taken(h, s.work[t], s.phase[t])
  {
    seq(|s.work|, t requires 0 <= t < |s.work| => Taken(h, s.work[t], s.phase[t]))
  }

  lemma AllTakenDue(h: Hierarchy, ver: nat, parts: seq<seq<nat>>, s: State)
    requires Inv(h, ver, parts, s)
    ensures forall t: nat, v: nat {:trigger v in AllTaken(h, s)[t]} :: t < |parts| && v in AllTaken(h, s)[t] ==> Due(h, ver, RootSet(parts[t]), v)
  {
    forall t: nat, v: nat | t < |parts| && v in AllTaken(h, s)[t] ensures Due(h, ver, RootSet(parts[t]), v) {
      assert ThreadIsOk(h, ver, parts, s, t);
      TakenDue(h, ver, RootSet(parts[t]), s.work[t], s.phase[t], s.assigner.threads[t], s.assigner.local[t]);
    }
  }

  /** So every request fits into what the assigner was made for. */
  lemma RequestFits(h: Hierarchy, ver: nat, parts: seq<seq<nat>>, s: State, t: nat, k: nat, until: nat, hull: Interval)
    requires Inv(h, ver, parts, s) && t < |parts| && s.phase[t].Looping? && Chosen(h, ver, s.work[t], k, until, hull)
    ensures until - s.work[t].pq[k].pos <= s.assigner.remaining
  {
    hide Taken, Between, A.Inv, Answered, AtTop, Serving, GroupOk, Members, CanStart, Due;
    var w, roots := s.work[t], RootSet(parts[t]);
    assert ThreadIsOk(h, ver, parts, s, t);
    MembersNew(h, ver, roots, w, s.assigner.local[t], k, until, hull);
    AllTakenDue(h, ver, parts, s);
    TakenIs(h, w, s.phase[t]);
    GroupFits(h, ver, parts, AllTaken(h, s), TakenColumn(h, s), t, Members(h, w, k, until));
  }

  lemma GroupFits(h: Hierarchy, ver: nat, parts: seq<seq<nat>>, taken: seq<set<nat>>, sizes: seq<int>, t: nat, group: set<nat>)
    requires CanStart(h, ver, parts) && |taken| == |sizes| == |parts| && t < |parts| && group !! taken[t]
    requires forall t: nat, v: nat {:trigger v in taken[t]} :: t < |taken| && v in taken[t] ==> Due(h, ver, RootSet(parts[t]), v)
    requires forall v: nat :: v in group ==> Due(h, ver, RootSet(parts[t]), v)
    requires forall t :: 0 <= t < |taken| ==> sizes[t] == |taken[t]|
    ensures Sum(sizes) + |group| <= |VersionNodes(h, ver)|
  {
    hide Due, VersionNodes;
    var taken', sizes' := taken[t := taken[t] + group], sizes[t := sizes[t] + |group|];
    SumUpdate(sizes, t, sizes[t] + |group|);
    assert |taken[t] + group| == |taken[t]| + |group|;
    forall t1: nat, v: nat | t1 < |taken'| && v in taken'[t1] ensures Due(h, ver, RootSet(parts[t1]), v) {
      assert v in taken[t1] || (t1 == t && v in group);
    }
    TakenBounded(h, ver, parts, taken', sizes');
  }

  lemma TakenIs(h: Hierarchy, w: Work, p: Phase)
    ensures Taken(h, w, p) == w.p.batch.Keys + (if p.Asked? then Members(h, w, p.k, p.until) else {})
  {
  }

  lemma TakenAfter(h: Hierarchy, ver: nat, roots: set<nat>, s: State, a: Action)
    requires Enabled(h, ver, s, a) && Sized(Apply(h, ver, s, a)) && |Apply(h, ver, s, a).work| == |s.work|
    requires var t := ThreadOf(a); ThreadOk(h, ver, roots, s.work[t], s.phase[t], s.assigner.threads[t], s.assigner.local[t])
    ensures var s', t := Apply(h, ver, s, a), ThreadOf(a);
            |Taken(h, s'.work[t], s'.phase[t])| == |Taken(h, s.work[t], s.phase[t])| + s.assigner.remaining - s'.assigner.remaining
  {
    hide Between, GroupOk, Hierarchy.Valid, Members, LevelDone, Turned, Serving, AtTop, Places, Place;
    var t := ThreadOf(a);
    match a
    case Ask(_, k, until, hull) =>
      MembersNew(h, ver, roots, s.work[t], s.assigner.local[t], k, until, hull);
    case Inner(i) => InnerTaken(h, ver, s, i);
    case Answer(_) =>
      var p := s.phase[t];
      AnsweredTaken(h, ver, roots, s.work[t], p, p.given[0]);
  }

  lemma InnerTaken(h: Hierarchy, ver: nat, s: State, i: A.Action)
    requires Enabled(h, ver, s, Inner(i))
    ensures var s' := Apply(h, ver, s, Inner(i));
            |s'.work| == |s'.phase| == |s.work| && Taken(h, s'.work[i.t], s'.phase[i.t]) == Taken(h, s.work[i.t], s.phase[i.t])
            && s'.assigner.remaining == s.assigner.remaining
  {
    hide Members;
  }

  /** A group that got its place passes from asked for to assigned. */
  lemma AnsweredTaken(h: Hierarchy, ver: nat, roots: set<nat>, w: Work, p: Phase, g: Group)
    requires p.Asked? && Between(h, ver, roots, w, p.from) && Chosen(h, ver, w, p.k, p.until, p.hull)
    ensures Taken(h, Turned(h, ver, w, p.k, p.until, p.hull, g.batch, g.base), Looping) == Taken(h, w, p)
  {
    ChosenReady(h, ver, roots, w, p.from, p.k, p.until, p.hull);
    hide Between, GroupReady, Chosen, RestQueue, EnterAll, GroupAssignments;
  }

  lemma BudgetAfter(h: Hierarchy, ver: nat, parts: seq<seq<nat>>, s: State, a: Action)
    requires Inv(h, ver, parts, s) && Enabled(h, ver, s, a) && Sized(Apply(h, ver, s, a)) && |Apply(h, ver, s, a).work| == |s.work|
    ensures Apply(h, ver, s, a).assigner.remaining + Sum(TakenColumn(h, Apply(h, ver, s, a))) == |VersionNodes(h, ver)|
  {
    hide Taken, A.Inv, Answered, ThreadOk, CanStart, A.Apply, Apply, A.Enabled;
    var t, s' := ThreadOf(a), Apply(h, ver, s, a);
    assert ThreadIsOk(h, ver, parts, s, t);
    AssignerKeeps(h, ver, parts, s, a);
    TakenAfter(h, ver, RootSet(parts[t]), s, a);
    var column := TakenColumn(h, s);
    SumUpdate(column, t, TakenColumn(h, s')[t]);
    assert TakenColumn(h, s') == column[t := TakenColumn(h, s')[t]];
  }

  lemma StepKeeps(h: Hierarchy, ver: nat, parts: seq<seq<nat>>, s: State, a: Action)
    requires Inv(h, ver, parts, s) && Enabled(h, ver, s, a)
    ensures Inv(h, ver, parts, Apply(h, ver, s, a)) && Apply(h, ver, s, a).assigner.maxBatchSize == s.assigner.maxBatchSize
  {
    hide A.Inv, A.Apply, A.Enabled, Apply, Answered, CanStart, Chosen, ThreadOk, Taken;
    var s' := Apply(h, ver, s, a);
    AssignerKeeps(h, ver, parts, s, a);
    AnsweredAfter(h, ver, parts, s, a);
    BudgetAfter(h, ver, parts, s, a);
    ActingThread(h, ver, parts, s, a);
    forall t | 0 <= t < |parts| ensures ThreadIsOk(h, ver, parts, s', t) {
      assert ThreadIsOk(h, ver, parts, s, t);
    }
  }

  // ---------- Runs ----------

  ghost predicate CanRun(h: Hierarchy, ver: nat, s: State, run: seq<Action>)
    decreases |run|
  {
    run == [] || (Enabled(h, ver, s, run[0]) && CanRun(h, ver, Apply(h, ver, s, run[0]), run[1..]))
  }

  ghost function Run(h: Hierarchy, ver: nat, s: State, run: seq<Action>): State
    requires CanRun(h, ver, s, run)
    decreases |run|
  {
    if run == [] then s else Run(h, ver, Apply(h, ver, s, run[0]), run[1..])
  }

  lemma {:induction false} RunKeeps(h: Hierarchy, ver: nat, parts: seq<seq<nat>>, s: State, run: seq<Action>)
    requires Inv(h, ver, parts, s) && CanRun(h, ver, s, run)
    ensures Inv(h, ver, parts, Run(h, ver, s, run)) && Run(h, ver, s, run).assigner.maxBatchSize == s.assigner.maxBatchSize
    decreases |run|
  {
    hide Inv, Enabled, Apply;
    if run != [] {
      StepKeeps(h, ver, parts, s, run[0]);
      RunKeeps(h, ver, parts, Apply(h, ver, s, run[0]), run[1..]);
    }
  }

  ghost function Initial(h: Hierarchy, ver: nat, parts: seq<seq<nat>>, maxBatchSize: nat): State
    requires NodesOnly(h, parts)
  {
    State(A.Initial(|h.parent|, maxBatchSize, |parts|, |VersionNodes(h, ver)|),
          seq(|parts|, t requires 0 <= t < |parts| => StartOf(h, ver, parts, t)), seq(|parts|, t => Looping))
  }

  ghost function StartOf(h: Hierarchy, ver: nat, parts: seq<seq<nat>>, t: int): Work
    requires NodesOnly(h, parts) && 0 <= t < |parts|
  {
    StartWork(h, ver, parts[t])
  }

  /** Some node is no contraction partner. */
  lemma {:induction false} SomeRoot(h: Hierarchy, v: nat) returns (r: nat)
    requires h.Valid() && h.IsNode(v)
    ensures h.IsNode(r) && h.parent[r] == r
    decreases h.depth[v]
  {
    assert h.ParentOk(v);
    if h.parent[v] == v {
      r := v;
    } else {
      r := SomeRoot(h, h.parent[v]);
    }
  }

  lemma FewerThanNodes(h: Hierarchy, ver: nat)
    requires h.Valid() && h.parent != []
    ensures |VersionNodes(h, ver)| < |h.parent|
  {
    var r := SomeRoot(h, 0);
    SubsetSize(VersionNodes(h, ver), UpTo(|h.parent|) - {r});
  }

  lemma InitialInv(h: Hierarchy, ver: nat, parts: seq<seq<nat>>, maxBatchSize: nat)
    requires CanStart(h, ver, parts) && maxBatchSize >= 1
    ensures Inv(h, ver, parts, Initial(h, ver, parts, maxBatchSize))
  {
    var s := Initial(h, ver, parts, maxBatchSize);
    FewerThanNodes(h, ver);
    A.InitialInv(|h.parent|, maxBatchSize, |parts|, |VersionNodes(h, ver)|);
    hide A.Inv, Between, StartWork;
    forall t | 0 <= t < |parts| ensures ThreadIsOk(h, ver, parts, s, t) {
      assert PartOk(h, ver, parts[t]);
      WorkStarts(h, ver, parts[t]);
    }
    NothingTaken(h, ver, parts, maxBatchSize);
  }

  lemma NothingTaken(h: Hierarchy, ver: nat, parts: seq<seq<nat>>, maxBatchSize: nat)
    requires CanStart(h, ver, parts)
    ensures var s := Initial(h, ver, parts, maxBatchSize); Sum(TakenColumn(h, s)) == 0 && Answered(Claims(s), s.assigner.ranges)
  {
    hide StartWork;
    var s := Initial(h, ver, parts, maxBatchSize);
    forall t | 0 <= t < |parts| ensures Taken(h, s.work[t], s.phase[t]) == {} && Claimed(s.work[t], s.phase[t]) == [] {
      NothingAtStart(h, ver, parts[t]);
      assert PartOk(h, ver, parts[t]);
    }
    hide Taken, Claimed, CanStart;
    SumZero(TakenColumn(h, s));
  }

  lemma NothingAtStart(h: Hierarchy, ver: nat, roots: seq<nat>)
    requires h.Shape() && forall r :: r in roots ==> h.IsNode(r)
    ensures StartWork(h, ver, roots).p.batch == map[] && StartWork(h, ver, roots).groups == []
  {
  }

  /** The thread has nothing left to do. */
  ghost predicate Done(s: State, t: nat)
    requires Sized(s) && t < |s.work|
  {
    s.phase[t].Looping? && s.assigner.threads[t].Ready? && s.work[t].pq == []
  }

  /** In every reachable state each thread is done or can take its next step: no request exceeds the assigner,
      and no probe leaves its arrays. */
  lemma NeverStuck(h: Hierarchy, ver: nat, parts: seq<seq<nat>>, s: State, t: nat) returns (a: Action)
    requires Inv(h, ver, parts, s) && t < |parts| && !Done(s, t)
    ensures Enabled(h, ver, s, a) && ThreadOf(a) == t
  {
    hide Between, Chosen, Answered, Taken, CanStart;
    assert ThreadIsOk(h, ver, parts, s, t) && A.ThreadOk(s.assigner, t);
    match s.assigner.threads[t]
    case Ready(_) =>
      if s.phase[t].Looping? {
        a := NextRequest(h, ver, parts, s, t);
      } else {
        a := Answer(t);
      }
    case Checked(_, _) => a := Inner(A.LoadMark(t));
    case Probing(_, _, _, _) =>
      A.ProbeInBounds(s.assigner, t);
      a := Inner(A.Probe(t));
    case Positioned(_, _, _, _) => a := Inner(A.Book(t));
    case Marking(_, _, _) => a := Inner(A.Reload(t));
    case Raising(_, _, _, _) => a := Inner(A.CompareAndSwap(t));
    case Scanning(_, _) => a := Inner(A.ScanLocal(t));
  }

  lemma NextRequest(h: Hierarchy, ver: nat, parts: seq<seq<nat>>, s: State, t: nat) returns (a: Action)
    requires Inv(h, ver, parts, s) && t < |parts| && !Done(s, t) && s.phase[t].Looping? && s.assigner.threads[t].Ready?
    ensures a.Ask? && Enabled(h, ver, s, a) && ThreadOf(a) == t
  {
    hide Between, Chosen, Answered, Taken, CanStart;
    assert ThreadIsOk(h, ver, parts, s, t);
    var k, until, hull := SomeGroup(h, ver, RootSet(parts[t]), s.work[t], s.assigner.local[t]);
    RequestFits(h, ver, parts, s, t, k, until, hull);
    ChosenInRange(h, ver, s.work[t], k, until, hull);
    a := Ask(t, k, until, hull);
  }

  // ---------- When all threads are done ----------

  ghost predicate AllDone(s: State) {
    Sized(s) && forall t: nat :: t < |s.work| ==> Done(s, t)
  }

  ghost function Lists(s: State): (r: seq<seq<Assignment>>)
    ensures |r| == |s.work| && forall t :: 0 <= t < |r| ==> r[t] == s.work[t].out
  {
    seq(|s.work|, t requires 0 <= t < |s.work| => s.work[t].out)
  }

  /** What every thread has done. */
  ghost predicate AllScheduled(h: Hierarchy, ver: nat, parts: seq<seq<nat>>, outs: seq<seq<Assignment>>) {
    |parts| == |outs| && forall t :: 0 <= t < |outs| ==> Scheduled(h, ver, RootSet(parts[t]), outs[t])
  }

  ghost predicate AllGrouped(logs: seq<seq<Group>>, outs: seq<seq<Assignment>>) {
    |logs| == |outs| && forall t :: 0 <= t < |logs| ==> Grouped(logs[t], outs[t])
  }

  /** The lists are complete, they are made of the answers, and the answers are what the assigner gave out. */
  lemma DoneThreads(h: Hierarchy, ver: nat, parts: seq<seq<nat>>, s: State)
    requires Inv(h, ver, parts, s) && AllDone(s)
    ensures Sized(s) && AllScheduled(h, ver, parts, Lists(s)) && AllGrouped(Claims(s), Lists(s)) && Answered(Claims(s), s.assigner.ranges)
    ensures A.Inv(s.assigner) && A.Quiescent(s.assigner)
  {
    hide A.Inv, Answered, Taken, Scheduled, Grouped, LoopInv;
    forall t: nat | t < |parts|
      ensures Scheduled(h, ver, RootSet(parts[t]), s.work[t].out) && Grouped(Claims(s)[t], s.work[t].out) && s.assigner.threads[t].Ready?
    {
      assert ThreadIsOk(h, ver, parts, s, t) && Done(s, t);
      var w := s.work[t];
      ScheduledAtEnd(h, ver, RootSet(parts[t]), w.p, s.assigner.local[t], w.out);
      assert w.groups + [] == w.groups;
    }
  }
}
