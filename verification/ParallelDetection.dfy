/** Finding parallel nets by hashing.

    The pins of every net are sorted, nets with equal hash meet in a bucket, and within a bucket they are
    compared in the order of hash, size and id. */
module ParallelDetection {
  import opened Rings
  import opened Chains
  import opened Sums
  import opened Sorting
  import opened PinLists
  import opened PinNets
  import opened Hypergraphs
  import opened ParallelNets

  // ---------- Sorting the pins of a net ----------

  ghost predicate Ascending(s: seq<nat>) {
    forall i, j :: 0 <= i < j < |s| ==> s[i] < s[j]
  }

  predicate Smaller(a: nat, b: nat) {
    a < b
  }

  /** The order of the pins matters neither for their set nor for the sum of their hashes. */
  lemma {:induction false} SumOfPermutation(a: seq<nat>, b: seq<nat>, hashOf: nat -> nat)
    requires multiset(a) == multiset(b)
    ensures Sum(HashColumn(a, hashOf)) == Sum(HashColumn(b, hashOf))
    decreases |a|
  {
    assert |a| == |multiset(a)| == |b|;
    if a == [] {
      assert b == [];
    } else {
      var k := |a| - 1;
      assert a[k] in multiset(b);
      var j :| 0 <= j < |b| && b[j] == a[k];
      BagWithout(a, k);
      BagWithout(b, j);
      var a', b' := a[..k] + a[k + 1..], b[..j] + b[j + 1..];
      SumWithout(a, k, hashOf);
      SumWithout(b, j, hashOf);
      hide HashColumn, Sum;
      SumOfPermutation(a', b', hashOf);
    }
  }

  lemma BagWithout(s: seq<nat>, j: nat)
    requires j < |s|
    ensures multiset(s[..j] + s[j + 1..]) == multiset(s) - multiset{s[j]}
  {
    assert s == s[..j] + [s[j]] + s[j + 1..];
  }

  lemma SumWithout(s: seq<nat>, j: nat, hashOf: nat -> nat)
    requires j < |s|
    ensures Sum(HashColumn(s, hashOf)) == Sum(HashColumn(s[..j] + s[j + 1..], hashOf)) + hashOf(s[j])
  {
    var a, b := HashColumn(s[..j], hashOf), HashColumn(s[j + 1..], hashOf);
    assert HashColumn(s, hashOf) == a + ([hashOf(s[j]) as int] + b);
    assert HashColumn(s[..j] + s[j + 1..], hashOf) == a + b;
    SumAppend(a, [hashOf(s[j]) as int] + b);
    SumAppend([hashOf(s[j]) as int], b);
    SumAppend(a, b);
    assert Sum([hashOf(s[j]) as int]) == hashOf(s[j]);
  }

  lemma {:induction false} SortedUnique(a: seq<nat>, b: seq<nat>)
    requires Ascending(a) && Ascending(b) && forall p: nat :: p in a <==> p in b
    ensures a == b
    decreases |a|
  {
    assert (a != [] ==> a[0] in a) && (b != [] ==> b[0] in b);
    if a != [] && b != [] {
      SameLast(a, b);
      var a', b' := a[..|a| - 1], b[..|b| - 1];
      assert Ascending(a') && Ascending(b');
      forall p: nat ensures p in a' <==> p in b' {
        ButLast(a, p);
        ButLast(b, p);
      }
      SortedUnique(a', b');
      assert a == a' + [a[|a| - 1]] && b == b' + [b[|b| - 1]];
    }
  }

  /** Ascending sequences with the same members have the same maximum. */
  lemma SameLast(a: seq<nat>, b: seq<nat>)
    requires Ascending(a) && Ascending(b) && a != [] && b != [] && forall p: nat :: p in a <==> p in b
    ensures a[|a| - 1] == b[|b| - 1]
  {
    assert a[|a| - 1] in b && b[|b| - 1] in a;
  }

  lemma ButLast(s: seq<nat>, p: nat)
    requires Ascending(s) && s != []
    ensures p in s[..|s| - 1] <==> p in s && p != s[|s| - 1]
  {
    assert s == s[..|s| - 1] + [s[|s| - 1]];
  }

  /** Sorts the valid pins; the net it stands for and the hash are the same. */
  method SortPins(e: Hyperedge, hashOf: nat -> nat) returns (e': Hyperedge)
    requires e.Valid() && HashOk(e, hashOf)
    ensures e'.Valid() && HashOk(e', hashOf) && NetAt(e') == NetAt(e)
    ensures Ascending(e'.pins[..e'.size]) && e'.size == e.size && e'.hash == e.hash
  {
    var valid := e.pins[..e.size];
    var sorted := Sort(valid, Smaller);
    e' := e.(pins := sorted + e.pins[e.size..]);
    assert |sorted| == |multiset(sorted)| == e.size;
    PinsSorted(e, e', sorted, hashOf);
  }

  lemma PinsSorted(e: Hyperedge, e': Hyperedge, sorted: seq<nat>, hashOf: nat -> nat)
    requires e.Valid() && HashOk(e, hashOf) && |sorted| == e.size && Sorted(sorted, Smaller) && multiset(sorted) == multiset(e.pins[..e.size])
    requires e' == e.(pins := sorted + e.pins[e.size..])
    ensures e'.Valid() && HashOk(e', hashOf) && NetAt(e') == NetAt(e) && Ascending(e'.pins[..e'.size])
  {
    var valid := e.pins[..e.size];
    assert e'.pins[..e.size] == sorted && e'.pins[e.size..] == e.pins[e.size..];
    SumOfPermutation(sorted, valid, hashOf);
    forall p: nat ensures p in sorted <==> p in valid {
      assert p in sorted <==> p in multiset(sorted);
    }
    SortedDistinct(sorted, valid);
    DistinctAgain(e.pins, e'.pins, e.size);
    PinsOfSlice(e);
    PinsOfSlice(e');
    assert e'.Pins() == e.Pins();
  }

  lemma DistinctAgain(pins: seq<nat>, pins': seq<nat>, size: nat)
    requires Distinct(pins) && size <= |pins| == |pins'| && pins'[size..] == pins[size..] && Ascending(pins'[..size])
    requires forall p: nat :: p in pins'[..size] <==> p in pins[..size]
    ensures Distinct(pins')
  {
    forall i, j | 0 <= i < j < |pins'| ensures pins'[i] != pins'[j] {
      assert i < size ==> pins'[..size][i] == pins'[i];
      assert j < size ==> pins'[..size][j] == pins'[j];
      assert i >= size ==> pins'[size..][i - size] == pins[i];
      assert j >= size ==> pins'[size..][j - size] == pins[j];
      if i < size <= j {
        assert pins'[i] in pins[..size];
      }
    }
  }

  lemma SortedDistinct(sorted: seq<nat>, valid: seq<nat>)
    requires Sorted(sorted, Smaller) && multiset(sorted) == multiset(valid) && Distinct(valid)
    ensures Ascending(sorted)
  {
    DistinctPermutation(valid, sorted);
    forall i, j | 0 <= i < j < |sorted| ensures sorted[i] < sorted[j] {
      assert !Smaller(sorted[j], sorted[i]);
    }
  }

  /** Compares the sorted pins of two nets. */
  method AreParallel(lhs: Hyperedge, rhs: Hyperedge) returns (b: bool)
    requires lhs.Valid() && rhs.Valid() && Ascending(lhs.pins[..lhs.size]) && Ascending(rhs.pins[..rhs.size])
    ensures b <==> lhs.Pins() == rhs.Pins()
  {
    b := lhs.size == rhs.size;
    var i := 0;
    while b && i < lhs.size
      invariant i <= lhs.size && (b ==> lhs.size == rhs.size && lhs.pins[..i] == rhs.pins[..i])
      invariant !b ==> lhs.pins[..lhs.size] != rhs.pins[..rhs.size]
    {
      if lhs.pins[i] != rhs.pins[i] {
        assert lhs.pins[..lhs.size][i] != rhs.pins[..rhs.size][i];
        b := false;
      } else {
        assert lhs.pins[..i + 1] == lhs.pins[..i] + [lhs.pins[i]] && rhs.pins[..i + 1] == rhs.pins[..i] + [rhs.pins[i]];
        i := i + 1;
      }
    }
    EqualPins(lhs, rhs);
  }

  lemma EqualPins(lhs: Hyperedge, rhs: Hyperedge)
    requires lhs.Valid() && rhs.Valid() && Ascending(lhs.pins[..lhs.size]) && Ascending(rhs.pins[..rhs.size])
    ensures lhs.Pins() == rhs.Pins() <==> lhs.pins[..lhs.size] == rhs.pins[..rhs.size]
  {
    PinsOfSlice(lhs);
    PinsOfSlice(rhs);
    if lhs.Pins() == rhs.Pins() {
      SortedUnique(lhs.pins[..lhs.size], rhs.pins[..rhs.size]);
    }
  }

  // ---------- The state of the removal ----------

  /** `gone` are disabled by now, `heavy` have their final weight. */
  ghost function PartialAt(nets: seq<Net>, gone: set<nat>, heavy: set<nat>, e: nat): Net
    requires e < |nets|
  {
    if e in heavy then nets[e].(weight := ClassWeight(nets, All(nets), e))
    else if e in gone then nets[e].(enabled := false)
    else nets[e]
  }

  /** The nets below k have been sorted or dropped. */
  ghost predicate StateOf(edges: seq<Hyperedge>, nets: seq<Net>, hashes: seq<nat>, gone: set<nat>, heavy: set<nat>, k: nat, hashOf: nat -> nat) {
    && |edges| == |nets| == |hashes|
    && forall x: nat {:trigger StateAt(edges, nets, hashes, gone, heavy, k, hashOf, x)} :: x < |edges| ==> StateAt(edges, nets, hashes, gone, heavy, k, hashOf, x)
  }

  ghost predicate StateAt(edges: seq<Hyperedge>, nets: seq<Net>, hashes: seq<nat>, gone: set<nat>, heavy: set<nat>, k: nat, hashOf: nat -> nat, x: nat)
    requires x < |edges| == |nets| == |hashes|
  {
    && edges[x].Valid() && HashOk(edges[x], hashOf) && edges[x].hash == hashes[x]
    && NetAt(edges[x]) == PartialAt(nets, gone, heavy, x)
    && (x < k && Candidate(nets, x) ==> Ascending(edges[x].pins[..edges[x].size]))
  }

  ghost function HashAt(edges: seq<Hyperedge>, x: nat): nat
    requires x < |edges|
  {
    edges[x].hash
  }

  ghost function Hashes(edges: seq<Hyperedge>): (r: seq<nat>)
    ensures |r| == |edges|
  {
    seq(|edges|, x requires 0 <= x < |edges| => HashAt(edges, x))
  }

  lemma StateStarts(edges: seq<Hyperedge>, hashOf: nat -> nat)
    requires EdgesValid(edges) && HashesOk(edges, hashOf)
    ensures StateOf(edges, NetsOf(edges), Hashes(edges), {}, {}, 0, hashOf)
  {
    forall x: nat | x < |edges| ensures StateAt(edges, NetsOf(edges), Hashes(edges), {}, {}, 0, hashOf, x) {
      assert EdgeValid(edges, x) && EdgeHashOk(edges, hashOf, x);
    }
  }

  lemma SizeIsPins(e: Hyperedge)
    requires e.Valid()
    ensures |e.Pins()| == e.size
  {
    PinsOfSlice(e);
    DistinctCount(e.pins[..e.size], e.Pins());
  }

  lemma {:induction false} DistinctCount(s: seq<nat>, pins: set<nat>)
    requires Distinct(s) && forall p: nat :: p in pins <==> p in s
    ensures |pins| == |s|
  {
    if s == [] {
      assert pins == {};
    } else {
      var k := |s| - 1;
      assert s[k] !in s[..k];
      forall p: nat ensures p in pins - {s[k]} <==> p in s[..k] {
        if p in s && p != s[k] { var i :| 0 <= i < |s| && s[i] == p; assert s[..k][i] == p; }
      }
      DistinctCount(s[..k], pins - {s[k]});
    }
  }

  /** Net x was replaced by `edge`. */
  lemma StateStep(edges: seq<Hyperedge>, nets: seq<Net>, hashes: seq<nat>, gone: set<nat>, heavy: set<nat>, k: nat, hashOf: nat -> nat,
                  x: nat, edge: Hyperedge, gone': set<nat>, heavy': set<nat>, k': nat)
    requires StateOf(edges, nets, hashes, gone, heavy, k, hashOf) && x < |edges| && k <= k' && (k' == k || (k' == k + 1 && x == k))
    requires gone <= gone' <= gone + {x} && heavy <= heavy' <= heavy + {x}
    requires edge.Valid() && HashOk(edge, hashOf) && edge.hash == hashes[x] && NetAt(edge) == PartialAt(nets, gone', heavy', x)
    requires Candidate(nets, x) && x < k' ==> Ascending(edge.pins[..edge.size])
    ensures StateOf(edges[x := edge], nets, hashes, gone', heavy', k', hashOf)
  {
    var edges' := edges[x := edge];
    forall y: nat | y < |edges| ensures StateAt(edges', nets, hashes, gone', heavy', k', hashOf, y) {
      assert StateAt(edges, nets, hashes, gone, heavy, k, hashOf, y);
    }
  }

  lemma StateEnds(edges: seq<Hyperedge>, nets: seq<Net>, hashes: seq<nat>, gone: set<nat>, heavy: set<nat>, k: nat, hashOf: nat -> nat)
    requires StateOf(edges, nets, hashes, gone, heavy, k, hashOf)
    requires forall e: nat :: e < |nets| ==> (e in heavy <==> Kept(nets, e)) && (e in gone <==> Goes(nets, e))
    ensures EdgesValid(edges) && HashesOk(edges, hashOf) && NetsOf(edges) == Simplified(nets)
  {
    forall e: nat | e < |edges| ensures EdgeValid(edges, e) && NetsOf(edges)[e] == Simplified(nets)[e] {
      assert StateAt(edges, nets, hashes, gone, heavy, k, hashOf, e);
      assert Simplified(nets)[e] == SimplifiedAt(nets, e);
    }
    forall e: nat | e < |edges| ensures EdgeHashOk(edges, hashOf, e) {
      assert StateAt(edges, nets, hashes, gone, heavy, k, hashOf, e);
    }
  }

  /** Nets with the same pins have the same hash: no parallel net escapes the comparison. */
  lemma SameHash(edges: seq<Hyperedge>, nets: seq<Net>, hashes: seq<nat>, gone: set<nat>, heavy: set<nat>, k: nat, hashOf: nat -> nat, x: nat, y: nat)
    requires StateOf(edges, nets, hashes, gone, heavy, k, hashOf) && SamePins(nets, x, y) && x < k && y < k
    ensures hashes[x] == hashes[y]
  {
    assert StateAt(edges, nets, hashes, gone, heavy, k, hashOf, x) && StateAt(edges, nets, hashes, gone, heavy, k, hashOf, y);
    EqualPins(edges[x], edges[y]);
  }

  // ---------- The list of removed nets ----------

  ghost predicate ListOf(nets: seq<Net>, list: seq<ParallelHyperedge>, gone: set<nat>) {
    && (forall i: nat {:trigger EntryOk(nets, list[i])} :: i < |list| ==> EntryOk(nets, list[i]))
    && (forall i, j :: 0 <= i < j < |list| ==> list[i].removed != list[j].removed)
    && RemovedIds(list) == gone
  }

  lemma ListStep(nets: seq<Net>, list: seq<ParallelHyperedge>, gone: set<nat>, a: ParallelHyperedge)
    requires ListOf(nets, list, gone) && EntryOk(nets, a) && a.removed !in gone
    ensures ListOf(nets, list + [a], gone + {a.removed})
  {
    var list' := list + [a];
    forall i: nat | i < |list'| ensures EntryOk(nets, list'[i]) {
      if i < |list| { assert EntryOk(nets, list[i]); }
    }
    forall i, j | 0 <= i < j < |list'| ensures list'[i].removed != list'[j].removed {
      assert list'[i].removed in RemovedIds(list);
    }
    forall x ensures x in RemovedIds(list') <==> x in gone + {a.removed} {
      if x in gone {
        var i :| 0 <= i < |list| && list[i].removed == x;
        assert list'[i].removed == x;
      }
      assert list'[|list|].removed == a.removed;
    }
  }

  // ---------- Buckets ----------

  datatype NetInformation = NetInformation(he: nat, hash: nat, size: nat)

  /** The order in which a bucket is searched. */
  predicate Before(a: NetInformation, b: NetInformation) {
    a.hash < b.hash || (a.hash == b.hash && (a.size < b.size || (a.size == b.size && a.he < b.he)))
  }

  ghost predicate InfoOk(nets: seq<Net>, hashes: seq<nat>, i: NetInformation) {
    |hashes| == |nets| && Candidate(nets, i.he) && i.hash == hashes[i.he] && i.size == |nets[i.he].pins|
  }

  ghost predicate Listed(bucket: seq<NetInformation>, e: nat) {
    exists i :: 0 <= i < |bucket| && bucket[i].he == e
  }

  ghost predicate BucketOk(nets: seq<Net>, hashes: seq<nat>, bucket: seq<NetInformation>) {
    && (forall i: nat {:trigger InfoOk(nets, hashes, bucket[i])} :: i < |bucket| ==> InfoOk(nets, hashes, bucket[i]))
    && (forall i, j :: 0 <= i < j < |bucket| ==> bucket[i].he != bucket[j].he)
  }

  /** The candidates below k are in the bucket of their hash, and no other net is in any bucket. */
  ghost predicate BucketsOk(nets: seq<Net>, hashes: seq<nat>, buckets: seq<seq<NetInformation>>, bucketOf: nat -> nat, k: nat) {
    && |hashes| == |nets|
    && (forall b: nat {:trigger BucketAt(nets, hashes, buckets, bucketOf, k, b)} :: b < |buckets| ==> BucketAt(nets, hashes, buckets, bucketOf, k, b))
  }

  ghost predicate BucketAt(nets: seq<Net>, hashes: seq<nat>, buckets: seq<seq<NetInformation>>, bucketOf: nat -> nat, k: nat, b: nat)
    requires b < |buckets| && |hashes| == |nets|
  {
    && BucketOk(nets, hashes, buckets[b])
    && forall e: nat {:trigger Listed(buckets[b], e)} :: Listed(buckets[b], e) <==> e < k && Candidate(nets, e) && bucketOf(hashes[e]) == b
  }

  lemma NoBuckets(nets: seq<Net>, hashes: seq<nat>, buckets: seq<seq<NetInformation>>, bucketOf: nat -> nat)
    requires |hashes| == |nets| && forall b: nat :: b < |buckets| ==> buckets[b] == []
    ensures BucketsOk(nets, hashes, buckets, bucketOf, 0)
  {
    forall b: nat | b < |buckets| ensures BucketAt(nets, hashes, buckets, bucketOf, 0, b) {}
  }

  lemma Bucketed(nets: seq<Net>, hashes: seq<nat>, buckets: seq<seq<NetInformation>>, bucketOf: nat -> nat, k: nat)
    requires BucketsOk(nets, hashes, buckets, bucketOf, k) && k < |nets| && bucketOf(hashes[k]) < |buckets|
    ensures Candidate(nets, k) ==>
              var b := bucketOf(hashes[k]);
              BucketsOk(nets, hashes, buckets[b := buckets[b] + [NetInformation(k, hashes[k], |nets[k].pins|)]], bucketOf, k + 1)
    ensures !Candidate(nets, k) ==> BucketsOk(nets, hashes, buckets, bucketOf, k + 1)
  {
    var home, info, next := bucketOf(hashes[k]), NetInformation(k, hashes[k], |nets[k].pins|), k + 1;
    var buckets' := if Candidate(nets, k) then buckets[home := buckets[home] + [info]] else buckets;
    forall b: nat | b < |buckets| ensures BucketAt(nets, hashes, buckets', bucketOf, next, b) {
      assert BucketAt(nets, hashes, buckets, bucketOf, k, b);
      if Candidate(nets, k) && b == home {
        BucketGrows(nets, hashes, buckets[b], info);
      }
    }
  }

  lemma BucketGrows(nets: seq<Net>, hashes: seq<nat>, bucket: seq<NetInformation>, info: NetInformation)
    requires BucketOk(nets, hashes, bucket) && InfoOk(nets, hashes, info) && !Listed(bucket, info.he)
    ensures BucketOk(nets, hashes, bucket + [info])
    ensures forall e: nat {:trigger Listed(bucket + [info], e)} :: Listed(bucket + [info], e) <==> Listed(bucket, e) || e == info.he
  {
    var bucket' := bucket + [info];
    forall i: nat | i < |bucket'| ensures InfoOk(nets, hashes, bucket'[i]) {
      if i < |bucket| { assert InfoOk(nets, hashes, bucket[i]); }
    }
    forall e: nat ensures Listed(bucket', e) <==> Listed(bucket, e) || e == info.he {
      if Listed(bucket, e) {
        var i :| 0 <= i < |bucket| && bucket[i].he == e;
        assert bucket'[i].he == e;
      }
      assert bucket'[|bucket|] == info;
    }
  }

  /** With a net, the bucket has all nets with its pins. */
  ghost predicate BucketClosed(nets: seq<Net>, hashes: seq<nat>, s: seq<NetInformation>) {
    && |hashes| == |nets| && BucketOk(nets, hashes, s)
    && (forall e: nat, f: nat {:trigger SamePins(nets, e, f)} :: SamePins(nets, e, f) ==> hashes[e] == hashes[f])
    && (forall e: nat, f: nat {:trigger Listed(s, e), SamePins(nets, e, f)} :: SamePins(nets, e, f) && Listed(s, e) ==> Listed(s, f))
  }

  /** A sorted bucket: equal hashes stand together, and nets with the same pins in the order of their ids. */
  ghost predicate SearchOrder(nets: seq<Net>, hashes: seq<nat>, s: seq<NetInformation>) {
    BucketClosed(nets, hashes, s) && Sorted(s, Before)
  }

  lemma BeforeIsOrder()
    ensures IsOrder(Before)
  {
  }

  lemma BucketSorted(nets: seq<Net>, hashes: seq<nat>, bucket: seq<NetInformation>, s: seq<NetInformation>)
    requires BucketOk(nets, hashes, bucket) && multiset(s) == multiset(bucket)
    ensures BucketOk(nets, hashes, s) && forall e: nat {:trigger Listed(s, e)} :: Listed(s, e) <==> Listed(bucket, e)
  {
    forall i: nat | i < |s| ensures InfoOk(nets, hashes, s[i]) {
      assert s[i] in multiset(bucket);
      var k: nat :| k < |bucket| && bucket[k] == s[i];
      assert InfoOk(nets, hashes, bucket[k]);
    }
    forall i, j | 0 <= i < j < |s| ensures s[i].he != s[j].he {
      SortedOnce(bucket, s, i, j);
    }
    forall e: nat ensures Listed(s, e) <==> Listed(bucket, e) {
      if Listed(s, e) { SameListed(s, bucket, e); }
      if Listed(bucket, e) { SameListed(bucket, s, e); }
    }
  }

  lemma SortedOnce(bucket: seq<NetInformation>, s: seq<NetInformation>, i: nat, j: nat)
    requires multiset(s) == multiset(bucket) && i < j < |s|
    requires forall a, b :: 0 <= a < b < |bucket| ==> bucket[a].he != bucket[b].he
    ensures s[i].he != s[j].he
  {
    InfoOnce(bucket, s[i]);
    assert s == s[..i] + [s[i]] + s[i + 1..j] + [s[j]] + s[j + 1..];
    assert s[i] == s[j] ==> multiset(s)[s[i]] >= 2;
    assert s[i] in multiset(bucket) && s[j] in multiset(bucket);
    var k: nat :| k < |bucket| && bucket[k] == s[i];
    var l: nat :| l < |bucket| && bucket[l] == s[j];
  }

  lemma SameListed(s: seq<NetInformation>, t: seq<NetInformation>, e: nat)
    requires multiset(s) == multiset(t) && Listed(s, e)
    ensures Listed(t, e)
  {
    var i :| 0 <= i < |s| && s[i].he == e;
    assert s[i] in multiset(t);
    var k :| 0 <= k < |t| && t[k] == s[i];
  }

  lemma {:induction false} InfoOnce(s: seq<NetInformation>, x: NetInformation)
    requires forall i, j :: 0 <= i < j < |s| ==> s[i].he != s[j].he
    ensures multiset(s)[x] <= 1
  {
    if s != [] {
      var k := |s| - 1;
      assert s == s[..k] + [s[k]];
      InfoOnce(s[..k], x);
      assert s[k] !in s[..k];
      assert s[k] in multiset(s[..k]) <==> s[k] in s[..k];
    }
  }

  lemma SameInOrder(nets: seq<Net>, hashes: seq<nat>, s: seq<NetInformation>, i: nat, j: nat)
    requires SearchOrder(nets, hashes, s) && i < j < |s|
    ensures SamePins(nets, s[i].he, s[j].he) ==> s[i].he < s[j].he && s[i].hash == s[j].hash
    ensures s[i].hash <= s[j].hash
  {
    assert !Before(s[j], s[i]);
    assert InfoOk(nets, hashes, s[i]) && InfoOk(nets, hashes, s[j]);
  }

  /** A net that no earlier one in its bucket equals is kept. */
  lemma FirstIsKept(nets: seq<Net>, hashes: seq<nat>, s: seq<NetInformation>, i: nat)
    requires SearchOrder(nets, hashes, s) && i < |s|
    ensures Kept(nets, s[i].he) <==> forall k: nat {:trigger s[k]} :: k < i ==> !SamePins(nets, s[k].he, s[i].he)
  {
    assert InfoOk(nets, hashes, s[i]);
    if forall k: nat {:trigger s[k]} :: k < i ==> !SamePins(nets, s[k].he, s[i].he) {
      forall f: nat | f < s[i].he ensures !SamePins(nets, f, s[i].he) {
        if SamePins(nets, f, s[i].he) {
          assert SamePins(nets, s[i].he, f) && Listed(s, s[i].he) && Listed(s, f);
          var k: nat :| k < |s| && s[k].he == f;
          if i < k { SameInOrder(nets, hashes, s, i, k); }
        }
      }
    } else {
      var k: nat :| k < i && SamePins(nets, s[k].he, s[i].he);
      SameInOrder(nets, hashes, s, k, i);
    }
  }

  // ---------- Searching a bucket ----------

  /** No net at one of the first i positions, and before k, has the pins of the net at k. */
  ghost predicate NewAt(nets: seq<Net>, s: seq<NetInformation>, i: nat, k: nat)
    requires k < |s|
  {
    forall m: nat {:trigger s[m]} :: m < i && m < k ==> !SamePins(nets, s[m].he, s[k].he)
  }

  lemma NewNext(nets: seq<Net>, s: seq<NetInformation>, i: nat, k: nat)
    requires i < |s| && k < |s|
    ensures NewAt(nets, s, i + 1, k) <==> NewAt(nets, s, i, k) && (i < k ==> !SamePins(nets, s[i].he, s[k].he))
  {
  }

  /** Slot k after position i was compared with the positions before j, and all earlier positions with
      everything: it is valid unless one of them has its pins. */
  ghost predicate SlotOk(nets: seq<Net>, s: seq<NetInformation>, valid: seq<bool>, gone: set<nat>, heavy: set<nat>, i: nat, j: nat, k: nat)
    requires k < |s| == |valid|
  {
    && (valid[k] <==> NewAt(nets, s, if k < j then i + 1 else i, k))
    && (s[k].he in gone <==> !valid[k])
    && (s[k].he in heavy <==> k < i && Kept(nets, s[k].he))
  }

  ghost predicate OtherNet(s: seq<NetInformation>, gone0: set<nat>, heavy0: set<nat>, gone: set<nat>, heavy: set<nat>, e: nat) {
    Listed(s, e) || ((e in gone <==> e in gone0) && (e in heavy <==> e in heavy0))
  }

  ghost predicate Searching(nets: seq<Net>, s: seq<NetInformation>, valid: seq<bool>, gone0: set<nat>, heavy0: set<nat>, gone: set<nat>, heavy: set<nat>, i: nat, j: nat) {
    && |valid| == |s|
    && (forall k: nat {:trigger SlotOk(nets, s, valid, gone, heavy, i, j, k)} :: k < |s| ==> SlotOk(nets, s, valid, gone, heavy, i, j, k))
    && (forall e: nat {:trigger OtherNet(s, gone0, heavy0, gone, heavy, e)} :: OtherNet(s, gone0, heavy0, gone, heavy, e))
  }

  lemma SearchStarts(nets: seq<Net>, s: seq<NetInformation>, valid: seq<bool>, gone: set<nat>, heavy: set<nat>)
    requires |valid| == |s| && forall k: nat :: k < |s| ==> valid[k] && s[k].he !in gone && s[k].he !in heavy
    ensures Searching(nets, s, valid, gone, heavy, gone, heavy, 0, 0)
  {
    forall k: nat | k < |s| ensures SlotOk(nets, s, valid, gone, heavy, 0, 0, k) {}
    forall e: nat ensures OtherNet(s, gone, heavy, gone, heavy, e) {}
  }

  lemma CompareStarts(nets: seq<Net>, s: seq<NetInformation>, valid: seq<bool>, gone0: set<nat>, heavy0: set<nat>, gone: set<nat>, heavy: set<nat>, i: nat)
    requires Searching(nets, s, valid, gone0, heavy0, gone, heavy, i, 0) && i < |s| && valid[i]
    ensures Searching(nets, s, valid, gone0, heavy0, gone, heavy, i, i + 1) && NewAt(nets, s, i, i)
  {
    var j := i + 1;
    assert SlotOk(nets, s, valid, gone, heavy, i, 0, i);
    forall k: nat | k < |s| ensures SlotOk(nets, s, valid, gone, heavy, i, j, k) {
      assert SlotOk(nets, s, valid, gone, heavy, i, 0, k);
      NewNext(nets, s, i, k);
    }
  }

  /** Comparing position i with position j. */
  lemma CompareStep(nets: seq<Net>, hashes: seq<nat>, s: seq<NetInformation>, valid: seq<bool>, gone0: set<nat>, heavy0: set<nat>, gone: set<nat>, heavy: set<nat>,
                    i: nat, j: nat)
    requires Searching(nets, s, valid, gone0, heavy0, gone, heavy, i, j) && SearchOrder(nets, hashes, s) && i < j < |s| && NewAt(nets, s, i, i)
    ensures SamePins(nets, s[i].he, s[j].he) ==>
              valid[j] && Searching(nets, s, valid[j := false], gone0, heavy0, gone + {s[j].he}, heavy, i, j + 1)
    ensures !SamePins(nets, s[i].he, s[j].he) ==> Searching(nets, s, valid, gone0, heavy0, gone, heavy, i, j + 1)
  {
    var same, j' := SamePins(nets, s[i].he, s[j].he), j + 1;
    var valid', gone' := if same then valid[j := false] else valid, if same then gone + {s[j].he} else gone;
    assert SlotOk(nets, s, valid, gone, heavy, i, j, j);
    if same {
      forall m: nat | m < i ensures !SamePins(nets, s[m].he, s[j].he) {
        assert !SamePins(nets, s[m].he, s[i].he);
      }
    }
    forall k: nat | k < |s| ensures SlotOk(nets, s, valid', gone', heavy, i, j', k) {
      assert SlotOk(nets, s, valid, gone, heavy, i, j, k);
      NewNext(nets, s, i, k);
    }
    forall e: nat ensures OtherNet(s, gone0, heavy0, gone', heavy, e) {
      assert OtherNet(s, gone0, heavy0, gone, heavy, e);
      assert e == s[j].he ==> Listed(s, e);
    }
  }

  /** The net at i was compared with all that can have its pins. */
  lemma CompareEnds(nets: seq<Net>, hashes: seq<nat>, s: seq<NetInformation>, valid: seq<bool>, gone0: set<nat>, heavy0: set<nat>, gone: set<nat>, heavy: set<nat>,
                    i: nat, j: nat)
    requires Searching(nets, s, valid, gone0, heavy0, gone, heavy, i, j) && SearchOrder(nets, hashes, s) && i < j <= |s| && NewAt(nets, s, i, i)
    requires forall k: nat :: j <= k < |s| ==> !SamePins(nets, s[i].he, s[k].he)
    ensures Kept(nets, s[i].he) && Searching(nets, s, valid, gone0, heavy0, gone, heavy + {s[i].he}, i + 1, 0)
  {
    var i', heavy' := i + 1, heavy + {s[i].he};
    FirstIsKept(nets, hashes, s, i);
    forall k: nat | k < |s| ensures SlotOk(nets, s, valid, gone, heavy', i', 0, k) {
      assert SlotOk(nets, s, valid, gone, heavy, i, j, k);
      NewNext(nets, s, i, k);
    }
    forall e: nat ensures OtherNet(s, gone0, heavy0, gone, heavy', e) {
      assert OtherNet(s, gone0, heavy0, gone, heavy, e);
      assert e == s[i].he ==> Listed(s, e);
    }
  }

  lemma SkipInvalid(nets: seq<Net>, hashes: seq<nat>, s: seq<NetInformation>, valid: seq<bool>, gone0: set<nat>, heavy0: set<nat>, gone: set<nat>, heavy: set<nat>, i: nat)
    requires Searching(nets, s, valid, gone0, heavy0, gone, heavy, i, 0) && SearchOrder(nets, hashes, s) && i < |s| && !valid[i]
    ensures Searching(nets, s, valid, gone0, heavy0, gone, heavy, i + 1, 0)
  {
    var i' := i + 1;
    assert SlotOk(nets, s, valid, gone, heavy, i, 0, i);
    var m: nat :| m < i && SamePins(nets, s[m].he, s[i].he);
    FirstIsKept(nets, hashes, s, i);
    forall k: nat | k < |s| ensures SlotOk(nets, s, valid, gone, heavy, i', 0, k) {
      assert SlotOk(nets, s, valid, gone, heavy, i, 0, k);
      NewNext(nets, s, i, k);
      assert SamePins(nets, s[i].he, s[k].he) ==> SamePins(nets, s[m].he, s[k].he);
    }
  }

  /** A searched bucket: its kept nets have their weight, the others are gone. */
  lemma SearchEnds(nets: seq<Net>, hashes: seq<nat>, s: seq<NetInformation>, valid: seq<bool>, gone0: set<nat>, heavy0: set<nat>, gone: set<nat>, heavy: set<nat>, e: nat)
    requires Searching(nets, s, valid, gone0, heavy0, gone, heavy, |s|, 0) && SearchOrder(nets, hashes, s)
    ensures Listed(s, e) ==> (e in gone <==> Goes(nets, e)) && (e in heavy <==> Kept(nets, e))
    ensures !Listed(s, e) ==> (e in gone <==> e in gone0) && (e in heavy <==> e in heavy0)
  {
    assert OtherNet(s, gone0, heavy0, gone, heavy, e);
    if Listed(s, e) {
      var k: nat :| k < |s| && s[k].he == e;
      assert SlotOk(nets, s, valid, gone, heavy, |s|, 0, k) && InfoOk(nets, hashes, s[k]);
      FirstIsKept(nets, hashes, s, k);
    }
  }

  /** The nets found equal to the one at i, itself included. */
  ghost function MergedUpTo(nets: seq<Net>, s: seq<NetInformation>, i: nat, j: nat): set<nat>
    requires i < |s| && j <= |s|
  {
    set m: nat | i <= m < j && SamePins(nets, s[m].he, s[i].he) :: s[m].he
  }

  lemma MergedMore(nets: seq<Net>, s: seq<NetInformation>, i: nat, j: nat)
    requires i < j < |s| && forall a, b :: 0 <= a < b < |s| ==> s[a].he != s[b].he
    ensures MergedUpTo(nets, s, i, j + 1) == MergedUpTo(nets, s, i, j) + (if SamePins(nets, s[j].he, s[i].he) then {s[j].he} else {})
    ensures s[j].he !in MergedUpTo(nets, s, i, j)
  {
  }

  /** When the comparison stops, all nets with the pins of the one at i have been found. */
  lemma WholeClass(nets: seq<Net>, hashes: seq<nat>, s: seq<NetInformation>, i: nat, j: nat)
    requires SearchOrder(nets, hashes, s) && i < j <= |s| && NewAt(nets, s, i, i)
    requires j < |s| ==> s[j].hash != s[i].hash
    ensures ClassWeight(nets, MergedUpTo(nets, s, i, j), s[i].he) == ClassWeight(nets, All(nets), s[i].he)
    ensures forall k: nat :: j <= k < |s| ==> !SamePins(nets, s[i].he, s[k].he)
  {
    forall k: nat | j <= k < |s| ensures s[k].hash != s[i].hash && !SamePins(nets, s[i].he, s[k].he) {
      SameInOrder(nets, hashes, s, i, k);
      SameInOrder(nets, hashes, s, i, j);
      if j < k { SameInOrder(nets, hashes, s, j, k); }
    }
    forall x: nat | x < |nets| && SamePins(nets, x, s[i].he) ensures x in MergedUpTo(nets, s, i, j) <==> x in All(nets) {
      assert SamePins(nets, s[i].he, x) && Listed(s, s[i].he) && Listed(s, x);
      var m: nat :| m < |s| && s[m].he == x;
    }
    SameClass(nets, MergedUpTo(nets, s, i, j), All(nets), s[i].he);
  }

  // ---------- Preparing the nets ----------

  /** The nets below k with a single pin are gone, the other enabled ones are sorted and in their bucket. */
  ghost predicate Prepared(edges: seq<Hyperedge>, nets: seq<Net>, hashes: seq<nat>, buckets: seq<seq<NetInformation>>, list: seq<ParallelHyperedge>,
                           gone: set<nat>, bucketOf: nat -> nat, hashOf: nat -> nat, k: nat) {
    && StateOf(edges, nets, hashes, gone, {}, k, hashOf) && BucketsOk(nets, hashes, buckets, bucketOf, k) && ListOf(nets, list, gone)
    && forall e: nat {:trigger e in gone} :: e in gone <==> e < k && Goes(nets, e) && !Candidate(nets, e)
  }

  lemma NothingPrepared(edges: seq<Hyperedge>, buckets: seq<seq<NetInformation>>, bucketOf: nat -> nat, hashOf: nat -> nat)
    requires EdgesValid(edges) && HashesOk(edges, hashOf) && forall b: nat :: b < |buckets| ==> buckets[b] == []
    ensures Prepared(edges, NetsOf(edges), Hashes(edges), buckets, [], {}, bucketOf, hashOf, 0)
  {
    StateStarts(edges, hashOf);
    NoBuckets(NetsOf(edges), Hashes(edges), buckets, bucketOf);
  }

  lemma NotYetPrepared(edges: seq<Hyperedge>, nets: seq<Net>, hashes: seq<nat>, gone: set<nat>, heavy: set<nat>, k: nat, x: nat, hashOf: nat -> nat)
    requires StateOf(edges, nets, hashes, gone, heavy, k, hashOf) && x < |edges| && x !in gone && x !in heavy
    ensures |nets| == |hashes| == |edges|
    ensures edges[x].Valid() && HashOk(edges[x], hashOf) && edges[x].hash == hashes[x] && NetAt(edges[x]) == nets[x]
    ensures edges[x].size == |nets[x].pins|
  {
    assert StateAt(edges, nets, hashes, gone, heavy, k, hashOf, x);
    SizeIsPins(edges[x]);
  }

  lemma SortedNet(edges: seq<Hyperedge>, nets: seq<Net>, hashes: seq<nat>, buckets: seq<seq<NetInformation>>, list: seq<ParallelHyperedge>,
                  gone: set<nat>, bucketOf: nat -> nat, hashOf: nat -> nat, k: nat, edge: Hyperedge)
    requires Prepared(edges, nets, hashes, buckets, list, gone, bucketOf, hashOf, k) && k < |edges| && Candidate(nets, k) && bucketOf(hashes[k]) < |buckets|
    requires edge.Valid() && HashOk(edge, hashOf) && NetAt(edge) == nets[k] && edge.hash == hashes[k] && Ascending(edge.pins[..edge.size])
    ensures var b := bucketOf(hashes[k]);
            Prepared(edges[k := edge], nets, hashes, buckets[b := buckets[b] + [NetInformation(k, hashes[k], |nets[k].pins|)]], list, gone, bucketOf, hashOf, k + 1)
  {
    StateStep(edges, nets, hashes, gone, {}, k, hashOf, k, edge, gone, {}, k + 1);
    Bucketed(nets, hashes, buckets, bucketOf, k);
  }

  lemma DroppedNet(edges: seq<Hyperedge>, nets: seq<Net>, hashes: seq<nat>, buckets: seq<seq<NetInformation>>, list: seq<ParallelHyperedge>,
                   gone: set<nat>, bucketOf: nat -> nat, hashOf: nat -> nat, k: nat)
    requires Prepared(edges, nets, hashes, buckets, list, gone, bucketOf, hashOf, k) && k < |edges| && bucketOf(hashes[k]) < |buckets|
    requires nets[k].enabled && !Candidate(nets, k)
    ensures Prepared(edges[k := edges[k].(enabled := false)], nets, hashes, buckets, list + [ParallelHyperedge(k, INVALID)], gone + {k}, bucketOf, hashOf, k + 1)
  {
    NotYetPrepared(edges, nets, hashes, gone, {}, k, k, hashOf);
    StateStep(edges, nets, hashes, gone, {}, k, hashOf, k, edges[k].(enabled := false), gone + {k}, {}, k + 1);
    Bucketed(nets, hashes, buckets, bucketOf, k);
    ListStep(nets, list, gone, ParallelHyperedge(k, INVALID));
  }

  lemma DisabledNet(edges: seq<Hyperedge>, nets: seq<Net>, hashes: seq<nat>, buckets: seq<seq<NetInformation>>, list: seq<ParallelHyperedge>,
                    gone: set<nat>, bucketOf: nat -> nat, hashOf: nat -> nat, k: nat)
    requires Prepared(edges, nets, hashes, buckets, list, gone, bucketOf, hashOf, k) && k < |edges| && bucketOf(hashes[k]) < |buckets| && !nets[k].enabled
    ensures Prepared(edges, nets, hashes, buckets, list, gone, bucketOf, hashOf, k + 1)
  {
    NotYetPrepared(edges, nets, hashes, gone, {}, k, k, hashOf);
    StateStep(edges, nets, hashes, gone, {}, k, hashOf, k, edges[k], gone, {}, k + 1);
    assert edges[k := edges[k]] == edges;
    Bucketed(nets, hashes, buckets, bucketOf, k);
  }

  // ---------- Merging the nets parallel to one ----------

  /** Position i of a bucket has been compared with those before j, and `weight` adds up what was found. */
  ghost predicate Comparing(edges: seq<Hyperedge>, nets: seq<Net>, hashes: seq<nat>, s: seq<NetInformation>, valid: seq<bool>, list: seq<ParallelHyperedge>,
                            gone0: set<nat>, heavy0: set<nat>, gone: set<nat>, heavy: set<nat>, weight: int, i: nat, j: nat, hashOf: nat -> nat) {
    && StateOf(edges, nets, hashes, gone, heavy, |nets|, hashOf) && ListOf(nets, list, gone)
    && Searching(nets, s, valid, gone0, heavy0, gone, heavy, i, j) && SearchOrder(nets, hashes, s)
    && i < j <= |s| && NewAt(nets, s, i, i) && weight == ClassWeight(nets, MergedUpTo(nets, s, i, j), s[i].he)
  }

  lemma ComparingStarts(edges: seq<Hyperedge>, nets: seq<Net>, hashes: seq<nat>, s: seq<NetInformation>, valid: seq<bool>, list: seq<ParallelHyperedge>,
                        gone0: set<nat>, heavy0: set<nat>, gone: set<nat>, heavy: set<nat>, i: nat, hashOf: nat -> nat)
    requires StateOf(edges, nets, hashes, gone, heavy, |nets|, hashOf) && ListOf(nets, list, gone)
    requires Searching(nets, s, valid, gone0, heavy0, gone, heavy, i, 0) && SearchOrder(nets, hashes, s) && i < |s| && valid[i]
    ensures s[i].he < |edges| && Comparing(edges, nets, hashes, s, valid, list, gone0, heavy0, gone, heavy, edges[s[i].he].weight, i, i + 1, hashOf)
  {
    CompareStarts(nets, s, valid, gone0, heavy0, gone, heavy, i);
    assert InfoOk(nets, hashes, s[i]) && SlotOk(nets, s, valid, gone, heavy, i, 0, i);
    NotYetPrepared(edges, nets, hashes, gone, heavy, |nets|, s[i].he, hashOf);
    assert MergedUpTo(nets, s, i, i + 1) == {s[i].he};
    OnlyItself(nets, s[i].he);
  }

  /** Both nets that are compared are as before up to being sorted, and only a net that is still valid and
      has the same hash can have the same pins. */
  lemma PairFacts(edges: seq<Hyperedge>, nets: seq<Net>, hashes: seq<nat>, s: seq<NetInformation>, valid: seq<bool>, list: seq<ParallelHyperedge>,
                  gone0: set<nat>, heavy0: set<nat>, gone: set<nat>, heavy: set<nat>, weight: int, i: nat, j: nat, hashOf: nat -> nat)
    requires Comparing(edges, nets, hashes, s, valid, list, gone0, heavy0, gone, heavy, weight, i, j, hashOf) && j < |s|
    ensures s[i].he < |edges| && s[j].he < |edges| && edges[s[i].he].Valid() && edges[s[j].he].Valid()
    ensures Ascending(edges[s[i].he].pins[..edges[s[i].he].size]) && Ascending(edges[s[j].he].pins[..edges[s[j].he].size])
    ensures SamePins(nets, s[i].he, s[j].he) <==> edges[s[i].he].Pins() == edges[s[j].he].Pins()
    ensures SamePins(nets, s[i].he, s[j].he) ==> valid[j] && s[i].hash == s[j].hash
    ensures valid[j] ==> NetAt(edges[s[j].he]) == nets[s[j].he]
    ensures edges[s[j].he].hash == hashes[s[j].he] && HashOk(edges[s[j].he], hashOf)
  {
    var x, y := s[i].he, s[j].he;
    assert InfoOk(nets, hashes, s[i]) && InfoOk(nets, hashes, s[j]);
    assert StateAt(edges, nets, hashes, gone, heavy, |nets|, hashOf, x) && StateAt(edges, nets, hashes, gone, heavy, |nets|, hashOf, y);
    assert SlotOk(nets, s, valid, gone, heavy, i, j, j);
    CompareStep(nets, hashes, s, valid, gone0, heavy0, gone, heavy, i, j);
    SameInOrder(nets, hashes, s, i, j);
  }

  lemma MergeStep(edges: seq<Hyperedge>, nets: seq<Net>, hashes: seq<nat>, s: seq<NetInformation>, valid: seq<bool>, list: seq<ParallelHyperedge>,
                  gone0: set<nat>, heavy0: set<nat>, gone: set<nat>, heavy: set<nat>, weight: int, i: nat, j: nat, hashOf: nat -> nat)
    requires Comparing(edges, nets, hashes, s, valid, list, gone0, heavy0, gone, heavy, weight, i, j, hashOf) && j < |s|
    requires SamePins(nets, s[i].he, s[j].he)
    ensures s[j].he < |edges| && j < |valid|
    ensures Comparing(edges[s[j].he := edges[s[j].he].(enabled := false)], nets, hashes, s, valid[j := false], list + [ParallelHyperedge(s[j].he, s[i].he)],
                      gone0, heavy0, gone + {s[j].he}, heavy, weight + edges[s[j].he].weight, i, j + 1, hashOf)
  {
    var x, y := s[i].he, s[j].he;
    PairFacts(edges, nets, hashes, s, valid, list, gone0, heavy0, gone, heavy, weight, i, j, hashOf);
    assert SlotOk(nets, s, valid, gone, heavy, i, j, j);
    CompareStep(nets, hashes, s, valid, gone0, heavy0, gone, heavy, i, j);
    SameInOrder(nets, hashes, s, i, j);
    FirstIsKept(nets, hashes, s, i);
    StateStep(edges, nets, hashes, gone, heavy, |nets|, hashOf, y, edges[y].(enabled := false), gone + {y}, heavy, |nets|);
    ListStep(nets, list, gone, ParallelHyperedge(y, x));
    MergedMore(nets, s, i, j);
    OneMoreOfClass(nets, MergedUpTo(nets, s, i, j), x, y);
  }

  lemma PassStep(edges: seq<Hyperedge>, nets: seq<Net>, hashes: seq<nat>, s: seq<NetInformation>, valid: seq<bool>, list: seq<ParallelHyperedge>,
                 gone0: set<nat>, heavy0: set<nat>, gone: set<nat>, heavy: set<nat>, weight: int, i: nat, j: nat, hashOf: nat -> nat)
    requires Comparing(edges, nets, hashes, s, valid, list, gone0, heavy0, gone, heavy, weight, i, j, hashOf) && j < |s|
    requires !SamePins(nets, s[i].he, s[j].he)
    ensures Comparing(edges, nets, hashes, s, valid, list, gone0, heavy0, gone, heavy, weight, i, j + 1, hashOf)
  {
    CompareStep(nets, hashes, s, valid, gone0, heavy0, gone, heavy, i, j);
    MergedMore(nets, s, i, j);
    assert !SamePins(nets, s[j].he, s[i].he);
    assert MergedUpTo(nets, s, i, j) + {} == MergedUpTo(nets, s, i, j);
  }

  /** The weight found is that of all nets with these pins. */
  lemma ComparingEnds(edges: seq<Hyperedge>, nets: seq<Net>, hashes: seq<nat>, s: seq<NetInformation>, valid: seq<bool>, list: seq<ParallelHyperedge>,
                      gone0: set<nat>, heavy0: set<nat>, gone: set<nat>, heavy: set<nat>, weight: int, i: nat, j: nat, hashOf: nat -> nat)
    requires Comparing(edges, nets, hashes, s, valid, list, gone0, heavy0, gone, heavy, weight, i, j, hashOf)
    requires j < |s| ==> s[j].hash != s[i].hash
    ensures s[i].he < |edges|
    ensures StateOf(edges[s[i].he := edges[s[i].he].(weight := weight)], nets, hashes, gone, heavy + {s[i].he}, |nets|, hashOf)
    ensures Searching(nets, s, valid, gone0, heavy0, gone, heavy + {s[i].he}, i + 1, 0)
  {
    var x := s[i].he;
    WholeClass(nets, hashes, s, i, j);
    CompareEnds(nets, hashes, s, valid, gone0, heavy0, gone, heavy, i, j);
    assert InfoOk(nets, hashes, s[i]) && SlotOk(nets, s, valid, gone, heavy, i, j, i);
    NotYetPrepared(edges, nets, hashes, gone, heavy, |nets|, x, hashOf);
    assert StateAt(edges, nets, hashes, gone, heavy, |nets|, hashOf, x);
    StateStep(edges, nets, hashes, gone, heavy, |nets|, hashOf, x, edges[x].(weight := weight), gone, heavy + {x}, |nets|);
  }

  // ---------- All buckets ----------

  /** The buckets before b have been searched. */
  ghost predicate SearchedUpTo(nets: seq<Net>, hashes: seq<nat>, gone: set<nat>, heavy: set<nat>, bucketOf: nat -> nat, b: nat) {
    |hashes| == |nets| && forall e: nat {:trigger NetSearched(nets, hashes, gone, heavy, bucketOf, b, e)} :: NetSearched(nets, hashes, gone, heavy, bucketOf, b, e)
  }

  ghost predicate NetSearched(nets: seq<Net>, hashes: seq<nat>, gone: set<nat>, heavy: set<nat>, bucketOf: nat -> nat, b: nat, e: nat)
    requires |hashes| == |nets|
  {
    && (e in gone <==> Goes(nets, e) && (Candidate(nets, e) ==> bucketOf(hashes[e]) < b))
    && (e in heavy <==> Kept(nets, e) && bucketOf(hashes[e]) < b)
  }

  lemma PreparationSearched(edges: seq<Hyperedge>, nets: seq<Net>, hashes: seq<nat>, buckets: seq<seq<NetInformation>>, list: seq<ParallelHyperedge>,
                            gone: set<nat>, bucketOf: nat -> nat, hashOf: nat -> nat)
    requires Prepared(edges, nets, hashes, buckets, list, gone, bucketOf, hashOf, |nets|)
    ensures SearchedUpTo(nets, hashes, gone, {}, bucketOf, 0)
  {
    forall e: nat ensures NetSearched(nets, hashes, gone, {}, bucketOf, 0, e) {}
  }

  ghost predicate Untouched(bucket: seq<NetInformation>, gone: set<nat>, heavy: set<nat>) {
    forall e: nat {:trigger Listed(bucket, e)} :: Listed(bucket, e) ==> e !in gone && e !in heavy
  }

  lemma BucketReady(edges: seq<Hyperedge>, nets: seq<Net>, hashes: seq<nat>, buckets: seq<seq<NetInformation>>, gone: set<nat>, heavy: set<nat>,
                    bucketOf: nat -> nat, hashOf: nat -> nat, b: nat)
    requires StateOf(edges, nets, hashes, gone, heavy, |nets|, hashOf) && BucketsOk(nets, hashes, buckets, bucketOf, |nets|)
    requires SearchedUpTo(nets, hashes, gone, heavy, bucketOf, b) && b < |buckets|
    ensures BucketClosed(nets, hashes, buckets[b]) && Untouched(buckets[b], gone, heavy)
  {
    assert BucketAt(nets, hashes, buckets, bucketOf, |nets|, b);
    forall e: nat, f: nat | SamePins(nets, e, f) ensures hashes[e] == hashes[f] {
      SameHash(edges, nets, hashes, gone, heavy, |nets|, hashOf, e, f);
    }
    forall e: nat | Listed(buckets[b], e) ensures e !in gone && e !in heavy {
      assert NetSearched(nets, hashes, gone, heavy, bucketOf, b, e);
    }
  }

  /** What searching one bucket changes. */
  ghost predicate BucketSearched(nets: seq<Net>, bucket: seq<NetInformation>, gone: set<nat>, heavy: set<nat>, gone': set<nat>, heavy': set<nat>) {
    forall e: nat {:trigger NetDone(nets, bucket, gone, heavy, gone', heavy', e)} :: NetDone(nets, bucket, gone, heavy, gone', heavy', e)
  }

  ghost predicate NetDone(nets: seq<Net>, bucket: seq<NetInformation>, gone: set<nat>, heavy: set<nat>, gone': set<nat>, heavy': set<nat>, e: nat) {
    if Listed(bucket, e) then (e in gone' <==> Goes(nets, e)) && (e in heavy' <==> Kept(nets, e))
    else (e in gone' <==> e in gone) && (e in heavy' <==> e in heavy)
  }

  lemma SearchIsDone(nets: seq<Net>, hashes: seq<nat>, bucket: seq<NetInformation>, s: seq<NetInformation>, valid: seq<bool>, gone: set<nat>, heavy: set<nat>,
                     gone': set<nat>, heavy': set<nat>)
    requires Searching(nets, s, valid, gone, heavy, gone', heavy', |s|, 0) && SearchOrder(nets, hashes, s)
    requires forall e: nat {:trigger Listed(s, e)} :: Listed(s, e) <==> Listed(bucket, e)
    ensures BucketSearched(nets, bucket, gone, heavy, gone', heavy')
  {
    forall e: nat ensures NetDone(nets, bucket, gone, heavy, gone', heavy', e) {
      SearchEnds(nets, hashes, s, valid, gone, heavy, gone', heavy', e);
      assert Listed(s, e) <==> Listed(bucket, e);
    }
  }

  lemma SearchReady(nets: seq<Net>, hashes: seq<nat>, bucket: seq<NetInformation>, s: seq<NetInformation>, valid: seq<bool>, gone: set<nat>, heavy: set<nat>)
    requires BucketClosed(nets, hashes, bucket) && Untouched(bucket, gone, heavy)
    requires Sorted(s, Before) && multiset(s) == multiset(bucket) && |valid| == |s| && forall k: nat :: k < |s| ==> valid[k]
    ensures SearchOrder(nets, hashes, s) && Searching(nets, s, valid, gone, heavy, gone, heavy, 0, 0)
    ensures forall e: nat {:trigger Listed(s, e)} :: Listed(s, e) <==> Listed(bucket, e)
  {
    BucketSorted(nets, hashes, bucket, s);
    forall e: nat, f: nat | SamePins(nets, e, f) && Listed(s, e) ensures Listed(s, f) {
      assert Listed(bucket, e);
    }
    forall k: nat | k < |s| ensures s[k].he !in gone && s[k].he !in heavy {
      assert Listed(s, s[k].he);
    }
    SearchStarts(nets, s, valid, gone, heavy);
  }

  lemma NextBucket(nets: seq<Net>, hashes: seq<nat>, buckets: seq<seq<NetInformation>>, gone: set<nat>, heavy: set<nat>, gone': set<nat>, heavy': set<nat>,
                   bucketOf: nat -> nat, b: nat)
    requires BucketsOk(nets, hashes, buckets, bucketOf, |nets|) && SearchedUpTo(nets, hashes, gone, heavy, bucketOf, b) && b < |buckets|
    requires BucketSearched(nets, buckets[b], gone, heavy, gone', heavy')
    ensures SearchedUpTo(nets, hashes, gone', heavy', bucketOf, b + 1)
  {
    var b' := b + 1;
    assert BucketAt(nets, hashes, buckets, bucketOf, |nets|, b);
    forall e: nat ensures NetSearched(nets, hashes, gone', heavy', bucketOf, b', e) {
      assert NetSearched(nets, hashes, gone, heavy, bucketOf, b, e) && NetDone(nets, buckets[b], gone, heavy, gone', heavy', e);
      assert Listed(buckets[b], e) <==> Candidate(nets, e) && bucketOf(hashes[e]) == b;
    }
  }

  /** After all buckets the nets are simplified, the flags are the nets that go, and the list names them. */
  lemma AllSearched(edges: seq<Hyperedge>, nets: seq<Net>, hashes: seq<nat>, list: seq<ParallelHyperedge>, gone: set<nat>, heavy: set<nat>,
                    bucketOf: nat -> nat, hashOf: nat -> nat, numBuckets: nat)
    requires StateOf(edges, nets, hashes, gone, heavy, |nets|, hashOf) && ListOf(nets, list, gone)
    requires SearchedUpTo(nets, hashes, gone, heavy, bucketOf, numBuckets) && forall x: nat :: bucketOf(x) < numBuckets
    ensures EdgesValid(edges) && HashesOk(edges, hashOf) && NetsOf(edges) == Simplified(nets)
    ensures gone == Flags(nets) && RemovalList(nets, list)
  {
    forall e: nat ensures (e in heavy <==> Kept(nets, e)) && (e in gone <==> Goes(nets, e)) {
      assert NetSearched(nets, hashes, gone, heavy, bucketOf, numBuckets, e);
    }
    StateEnds(edges, nets, hashes, gone, heavy, |nets|, hashOf);
    assert gone == Flags(nets);
  }
}
