/** The pins of one net: the valid ones in front, behind them those that contractions removed, and the
    hash of the valid ones. */
module PinLists {
  import opened Rings
  import opened Sums

  const TWO_TO_THE_64: nat := 0x1_0000_0000_0000_0000
  /** Value of kEdgeHashSeed. */
  const HASH_SEED: nat := 42

  datatype Hyperedge = Hyperedge(pins: seq<nat>, size: nat, weight: int, hash: nat, enabled: bool) {
    ghost predicate Valid() {
      size <= |pins| && Distinct(pins)
    }

    ghost function Pins(): set<nat>
      requires size <= |pins|
    {
      set i | 0 <= i < size :: pins[i]
    }

    /** The pins that contractions removed, the last one first. */
    function Removed(): seq<nat>
      requires size <= |pins|
    {
      pins[size..]
    }
  }

  /** The hash values of pins, one per pin. */
  function HashColumn(pins: seq<nat>, hashOf: nat -> nat): seq<int> {
    seq(|pins|, i requires 0 <= i < |pins| => hashOf(pins[i]))
  }

  /** In the contraction phase the stored hash is the seed plus the hashes of the pins, in 64 bits. */
  ghost predicate HashOk(e: Hyperedge, hashOf: nat -> nat)
    requires e.size <= |e.pins|
  {
    e.hash == (HASH_SEED + Sum(HashColumn(e.pins[..e.size], hashOf))) % TWO_TO_THE_64
  }

  // ---------- Moving v to the end ----------

  ghost predicate PinsKept(a: seq<nat>, b: seq<nat>) {
    |a| == |b| && forall p: nat {:trigger PinKept(a, b, p)} :: PinKept(a, b, p)
  }

  ghost predicate PinKept(a: seq<nat>, b: seq<nat>, p: nat) {
    p in a <==> p in b
  }

  function Swapped(s: seq<nat>, i: nat, j: nat): seq<nat>
    requires i < |s| && j < |s|
  {
    s[i := s[j]][j := s[i]]
  }

  lemma SwapKeepsPins(s: seq<nat>, i: nat, j: nat)
    requires i < |s| && j < |s| && Distinct(s)
    ensures Distinct(Swapped(s, i, j)) && PinsKept(s, Swapped(s, i, j))
  {
    var t := Swapped(s, i, j);
    forall p: nat ensures PinKept(s, t, p) {
      if p in s {
        var k :| 0 <= k < |s| && s[k] == p;
        assert t[if k == i then j else if k == j then i else k] == p;
      }
      if p in t {
        var k :| 0 <= k < |t| && t[k] == p;
        assert s[if k == i then j else if k == j then i else k] == p;
      }
    }
  }

  lemma SwapKeepsSum(s: seq<nat>, i: nat, j: nat, hashOf: nat -> nat)
    requires i < |s| && j < |s|
    ensures Sum(HashColumn(Swapped(s, i, j), hashOf)) == Sum(HashColumn(s, hashOf))
  {
    var a := HashColumn(s, hashOf);
    var b := a[i := a[j]];
    SumUpdate(a, i, a[j]);
    SumUpdate(b, j, a[i]);
    assert HashColumn(Swapped(s, i, j), hashOf) == b[j := a[i]];
  }

  /** The scan over the valid pins: v may have moved to the last slot; `slot` is where u was seen. */
  ghost predicate ScanAt(p0: seq<nat>, pins: seq<nat>, size: nat, u: nat, v: nat, idx: nat, slot: nat, hashOf: nat -> nat) {
    && 0 < size <= |p0| == |pins| && idx <= size - 1 && slot <= size - 1
    && Distinct(pins) && PinsKept(p0[..size], pins[..size]) && pins[size..] == p0[size..]
    && Sum(HashColumn(pins[..size], hashOf)) == Sum(HashColumn(p0[..size], hashOf))
    && (forall i :: 0 <= i < idx ==> pins[i] != v && (pins[i] == u ==> slot == i))
    && (slot < size - 1 ==> slot < idx && pins[slot] == u)
  }

  lemma ScanStarts(e: Hyperedge, v: nat, u: nat, hashOf: nat -> nat)
    requires e.Valid() && v in e.Pins()
    ensures 0 < e.size <= |e.pins| && ScanAt(e.pins, e.pins, e.size, u, v, 0, e.size - 1, hashOf) && v in e.pins[..e.size]
  {
    PinsOfSlice(e);
    forall p: nat ensures PinKept(e.pins[..e.size], e.pins[..e.size], p) {}
  }

  lemma ScanStep(p0: seq<nat>, pins: seq<nat>, size: nat, u: nat, v: nat, idx: nat, slot: nat, hashOf: nat -> nat)
    requires ScanAt(p0, pins, size, u, v, idx, slot, hashOf) && u != v && idx < size - 1
    ensures pins[idx] == v ==> ScanAt(p0, Swapped(pins, idx, size - 1), size, u, v, idx, slot, hashOf) && Swapped(pins, idx, size - 1)[idx] != v
    ensures pins[idx] != v ==> ScanAt(p0, pins, size, u, v, idx + 1, if pins[idx] == u then idx else slot, hashOf)
  {
    var valid := pins[..size];
    assert forall i :: 0 <= i < size ==> valid[i] == pins[i];
    if pins[idx] == v {
      var pins' := Swapped(pins, idx, size - 1);
      assert pins'[..size] == Swapped(valid, idx, size - 1);
      SwapKeepsPins(pins, idx, size - 1);
      SwapKeepsPins(valid, idx, size - 1);
      SwapKeepsSum(valid, idx, size - 1, hashOf);
      assert pins'[size..] == pins[size..];
      forall p: nat ensures PinKept(p0[..size], pins'[..size], p) {
        assert PinKept(p0[..size], valid, p) && PinKept(valid, pins'[..size], p);
      }
      assert valid[idx] != valid[size - 1];
    }
  }

  /** At the end v is last, and u was seen exactly if it is a pin. */
  lemma ScanEnd(p0: seq<nat>, pins: seq<nat>, size: nat, u: nat, v: nat, slot: nat, hashOf: nat -> nat)
    requires 0 < size && ScanAt(p0, pins, size, u, v, size - 1, slot, hashOf) && u != v && v in p0[..size]
    ensures pins[size - 1] == v
    ensures slot != size - 1 <==> u in p0[..size]
  {
    var valid := pins[..size];
    assert PinKept(p0[..size], valid, v) && PinKept(p0[..size], valid, u);
    var k :| 0 <= k < size && valid[k] == v;
    assert pins[k] == v;
    if u in valid {
      var m :| 0 <= m < size && valid[m] == u;
      assert pins[m] == u;
    }
    if slot != size - 1 {
      assert valid[slot] == u;
    }
  }

  lemma PinsOfSlice(e: Hyperedge)
    requires e.size <= |e.pins|
    ensures forall p: nat :: p in e.Pins() <==> p in e.pins[..e.size]
  {
    var s := e.pins[..e.size];
    forall p: nat ensures p in e.Pins() <==> p in s {
      if p in s {
        var i :| 0 <= i < |s| && s[i] == p;
        assert e.pins[i] == p;
      }
      if p in e.Pins() {
        var i :| 0 <= i < e.size && e.pins[i] == p;
        assert s[i] == p;
      }
    }
  }

  /** What contracting v into u does to a net of v. */
  ghost predicate PinContracted(e: Hyperedge, e': Hyperedge, u: nat, v: nat, shared: bool) {
    && e.Valid() && e'.Valid() && |e'.pins| == |e.pins| && e'.weight == e.weight && e'.enabled == e.enabled
    && shared == (u in e.Pins()) && e'.Pins() == e.Pins() - {v} + {u}
    && e'.Removed() == (if shared then [v] + e.Removed() else e.Removed())
  }

  lemma SharedContracted(e: Hyperedge, pins: seq<nat>, u: nat, v: nat, slot: nat, hashOf: nat -> nat)
    requires e.Valid() && u != v && 0 < e.size && ScanAt(e.pins, pins, e.size, u, v, e.size - 1, slot, hashOf) && v in e.Pins() && u in e.Pins() && HashOk(e, hashOf)
    ensures pins[e.size - 1] == v
    ensures var e' := e.(pins := pins, size := e.size - 1, hash := (e.hash - hashOf(v)) % TWO_TO_THE_64);
            PinContracted(e, e', u, v, true) && HashOk(e', hashOf)
  {
    PinsOfSlice(e);
    ScanEnd(e.pins, pins, e.size, u, v, slot, hashOf);
    SharedPinGoes(e, pins, u, v, slot, hashOf);
    SharedHash(e, pins, v, hashOf);
  }

  lemma SharedPinGoes(e: Hyperedge, pins: seq<nat>, u: nat, v: nat, slot: nat, hashOf: nat -> nat)
    requires 0 < e.size && ScanAt(e.pins, pins, e.size, u, v, e.size - 1, slot, hashOf) && u in e.Pins() && u != v && pins[e.size - 1] == v
    ensures var e' := e.(pins := pins, size := e.size - 1);
            e'.Valid() && e'.Pins() == e.Pins() - {v} + {u} && e'.Removed() == [v] + e.Removed()
  {
    var n := e.size - 1;
    var e' := e.(pins := pins, size := n);
    PinsOfSlice(e);
    PinsOfSlice(e');
    var valid, rest := pins[..e.size], pins[..n];
    assert valid == rest + [v];
    assert v !in rest by { assert forall i :: 0 <= i < n ==> valid[i] == rest[i]; }
    forall p: nat ensures p in e'.Pins() <==> p in e.Pins() - {v} + {u} {
      assert PinKept(e.pins[..e.size], valid, p);
    }
    assert pins[n..] == [v] + pins[e.size..];
  }

  lemma SharedHash(e: Hyperedge, pins: seq<nat>, v: nat, hashOf: nat -> nat)
    requires 0 < e.size <= |e.pins| == |pins| && pins[e.size - 1] == v && HashOk(e, hashOf)
    requires Sum(HashColumn(pins[..e.size], hashOf)) == Sum(HashColumn(e.pins[..e.size], hashOf))
    ensures HashOk(e.(pins := pins, size := e.size - 1, hash := (e.hash - hashOf(v)) % TWO_TO_THE_64), hashOf)
  {
    var valid, rest := pins[..e.size], pins[..e.size - 1];
    assert valid == rest + [v];
    SumAppend(HashColumn(rest, hashOf), [hashOf(v)]);
    assert HashColumn(valid, hashOf) == HashColumn(rest, hashOf) + [hashOf(v)];
    assert Sum([hashOf(v) as int]) == hashOf(v);
    ModMinus(HASH_SEED + Sum(HashColumn(valid, hashOf)), hashOf(v));
  }

  lemma ModMinus(a: int, b: int)
    ensures (a % TWO_TO_THE_64 - b) % TWO_TO_THE_64 == (a - b) % TWO_TO_THE_64
  {
    var q := a / TWO_TO_THE_64;
    assert a % TWO_TO_THE_64 - b == (a - b) + (-q) * TWO_TO_THE_64;
    ModShift(a - b, -q);
  }

  lemma ModShift(a: int, k: int)
    ensures (a + k * TWO_TO_THE_64) % TWO_TO_THE_64 == a % TWO_TO_THE_64
  {
  }

  lemma OtherContracted(e: Hyperedge, pins: seq<nat>, u: nat, v: nat, slot: nat, hashOf: nat -> nat)
    requires e.Valid() && u != v && 0 < e.size && ScanAt(e.pins, pins, e.size, u, v, e.size - 1, slot, hashOf) && v in e.Pins() && u !in e.Pins() && u !in e.Removed() && HashOk(e, hashOf)
    ensures pins[e.size - 1] == v
    ensures var e' := e.(pins := pins[e.size - 1 := u], hash := ((e.hash - hashOf(v)) % TWO_TO_THE_64 + hashOf(u)) % TWO_TO_THE_64);
            PinContracted(e, e', u, v, false) && HashOk(e', hashOf)
  {
    PinsOfSlice(e);
    ScanEnd(e.pins, pins, e.size, u, v, slot, hashOf);
    PinRenamed(e, pins, u, v, slot, hashOf);
    OtherHash(e, pins, u, v, hashOf);
  }

  lemma PinRenamed(e: Hyperedge, pins: seq<nat>, u: nat, v: nat, slot: nat, hashOf: nat -> nat)
    requires 0 < e.size && ScanAt(e.pins, pins, e.size, u, v, e.size - 1, slot, hashOf) && u !in e.Pins() && u !in e.Removed() && u != v && pins[e.size - 1] == v
    ensures var e' := e.(pins := pins[e.size - 1 := u]);
            e'.Valid() && e'.Pins() == e.Pins() - {v} + {u} && e'.Removed() == e.Removed()
  {
    var e' := e.(pins := pins[e.size - 1 := u]);
    PinsOfSlice(e);
    PinsOfSlice(e');
    var valid := pins[..e.size];
    assert e'.pins[..e.size] == valid[e.size - 1 := u];
    assert PinKept(e.pins[..e.size], valid, u);
    forall p: nat ensures p in e'.Pins() <==> p in e.Pins() - {v} + {u} {
      assert PinKept(e.pins[..e.size], valid, p);
      ReplaceLast(valid, u, p);
    }
    assert e'.pins[e.size..] == pins[e.size..];
    NewPin(pins, e.size, u, e.size - 1);
  }

  /** A node that is not listed may take any slot. */
  lemma NewPin(pins: seq<nat>, size: nat, u: nat, k: nat)
    requires Distinct(pins) && size <= |pins| && u !in pins[..size] && u !in pins[size..] && k < |pins|
    ensures u !in pins && Distinct(pins[k := u])
  {
    assert pins == pins[..size] + pins[size..];
  }

  lemma OtherHash(e: Hyperedge, pins: seq<nat>, u: nat, v: nat, hashOf: nat -> nat)
    requires 0 < e.size <= |e.pins| == |pins| && pins[e.size - 1] == v && HashOk(e, hashOf)
    requires Sum(HashColumn(pins[..e.size], hashOf)) == Sum(HashColumn(e.pins[..e.size], hashOf))
    ensures HashOk(e.(pins := pins[e.size - 1 := u], hash := ((e.hash - hashOf(v)) % TWO_TO_THE_64 + hashOf(u)) % TWO_TO_THE_64), hashOf)
  {
    var n, valid := e.size - 1, pins[..e.size];
    var valid' := pins[n := u][..e.size];
    assert valid' == valid[n := u];
    SumUpdate(HashColumn(valid, hashOf), n, hashOf(u));
    assert HashColumn(valid', hashOf) == HashColumn(valid, hashOf)[n := hashOf(u)];
    ModMinus(HASH_SEED + Sum(HashColumn(valid, hashOf)), hashOf(v));
    ModPlus(HASH_SEED + Sum(HashColumn(valid, hashOf)) - hashOf(v), hashOf(u));
  }

  lemma ModPlus(a: int, b: int)
    ensures (a % TWO_TO_THE_64 + b) % TWO_TO_THE_64 == (a + b) % TWO_TO_THE_64
  {
    ModMinus(a, -b);
  }

  lemma ReplaceLast(s: seq<nat>, u: nat, p: nat)
    requires s != [] && Distinct(s) && u !in s
    ensures p in s[|s| - 1 := u] <==> p == u || (p in s && p != s[|s| - 1])
    ensures Distinct(s[|s| - 1 := u])
  {
    var t := s[|s| - 1 := u];
    if p in s && p != s[|s| - 1] {
      var i :| 0 <= i < |s| && s[i] == p;
      assert t[i] == p;
    }
    assert t[|s| - 1] == u;
  }

  /** Contracts v into u inside a net of v; the result tells whether u was a pin as well. */
  method ContractPin(e: Hyperedge, u: nat, v: nat, hashOf: nat -> nat) returns (e': Hyperedge, shared: bool)
    requires e.Valid() && u != v && v in e.Pins() && u !in e.Removed() && HashOk(e, hashOf)
    ensures PinContracted(e, e', u, v, shared) && HashOk(e', hashOf)
  {
    hide ScanAt, HashOk, Hyperedge.Valid, PinContracted;
    ScanStarts(e, v, u, hashOf);
    var pins: seq<nat> := e.pins;
    var lastPinSlot: nat := e.size - 1;
    var slotOfU: nat := e.size - 1;
    var idx: nat := 0;
    while idx != lastPinSlot
      invariant |pins| == |e.pins| && idx <= lastPinSlot && ScanAt(e.pins, pins, e.size, u, v, idx, slotOfU, hashOf)
      decreases lastPinSlot - idx, if pins[idx] == v then 1 else 0
    {
      ScanStep(e.pins, pins, e.size, u, v, idx, slotOfU, hashOf);
      if pins[idx] == v {
        pins := pins[idx := pins[lastPinSlot]][lastPinSlot := pins[idx]];
      } else {
        if pins[idx] == u {
          slotOfU := idx;
        }
        idx := idx + 1;
      }
    }
    ScanEnd(e.pins, pins, e.size, u, v, slotOfU, hashOf);
    if slotOfU != lastPinSlot {
      SharedContracted(e, pins, u, v, slotOfU, hashOf);
      e' := e.(pins := pins, size := e.size - 1, hash := (e.hash - hashOf(v)) % TWO_TO_THE_64);
      shared := true;
    } else {
      OtherContracted(e, pins, u, v, slotOfU, hashOf);
      e' := e.(pins := pins[lastPinSlot := u], hash := ((e.hash - hashOf(v)) % TWO_TO_THE_64 + hashOf(u)) % TWO_TO_THE_64);
      shared := false;
    }
  }

  lemma {:induction false} OnceInDistinct(s: seq<nat>, x: nat)
    requires Distinct(s)
    ensures multiset(s)[x] <= 1
  {
    if s != [] {
      var k := |s| - 1;
      assert s == s[..k] + [s[k]];
      OnceInDistinct(s[..k], x);
      assert s[k] !in s[..k];
      assert s[k] in multiset(s[..k]) <==> s[k] in s[..k];
    }
  }

  lemma DistinctPermutation(a: seq<nat>, b: seq<nat>)
    requires Distinct(a) && multiset(a) == multiset(b)
    ensures Distinct(b)
  {
    forall i, j | 0 <= i < j < |b| ensures b[i] != b[j] {
      assert b == b[..i] + [b[i]] + b[i + 1..j] + [b[j]] + b[j + 1..];
      assert b[i] == b[j] ==> multiset(b)[b[i]] >= 2;
      OnceInDistinct(a, b[i]);
    }
  }

  // ---------- Uncontraction ----------

  /** Replaces pin u by v; the slot is searched from the end, as contraction put u there last. */
  method ReplacePin(e: Hyperedge, u: nat, v: nat) returns (e': Hyperedge)
    requires e.Valid() && u in e.Pins() && v !in e.Pins() && v !in e.Removed()
    ensures e'.Valid() && e'.Pins() == e.Pins() - {u} + {v} && e'.Removed() == e.Removed()
    ensures e'.weight == e.weight && e'.enabled == e.enabled && e'.hash == e.hash && |e'.pins| == |e.pins|
  {
    PinsOfSlice(e);
    var slot: int := e.size - 1;
    while slot >= 0 && e.pins[slot] != u
      invariant -1 <= slot < e.size
      invariant forall i :: slot < i < e.size ==> e.pins[i] != u
    {
      slot := slot - 1;
    }
    e' := e.(pins := e.pins[slot := v]);
    PinReplaced(e, e', u, v, slot);
  }

  lemma PinReplaced(e: Hyperedge, e': Hyperedge, u: nat, v: nat, slot: nat)
    requires e.Valid() && slot < e.size && e.pins[slot] == u && v !in e.Pins() && v !in e.Removed() && e' == e.(pins := e.pins[slot := v])
    ensures e'.Valid() && e'.Pins() == e.Pins() - {u} + {v} && e'.Removed() == e.Removed()
  {
    PinsOfSlice(e);
    PinsOfSlice(e');
    NewPin(e.pins, e.size, v, slot);
    var s, t := e.pins[..e.size], e'.pins[..e.size];
    assert t == s[slot := v];
    forall p: nat ensures p in t <==> (p in s && p != u) || p == v {
      if p in s && p != u {
        var i :| 0 <= i < |s| && s[i] == p;
        assert t[i] == p;
      }
      assert t[slot] == v;
    }
    forall p: nat ensures p in e'.Pins() <==> p in e.Pins() - {u} + {v} {}
    assert e'.Pins() == e.Pins() - {u} + {v};
    assert e'.pins[e.size..] == e.pins[e.size..];
  }

  /** How many of the removed pins belong to batch b, counted from the front. */
  function InBatch(removed: seq<nat>, batchIndex: seq<nat>, b: nat): (n: nat)
    ensures n <= |removed|
  {
    if removed == [] || removed[0] >= |batchIndex| || batchIndex[removed[0]] != b then 0
    else 1 + InBatch(removed[1..], batchIndex, b)
  }

  /** Makes the removed pins of batch b valid again, and reports them in order. */
  method RestoreSizeForBatch(e: Hyperedge, batchIndex: seq<nat>, b: nat) returns (e': Hyperedge, restored: seq<nat>)
    requires e.size <= |e.pins| && forall i :: e.size <= i < |e.pins| ==> e.pins[i] < |batchIndex|
    ensures e' == e.(size := e.size + InBatch(e.Removed(), batchIndex, b))
    ensures restored == e.Removed()[..InBatch(e.Removed(), batchIndex, b)]
  {
    hide InBatch;
    e' := e;
    restored := [];
    var pos := e.size;
    while pos < |e.pins| && batchIndex[e.pins[pos]] == b
      invariant e.size <= pos <= |e.pins| && e' == e.(size := pos) && restored == e.pins[e.size..pos]
      invariant InBatch(e.Removed(), batchIndex, b) == pos - e.size + InBatch(e.pins[pos..], batchIndex, b)
    {
      NextInBatch(e.pins, batchIndex, b, pos);
      restored := restored + [e.pins[pos]];
      e' := e'.(size := e'.size + 1);
      pos := pos + 1;
    }
    BatchEnds(e.pins, batchIndex, b, pos);
    assert e.Removed()[..pos - e.size] == e.pins[e.size..pos];
  }

  lemma NextInBatch(pins: seq<nat>, batchIndex: seq<nat>, b: nat, pos: nat)
    requires pos < |pins| && pins[pos] < |batchIndex| && batchIndex[pins[pos]] == b
    ensures InBatch(pins[pos..], batchIndex, b) == 1 + InBatch(pins[pos + 1..], batchIndex, b)
  {
    assert pins[pos..][1..] == pins[pos + 1..];
  }

  lemma BatchEnds(pins: seq<nat>, batchIndex: seq<nat>, b: nat, pos: nat)
    requires pos <= |pins| && (pos < |pins| ==> pins[pos] < |batchIndex| && batchIndex[pins[pos]] != b)
    ensures InBatch(pins[pos..], batchIndex, b) == 0
  {
  }

  /** The removed pins are sorted by batch, the largest index first. */
  ghost predicate ByBatch(removed: seq<nat>, batchIndex: seq<nat>) {
    && (forall i :: 0 <= i < |removed| ==> removed[i] < |batchIndex|)
    && (forall i, j :: 0 <= i < j < |removed| ==> batchIndex[removed[i]] >= batchIndex[removed[j]])
  }

  lemma {:induction false} BatchInFront(removed: seq<nat>, batchIndex: seq<nat>, b: nat)
    requires ByBatch(removed, batchIndex) && forall i :: 0 <= i < |removed| ==> batchIndex[removed[i]] <= b
    ensures forall i :: 0 <= i < |removed| ==> (batchIndex[removed[i]] == b <==> i < InBatch(removed, batchIndex, b))
  {
    if removed != [] && batchIndex[removed[0]] == b {
      var rest := removed[1..];
      assert ByBatch(rest, batchIndex);
      BatchInFront(rest, batchIndex, b);
      assert forall i :: 0 < i < |removed| ==> removed[i] == rest[i - 1];
    }
  }

  /** If no removed pin is of a later batch, exactly the removed pins of batch b are valid again. */
  lemma BatchRestored(e: Hyperedge, batchIndex: seq<nat>, b: nat)
    requires e.Valid() && ByBatch(e.Removed(), batchIndex) && forall p :: p in e.Removed() ==> batchIndex[p] <= b
    ensures var e' := e.(size := e.size + InBatch(e.Removed(), batchIndex, b));
            && e'.Valid() && ByBatch(e'.Removed(), batchIndex)
            && (forall p: nat :: p in e'.Pins() <==> p in e.Pins() || (p in e.Removed() && batchIndex[p] == b))
            && (forall p: nat :: p in e'.Removed() <==> p in e.Removed() && batchIndex[p] != b)
  {
    hide InBatch, ByBatch, Distinct;
    var removed, n := e.Removed(), InBatch(e.Removed(), batchIndex, b);
    FrontOfBatch(removed, batchIndex, b);
    var e' := e.(size := e.size + n);
    GrownParts(e, n);
    PinsOfSlice(e);
    PinsOfSlice(e');
  }

  lemma GrownParts(e: Hyperedge, n: nat)
    requires e.Valid() && n <= |e.Removed()|
    ensures var e' := e.(size := e.size + n);
            && e'.Valid() && e'.Removed() == e.Removed()[n..]
            && forall p: nat :: p in e'.pins[..e'.size] <==> p in e.pins[..e.size] || p in e.Removed()[..n]
  {
    assert e.pins[..e.size + n] == e.pins[..e.size] + e.Removed()[..n];
  }

  lemma FrontOfBatch(removed: seq<nat>, batchIndex: seq<nat>, b: nat)
    requires ByBatch(removed, batchIndex) && forall p :: p in removed ==> batchIndex[p] <= b
    ensures var n := InBatch(removed, batchIndex, b);
            && (forall p: nat :: p in removed[..n] <==> p in removed && batchIndex[p] == b)
            && (forall p: nat :: p in removed[n..] <==> p in removed && batchIndex[p] != b) && ByBatch(removed[n..], batchIndex)
  {
    var n := InBatch(removed, batchIndex, b);
    BatchInFront(removed, batchIndex, b);
    hide InBatch;
    forall p: nat ensures p in removed[..n] <==> p in removed && batchIndex[p] == b {
      if p in removed && batchIndex[p] == b {
        var i :| 0 <= i < |removed| && removed[i] == p;
        assert removed[..n][i] == p;
      }
    }
    forall p: nat ensures p in removed[n..] <==> p in removed && batchIndex[p] != b {
      if p in removed && batchIndex[p] != b {
        var i :| 0 <= i < |removed| && removed[i] == p;
        assert removed[n..][i - n] == p;
      }
    }
  }
}
