/** One incident-net list with versions.

    Removed nets stay behind the active ones and carry the version at which they were last active, so that
    removals can be undone one after the other. */
module VersionedLists {

  datatype Entry = Entry(net: nat, version: nat)

  datatype NetList = NetList(entries: seq<Entry>, size: nat, version: nat) {
    /** Exactly the first `size` entries have the current version or a larger one. The versions of the
        others do not increase, and no net occurs twice. */
    ghost predicate Valid() {
      && size <= |entries|
      && (forall i :: 0 <= i < |entries| ==> (i < size <==> entries[i].version >= version))
      && (forall i, j :: size <= i < j < |entries| ==> entries[i].version >= entries[j].version)
      && NoRepeats(entries)
    }

    /** In the contraction phase no active net is newer than the list. */
    ghost predicate Current() {
      forall i :: 0 <= i < |entries| ==> entries[i].version <= version
    }

    /** The nets that were active when the list had version k. */
    ghost function ActiveAt(k: nat): set<nat> {
      set i | 0 <= i < |entries| && entries[i].version >= k :: entries[i].net
    }

    /** The active nets at every version so far. */
    ghost function Levels(): (r: seq<set<nat>>)
      ensures |r| == version + 1
    {
      seq(version + 1, k requires 0 <= k => ActiveAt(k))
    }
  }

  ghost predicate NoRepeats(entries: seq<Entry>) {
    forall i, j :: 0 <= i < j < |entries| ==> entries[i].net != entries[j].net
  }

  ghost function Nets(entries: seq<Entry>): set<nat> {
    set i | 0 <= i < |entries| :: entries[i].net
  }

  /** The size of a list is the number of its active nets. */
  lemma SizeCounts(l: NetList)
    requires l.Valid()
    ensures l.ActiveAt(l.version) == Nets(l.entries[..l.size]) && |l.ActiveAt(l.version)| == l.size
  {
    ActiveIsPrefix(l);
    CountNets(l.entries[..l.size]);
  }

  lemma ActiveIsPrefix(l: NetList)
    requires l.Valid()
    ensures l.ActiveAt(l.version) == Nets(l.entries[..l.size])
  {
    var s := l.entries[..l.size];
    forall n ensures n in l.ActiveAt(l.version) <==> n in Nets(s) {
      if n in Nets(s) {
        var i :| 0 <= i < |s| && s[i].net == n;
        assert l.entries[i].net == n;
      }
      if n in l.ActiveAt(l.version) {
        var i :| 0 <= i < |l.entries| && l.entries[i].version >= l.version && l.entries[i].net == n;
        assert s[i].net == n;
      }
    }
  }

  lemma {:induction false} CountNets(s: seq<Entry>)
    requires NoRepeats(s)
    ensures |Nets(s)| == |s|
  {
    if s != [] {
      var t := s[..|s| - 1];
      assert NoRepeats(t);
      CountNets(t);
      LastNet(s);
    }
  }

  lemma LastNet(s: seq<Entry>)
    requires NoRepeats(s) && s != []
    ensures var t, e := s[..|s| - 1], s[|s| - 1]; Nets(s) == Nets(t) + {e.net} && e.net !in Nets(t)
  {
    var t, e := s[..|s| - 1], s[|s| - 1];
    forall n ensures n in Nets(s) <==> n in Nets(t) + {e.net} {
      if n in Nets(t) {
        var i :| 0 <= i < |t| && t[i].net == n;
        assert s[i].net == n;
      }
      if n in Nets(s) {
        var i :| 0 <= i < |s| && s[i].net == n;
        assert i < |t| ==> t[i].net == n;
      }
      assert s[|s| - 1].net == e.net;
    }
  }

  // ---------- Removal ----------

  /** The removal of the nets in `flags` has dealt with the first i entries, and moved the entries from
      `last` on to the end of the formerly active ones. */
  ghost predicate RemovingAt(l: NetList, flags: set<nat>, entries: seq<Entry>, i: nat, last: nat) {
    && l.size <= |l.entries| == |entries| && i <= last <= l.size && NoRepeats(entries)
    && (forall j :: 0 <= j < i ==> entries[j].version == l.version + 1 && entries[j].net !in flags)
    && (forall j :: i <= j < last ==> entries[j].version == l.version)
    && (forall j :: last <= j < l.size ==> entries[j].version == l.version && entries[j].net in flags)
    && (forall j :: l.size <= j < |entries| ==> entries[j] == l.entries[j])
    && (forall n: nat {:trigger Occurs(entries, l.size, n)} :: Occurs(entries, l.size, n) <==> Occurs(l.entries, l.size, n))
  }

  ghost predicate Occurs(entries: seq<Entry>, size: nat, n: nat) {
    exists j :: 0 <= j < size && j < |entries| && entries[j].net == n
  }

  lemma RemovalStart(l: NetList, flags: set<nat>)
    requires l.Valid() && l.Current()
    ensures l.size <= |l.entries| && RemovingAt(l, flags, l.entries, 0, l.size)
  {
  }

  lemma RemoveOne(l: NetList, flags: set<nat>, entries: seq<Entry>, i: nat, last: nat)
    requires RemovingAt(l, flags, entries, i, last) && i < last && entries[i].net in flags
    ensures RemovingAt(l, flags, entries[i := entries[last - 1]][last - 1 := entries[i]], i, last - 1)
  {
    var entries' := entries[i := entries[last - 1]][last - 1 := entries[i]];
    forall n: nat ensures Occurs(entries', l.size, n) <==> Occurs(l.entries, l.size, n) {
      assert Occurs(entries, l.size, n) <==> Occurs(l.entries, l.size, n);
      if Occurs(entries, l.size, n) {
        var j :| 0 <= j < l.size && entries[j].net == n;
        assert entries'[if j == i then last - 1 else if j == last - 1 then i else j].net == n;
      }
      if Occurs(entries', l.size, n) {
        var j :| 0 <= j < l.size && entries'[j].net == n;
        assert entries[if j == i then last - 1 else if j == last - 1 then i else j].net == n;
      }
    }
  }

  lemma KeepOne(l: NetList, flags: set<nat>, entries: seq<Entry>, i: nat, last: nat)
    requires RemovingAt(l, flags, entries, i, last) && i < last && entries[i].net !in flags
    ensures RemovingAt(l, flags, entries[i := entries[i].(version := l.version + 1)], i + 1, last)
  {
    var entries' := entries[i := entries[i].(version := l.version + 1)];
    forall n: nat ensures Occurs(entries', l.size, n) <==> Occurs(l.entries, l.size, n) {
      assert Occurs(entries, l.size, n) <==> Occurs(l.entries, l.size, n);
      if Occurs(entries, l.size, n) {
        var j :| 0 <= j < l.size && entries[j].net == n;
        assert entries'[j].net == n;
      }
      if Occurs(entries', l.size, n) {
        var j :| 0 <= j < l.size && entries'[j].net == n;
        assert entries[j].net == n;
      }
    }
  }

  /** What the list is after the removal. */
  lemma RemovalEnd(l: NetList, flags: set<nat>, entries: seq<Entry>, last: nat)
    requires l.Valid() && l.Current() && RemovingAt(l, flags, entries, last, last)
    ensures var l' := NetList(entries, last, l.version + 1);
            l'.Valid() && l'.Current() && l'.Levels() == l.Levels() + [l.ActiveAt(l.version) - flags]
  {
    var l' := NetList(entries, last, l.version + 1);
    forall k: nat | k <= l.version ensures l'.ActiveAt(k) == l.ActiveAt(k) {
      OlderLevel(l, flags, entries, last, k);
    }
    assert l'.ActiveAt(l.version + 1) == l.ActiveAt(l.version) - flags by {
      NewestLevel(l, flags, entries, last);
    }
  }

  lemma OlderLevel(l: NetList, flags: set<nat>, entries: seq<Entry>, last: nat, k: nat)
    requires l.Valid() && RemovingAt(l, flags, entries, last, last) && k <= l.version
    ensures NetList(entries, last, l.version + 1).ActiveAt(k) == l.ActiveAt(k)
  {
    var l' := NetList(entries, last, l.version + 1);
    forall n ensures n in l'.ActiveAt(k) <==> n in l.ActiveAt(k) {
      assert n >= 0 ==> (Occurs(entries, l.size, n) <==> Occurs(l.entries, l.size, n));
      if n in l'.ActiveAt(k) {
        var j :| 0 <= j < |entries| && entries[j].version >= k && entries[j].net == n;
        if j < l.size {
          assert Occurs(entries, l.size, n);
          var i :| 0 <= i < l.size && l.entries[i].net == n;
          assert l.entries[i].version >= k;
        } else {
          assert l.entries[j].version >= k;
        }
      }
      if n in l.ActiveAt(k) {
        var j :| 0 <= j < |l.entries| && l.entries[j].version >= k && l.entries[j].net == n;
        if j < l.size {
          assert Occurs(l.entries, l.size, n);
          var i :| 0 <= i < l.size && entries[i].net == n;
          assert entries[i].version >= k;
        } else {
          assert entries[j].version >= k;
        }
      }
    }
  }

  lemma NewestLevel(l: NetList, flags: set<nat>, entries: seq<Entry>, last: nat)
    requires l.Valid() && RemovingAt(l, flags, entries, last, last)
    ensures NetList(entries, last, l.version + 1).ActiveAt(l.version + 1) == l.ActiveAt(l.version) - flags
  {
    var l' := NetList(entries, last, l.version + 1);
    forall n ensures n in l'.ActiveAt(l.version + 1) <==> n in l.ActiveAt(l.version) - flags {
      assert n >= 0 ==> (Occurs(entries, l.size, n) <==> Occurs(l.entries, l.size, n));
      if n in l'.ActiveAt(l.version + 1) {
        var j :| 0 <= j < |entries| && entries[j].version >= l.version + 1 && entries[j].net == n;
        assert j < last;
        assert Occurs(entries, l.size, n);
        var i :| 0 <= i < l.size && l.entries[i].net == n;
        assert l.entries[i].version >= l.version;
      }
      if n in l.ActiveAt(l.version) - flags {
        var j :| 0 <= j < |l.entries| && l.entries[j].version >= l.version && l.entries[j].net == n;
        assert Occurs(l.entries, l.size, n);
        var i :| 0 <= i < l.size && entries[i].net == n;
        assert entries[i].version >= l.version + 1;
      }
    }
  }

  /** Removes the nets in `flags`: the list gets a new version without them, older versions stay. */
  method RemoveNets(l: NetList, flags: set<nat>) returns (l': NetList)
    requires l.Valid() && l.Current()
    ensures l'.Valid() && l'.Current() && |l'.entries| == |l.entries|
    ensures l'.Levels() == l.Levels() + [l.ActiveAt(l.version) - flags]
  {
    hide RemovingAt, NetList.Valid, NetList.Current;
    RemovalStart(l, flags);
    var newVersion := l.version + 1;
    var entries, size := l.entries, l.size;
    var i: nat, last: nat := 0, l.size;
    while i != last
      invariant i <= last <= |entries| == |l.entries| && RemovingAt(l, flags, entries, i, last) && size == last
      decreases last - i
    {
      if entries[i].net in flags {
        RemoveOne(l, flags, entries, i, last);
        last := last - 1;
        entries := entries[i := entries[last]][last := entries[i]];
        size := size - 1;
      } else {
        KeepOne(l, flags, entries, i, last);
        entries := entries[i := entries[i].(version := newVersion)];
        i := i + 1;
      }
    }
    RemovalEnd(l, flags, entries, last);
    l' := NetList(entries, size, newVersion);
  }

  // ---------- Restoring ----------

  /** Goes back one version. `caseTwo` lists the nets that stayed, `caseOne` those that return. */
  method RestoreNets(l: NetList) returns (l': NetList, caseTwo: seq<nat>, caseOne: seq<nat>)
    requires l.Valid() && l.version > 0
    ensures l'.Valid() && l'.entries == l.entries && l'.Levels() == l.Levels()[..l.version]
    ensures l.size <= l'.size && |caseTwo| == l.size
    ensures forall n: nat :: n in caseTwo <==> n in l.ActiveAt(l.version)
    ensures forall n: nat :: n in caseOne <==> n in l'.ActiveAt(l'.version) - l.ActiveAt(l.version)
  {
    var newVersion := l.version - 1;
    caseTwo := [];
    for i := 0 to l.size
      invariant caseTwo == seq(i, j requires 0 <= j < i => l.entries[j].net)
    {
      caseTwo := caseTwo + [l.entries[i].net];
    }
    var size := l.size;
    caseOne := [];
    while size < |l.entries| && l.entries[size].version == newVersion
      invariant l.size <= size <= |l.entries|
      invariant forall i :: l.size <= i < size ==> l.entries[i].version == newVersion
      invariant caseOne == seq(size - l.size, i requires 0 <= i < size - l.size => l.entries[l.size + i].net)
    {
      caseOne := caseOne + [l.entries[size].net];
      size := size + 1;
    }
    l' := NetList(l.entries, size, newVersion);
    assert forall k: nat :: l'.ActiveAt(k) == l.ActiveAt(k);
    CallbacksSplit(l, l', caseTwo, caseOne);
  }

  lemma ListedNets(entries: seq<Entry>, lo: nat, hi: nat, nets: seq<nat>)
    requires lo <= hi <= |entries| && nets == seq(hi - lo, i requires 0 <= i < hi - lo => entries[lo + i].net)
    ensures forall n: nat :: n in nets <==> n in Nets(entries[lo..hi])
  {
    var s := entries[lo..hi];
    forall n: nat ensures n in nets <==> n in Nets(s) {
      if n in nets {
        var i :| 0 <= i < |nets| && nets[i] == n;
        assert s[i].net == n;
      }
      if n in Nets(s) {
        var i :| 0 <= i < |s| && s[i].net == n;
        assert nets[i] == n;
      }
    }
  }

  /** The callbacks tell the nets apart: those that v shared with u return to v, the others stayed. */
  lemma CallbacksSplit(l: NetList, l': NetList, caseTwo: seq<nat>, caseOne: seq<nat>)
    requires l.Valid() && l'.Valid() && l.version > 0 && l'.entries == l.entries && l'.version == l.version - 1
    requires caseTwo == seq(l.size, i requires 0 <= i < l.size => l.entries[i].net)
    requires l.size <= l'.size && caseOne == seq(l'.size - l.size, i requires 0 <= i < l'.size - l.size => l.entries[l.size + i].net)
    ensures forall n: nat :: n in caseTwo <==> n in l.ActiveAt(l.version)
    ensures forall n: nat :: n in caseOne <==> n in l'.ActiveAt(l'.version) - l.ActiveAt(l.version)
    ensures forall i, j :: 0 <= i < j < |caseOne| ==> caseOne[i] != caseOne[j]
  {
    SizeCounts(l);
    SizeCounts(l');
    hide Nets, NoRepeats;
    ListedNets(l.entries, 0, l.size, caseTwo);
    ListedNets(l.entries, l.size, l'.size, caseOne);
    NetsBetween(l.entries, l.size, l'.size);
    assert l.entries[0..l.size] == l.entries[..l.size];
  }

  lemma NetsBetween(entries: seq<Entry>, lo: nat, hi: nat)
    requires lo <= hi <= |entries| && NoRepeats(entries)
    ensures Nets(entries[lo..hi]) == Nets(entries[..hi]) - Nets(entries[..lo])
  {
    var a, b, c := entries[..lo], entries[lo..hi], entries[..hi];
    assert forall j :: 0 <= j < |a| ==> a[j] == entries[j] && a[j].net in Nets(a);
    assert forall j :: 0 <= j < |b| ==> b[j] == entries[lo + j] && b[j].net in Nets(b);
    forall n ensures n in Nets(b) <==> n in Nets(c) && n !in Nets(a) {
      if n in Nets(b) {
        var i :| 0 <= i < |b| && b[i].net == n;
        assert c[lo + i].net == n;
      }
      if n in Nets(c) && n !in Nets(a) {
        var i :| 0 <= i < |c| && c[i].net == n;
        assert entries[i].net == n;
      }
    }
  }

  /** Lists the active nets. */
  method ActiveNets(l: NetList) returns (nets: seq<nat>)
    requires l.Valid()
    ensures |nets| == l.size && forall n: nat :: n in nets <==> n in l.ActiveAt(l.version)
  {
    nets := [];
    for i := 0 to l.size
      invariant nets == seq(i, j requires 0 <= j < i => l.entries[j].net)
    {
      nets := nets + [l.entries[i].net];
    }
    ActiveIsPrefix(l);
    ListedNets(l.entries, 0, l.size, nets);
    assert l.entries[0..l.size] == l.entries[..l.size];
  }
}
