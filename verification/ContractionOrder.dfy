/** Which contractions may change places, and what undoing one of them in the middle leaves. */
module ContractionOrder {
  import opened Rings
  import opened Chains
  import opened IncidentNets
  import opened Hypergraphs

  // ---------- Contractions of different nodes commute ----------

  ghost predicate Apart(u: nat, v: nat, x: nat, y: nat) {
    u != v && x != y && u != x && u != y && v != x && v != y
  }

  lemma ChainsCommute(g: Chains, u: nat, v: nat, x: nat, y: nat)
    requires |g.rep| == |g.isHead| == |g.circ| && u < |g.rep| && v < |g.rep| && x < |g.rep| && y < |g.rep| && Apart(u, v, x, y)
    ensures Appended(Appended(g, u, v), x, y) == Appended(Appended(g, x, y), u, v)
  {
    var a, b := AllRenamed(AllRenamed(g.rep, v, u), y, x), AllRenamed(AllRenamed(g.rep, y, x), v, u);
    forall w: nat | w < |g.rep| ensures a[w] == b[w] {
      assert AllRenamed(g.rep, v, u)[w] == Renamed(g.rep[w], v, u) && AllRenamed(g.rep, y, x)[w] == Renamed(g.rep[w], y, x);
    }
    assert a == b;
    assert g.isHead[v := false][y := false] == g.isHead[y := false][v := false];
    assert g.circ[u := g.circ[u] + g.circ[v]][x := g.circ[x] + g.circ[y]] == g.circ[x := g.circ[x] + g.circ[y]][u := g.circ[u] + g.circ[v]];
  }

  /** Lists of different circles are reduced independently of each other. */
  lemma LevelsCommute(levels: seq<seq<set<nat>>>, c: seq<nat>, s: set<nat>, d: seq<nat>, t: set<nat>)
    requires Disjoint(c, d)
    ensures LevelsReduced(LevelsReduced(levels, c, s), d, t) == LevelsReduced(LevelsReduced(levels, d, t), c, s)
  {
    var a, b := LevelsReduced(levels, c, s), LevelsReduced(levels, d, t);
    forall w: nat | w < |levels| ensures LevelsReduced(a, d, t)[w] == LevelsReduced(b, c, s)[w] {
      assert a[w] == ReducedAt(levels, c, s, w) && b[w] == ReducedAt(levels, d, t, w);
      assert LevelsReduced(a, d, t)[w] == ReducedAt(a, d, t, w) && LevelsReduced(b, c, s)[w] == ReducedAt(b, c, s, w);
      NotInBoth(c, d, w);
    }
  }

  lemma NotInBoth(c: seq<nat>, d: seq<nat>, w: nat)
    requires Disjoint(c, d)
    ensures !(w in c && w in d)
  {
  }

  /** A reduction of other lists does not change how many entries the reduction of c takes away. */
  lemma LossUnchanged(levels: seq<seq<set<nat>>>, c: seq<nat>, s: set<nat>, d: seq<nat>, t: set<nat>)
    requires Disjoint(c, d)
    ensures Entries(LevelsReduced(levels, d, t), c) == Entries(levels, c)
    ensures Entries(LevelsReduced(LevelsReduced(levels, d, t), c, s), c) == Entries(LevelsReduced(levels, c, s), c)
  {
    var b := LevelsReduced(levels, d, t);
    forall w: nat | w in c && w < |levels| ensures b[w] == levels[w] && LevelsReduced(b, c, s)[w] == LevelsReduced(levels, c, s)[w] {
      NotInBoth(c, d, w);
      assert b[w] == ReducedAt(levels, d, t, w) && LevelsReduced(b, c, s)[w] == ReducedAt(b, c, s, w) && LevelsReduced(levels, c, s)[w] == ReducedAt(levels, c, s, w);
    }
    EntriesFrame(levels, b, c);
    EntriesFrame(LevelsReduced(levels, c, s), LevelsReduced(b, c, s), c);
  }

  lemma DegreesCommute(degree: seq<int>, u: nat, v: nat, a: int, x: nat, y: nat, b: int)
    requires u < |degree| && v < |degree| && x < |degree| && y < |degree| && Apart(u, v, x, y)
    ensures JoinedDegrees(JoinedDegrees(degree, u, v, a), x, y, b) == JoinedDegrees(JoinedDegrees(degree, x, y, b), u, v, a)
  {
  }

  lemma IncidencesCommute(a: Incidence, u: nat, v: nat, s: set<nat>, x: nat, y: nat, t: set<nat>)
    requires IncidentNets.CanContract(a, u, v) && IncidentNets.CanContract(a, x, y) && Apart(u, v, x, y)
    ensures IncidentNets.CanContract(IncidentNets.Contracted(a, u, v, s), x, y)
    ensures IncidentNets.Contracted(IncidentNets.Contracted(a, u, v, s), x, y, t) == IncidentNets.Contracted(IncidentNets.Contracted(a, x, y, t), u, v, s)
  {
    hide LevelsReduced, Entries, JoinedDegrees, Appended;
    IncidentNets.ContractedShape(a, u, v, s);
    StillContractable(a, u, v, s, x, y);
    StillContractable(a, x, y, t, u, v);
    CirclesDisjoint(a.chain, v, y);
    CirclesDisjoint(a.chain, y, v);
    var c, d := a.chain.circ[v], a.chain.circ[y];
    ChainsCommute(a.chain, u, v, x, y);
    LevelsCommute(a.levels, c, s, d, t);
    LossUnchanged(a.levels, c, s, d, t);
    LossUnchanged(a.levels, d, t, c, s);
    DegreesCommute(a.degree, u, v, Entries(LevelsReduced(a.levels, c, s), c) - Entries(a.levels, c),
                   x, y, Entries(LevelsReduced(a.levels, d, t), d) - Entries(a.levels, d));
  }

  lemma StillContractable(a: Incidence, u: nat, v: nat, s: set<nat>, x: nat, y: nat)
    requires IncidentNets.CanContract(a, u, v) && IncidentNets.CanContract(a, x, y) && y != u && x != v && y != v
    ensures IncidentNets.CanContract(IncidentNets.Contracted(a, u, v, s), x, y)
    ensures IncidentNets.Contracted(a, u, v, s).chain.circ[y] == a.chain.circ[y]
  {
    IncidentNets.ContractedShape(a, u, v, s);
  }

  /** v and y have the same nets before and after the contraction of the other. */
  lemma NetsUnchanged(h: Hypergraph, u: nat, v: nat, y: nat)
    requires Hypergraphs.CanContract(h, u, v) && y < |h.enabled| && h.enabled[y] && y != u && y != v
    ensures y < |h.inc.chain.circ| == |Hypergraphs.Contracted(h, u, v).inc.chain.circ|
    ensures Hypergraphs.Contracted(h, u, v).inc.NetsOf(y) == h.inc.NetsOf(y)
  {
    var shared := h.inc.NetsOf(u) * h.inc.NetsOf(v);
    NodesContractable(h, u, v);
    assert h.NodeOk(y);
    IncidentNets.ContractedShape(h.inc, u, v, shared);
    OthersKeepNets(h.inc, u, v, shared, y);
  }

  lemma NetsCommute(nets: seq<Net>, ofV: set<nat>, u: nat, v: nat, ofY: set<nat>, x: nat, y: nat)
    requires Apart(u, v, x, y)
    ensures ContractedNets(ContractedNets(nets, ofV, u, v), ofY, x, y) == ContractedNets(ContractedNets(nets, ofY, x, y), ofV, u, v)
  {
    var a, b := ContractedNets(nets, ofV, u, v), ContractedNets(nets, ofY, x, y);
    forall e: nat | e < |nets| ensures ContractedNets(a, ofY, x, y)[e] == ContractedNets(b, ofV, u, v)[e] {
      assert a[e] == ContractedAt(nets, ofV, u, v, e) && b[e] == ContractedAt(nets, ofY, x, y, e);
      assert ContractedNets(a, ofY, x, y)[e] == ContractedAt(a, ofY, x, y, e) && ContractedNets(b, ofV, u, v)[e] == ContractedAt(b, ofV, u, v, e);
      if e in ofV && e in ofY { NetCommutes(nets[e], u, v, x, y); }
    }
  }

  lemma NetCommutes(n: Net, u: nat, v: nat, x: nat, y: nat)
    requires Apart(u, v, x, y)
    ensures ContractedNet(ContractedNet(n, u, v), x, y) == ContractedNet(ContractedNet(n, x, y), u, v)
  {
    assert n.pins - {v} + {u} - {y} + {x} == n.pins - {y} + {x} - {v} + {u};
    assert n.removed + {v} + {y} == n.removed + {y} + {v};
  }

  lemma NodesCommute(weight: seq<int>, enabled: seq<bool>, u: nat, v: nat, x: nat, y: nat)
    requires u < |weight| == |enabled| && v < |weight| && x < |weight| && y < |weight| && Apart(u, v, x, y)
    ensures var a, b := weight[u := weight[u] + weight[v]], weight[x := weight[x] + weight[y]]; a[x := a[x] + a[y]] == b[u := b[u] + b[v]]
    ensures enabled[v := false][y := false] == enabled[y := false][v := false]
  {
  }

  /** Contractions of four different nodes may change places. */
  lemma ContractionsCommute(h: Hypergraph, u: nat, v: nat, x: nat, y: nat)
    requires Hypergraphs.CanContract(h, u, v) && Hypergraphs.CanContract(h, x, y) && Apart(u, v, x, y)
    ensures Hypergraphs.CanContract(Hypergraphs.Contracted(h, u, v), x, y) && Hypergraphs.CanContract(Hypergraphs.Contracted(h, x, y), u, v)
    ensures Hypergraphs.Contracted(Hypergraphs.Contracted(h, u, v), x, y) == Hypergraphs.Contracted(Hypergraphs.Contracted(h, x, y), u, v)
  {
    hide Hypergraph.Agree, Incidence.Shape, Incidence.NetsOf, ContractedNets, IncidentNets.Contracted, IncidentNets.CanContract;
    PairReady(h, u, v);
    PairReady(h, x, y);
    NetsUnchanged(h, u, v, x);
    NetsUnchanged(h, u, v, y);
    NetsUnchanged(h, x, y, u);
    NetsUnchanged(h, x, y, v);
    IncidencesCommute(h.inc, u, v, h.inc.NetsOf(u) * h.inc.NetsOf(v), x, y, h.inc.NetsOf(x) * h.inc.NetsOf(y));
    NetsCommute(h.nets, h.inc.NetsOf(v), u, v, h.inc.NetsOf(y), x, y);
    NodesCommute(h.weight, h.enabled, u, v, x, y);
  }

  lemma PairReady(h: Hypergraph, u: nat, v: nat)
    requires Hypergraphs.CanContract(h, u, v)
    ensures NodesInRange(h, u, v) && IncidentNets.CanContract(h.inc, u, v) && Hypergraphs.Contracted(h, u, v).Agree()
    ensures var inc := IncidentNets.Contracted(h.inc, u, v, h.inc.NetsOf(u) * h.inc.NetsOf(v));
            |inc.degree| == |inc.chain.circ| == |inc.chain.isHead| == |h.enabled|
  {
    NodesContractable(h, u, v);
    ContractedAgree(h, u, v);
  }

  // ---------- Sequences of contractions ----------

  /** v was contracted into u. */
  datatype Memento = Memento(u: nat, v: nat)

  ghost predicate CanContractAll(h: Hypergraph, c: seq<Memento>)
    decreases |c|
  {
    h.Agree() && (c == [] || (Hypergraphs.CanContract(h, c[0].u, c[0].v) && CanContractAll(After(h, c[0]), c[1..])))
  }

  ghost function After(h: Hypergraph, m: Memento): Hypergraph
    requires Hypergraphs.CanContract(h, m.u, m.v)
  {
    Hypergraphs.Contracted(h, m.u, m.v)
  }

  ghost function ContractedAll(h: Hypergraph, c: seq<Memento>): Hypergraph
    requires CanContractAll(h, c)
    decreases |c|
  {
    if c == [] then h else ContractedAll(After(h, c[0]), c[1..])
  }

  lemma {:induction false} ContractConcat(h: Hypergraph, a: seq<Memento>, b: seq<Memento>)
    ensures CanContractAll(h, a + b) <==> CanContractAll(h, a) && CanContractAll(ContractedAll(h, a), b)
    ensures CanContractAll(h, a + b) ==> ContractedAll(h, a + b) == ContractedAll(ContractedAll(h, a), b)
    decreases |a|
  {
    hide Hypergraph.Agree, After, Hypergraphs.CanContract;
    if a == [] {
      assert a + b == b;
    } else {
      assert (a + b)[1..] == a[1..] + b;
      if Hypergraphs.CanContract(h, a[0].u, a[0].v) {
        ContractConcat(After(h, a[0]), a[1..], b);
      }
    }
  }

  /** All nodes of a sequence are enabled before, and none is used again after it was contracted into another. */
  lemma {:induction false} NodesOfSequence(h: Hypergraph, c: seq<Memento>, k: nat)
    requires CanContractAll(h, c) && k < |c|
    ensures c[k].u < |h.enabled| && h.enabled[c[k].u] && c[k].v < |h.enabled| && h.enabled[c[k].v] && c[k].u != c[k].v
    ensures forall j :: 0 <= j < k ==> c[k].u != c[j].v && c[k].v != c[j].v
    decreases |c|
  {
    hide Hypergraph.Agree;
    if k > 0 {
      NodesOfSequence(After(h, c[0]), c[1..], k - 1);
      assert forall j :: 0 < j < k ==> c[j] == c[1..][j - 1];
    }
  }

  ghost predicate MayPass(a: Memento, rest: seq<Memento>) {
    forall j :: 0 <= j < |rest| ==> rest[j].u != a.u && rest[j].v != a.u
  }

  /** A contraction that no later one has a node in common with may as well come last. */
  lemma {:induction false} MoveToEnd(h: Hypergraph, a: Memento, rest: seq<Memento>)
    requires CanContractAll(h, [a] + rest) && MayPass(a, rest)
    ensures CanContractAll(h, rest + [a]) && ContractedAll(h, rest + [a]) == ContractedAll(h, [a] + rest)
    decreases |rest|
  {
    if rest == [] {
      assert [a] + rest == [a] == rest + [a];
    } else {
      var b, tail := rest[0], rest[1..];
      assert ([a] + rest)[1..] == rest && (rest + [a])[1..] == tail + [a];
      NodesOfSequence(h, [a] + rest, 1);
      assert ([a] + rest)[1] == b && ([a] + rest)[0] == a;
      ContractionsCommute(h, a.u, a.v, b.u, b.v);
      assert ([a] + tail)[1..] == tail;
      MoveToEnd(After(h, b), a, tail);
    }
  }

  // ---------- Taking some contractions to the end ----------

  function Outside(c: seq<Memento>, s: set<nat>): seq<Memento> {
    if c == [] then [] else if c[0].v in s then Outside(c[1..], s) else [c[0]] + Outside(c[1..], s)
  }

  function Inside(c: seq<Memento>, s: set<nat>): seq<Memento> {
    if c == [] then [] else if c[0].v in s then [c[0]] + Inside(c[1..], s) else Inside(c[1..], s)
  }

  lemma {:induction false} OutsideMembers(c: seq<Memento>, s: set<nat>)
    ensures forall m :: m in Outside(c, s) <==> m in c && m.v !in s
  {
    if c != [] {
      OutsideMembers(c[1..], s);
      assert c == [c[0]] + c[1..];
    }
  }

  lemma {:induction false} InsideMembers(c: seq<Memento>, s: set<nat>)
    ensures forall m :: m in Inside(c, s) <==> m in c && m.v in s
  {
    if c != [] {
      InsideMembers(c[1..], s);
      assert c == [c[0]] + c[1..];
    }
  }

  /** What is contracted later and stays has no node in common with what is set apart, but the partners. */
  ghost predicate Separable(c: seq<Memento>, s: set<nat>) {
    forall i, j :: 0 <= i < j < |c| && c[i].v in s && c[j].v !in s ==> c[j].u != c[i].u && c[j].v != c[i].u
  }

  /** The contractions in s may as well come last. */
  lemma {:induction false} SetApart(h: Hypergraph, c: seq<Memento>, s: set<nat>)
    requires CanContractAll(h, c) && Separable(c, s)
    ensures CanContractAll(h, Outside(c, s) + Inside(c, s)) && ContractedAll(h, Outside(c, s) + Inside(c, s)) == ContractedAll(h, c)
    decreases |c|
  {
    if c == [] {
      assert Outside(c, s) + Inside(c, s) == c;
    } else {
      var a, rest := c[0], c[1..];
      assert c == [a] + rest && Separable(rest, s);
      First(h, a, rest);
      SetApart(After(h, a), rest, s);
      First(h, a, Outside(rest, s) + Inside(rest, s));
      OneMoreApart(c, s);
      hide CanContractAll, ContractedAll, Hypergraphs.CanContract, After, Outside, Inside, Separable;
      if a.v in s {
        PassAll(h, a, Outside(rest, s), Inside(rest, s));
      }
    }
  }

  lemma First(h: Hypergraph, a: Memento, rest: seq<Memento>)
    ensures CanContractAll(h, [a] + rest) <==> h.Agree() && Hypergraphs.CanContract(h, a.u, a.v) && CanContractAll(After(h, a), rest)
    ensures CanContractAll(h, [a] + rest) ==> ContractedAll(h, [a] + rest) == ContractedAll(After(h, a), rest)
  {
    assert ([a] + rest)[1..] == rest;
  }

  lemma OneMoreApart(c: seq<Memento>, s: set<nat>)
    requires c != [] && Separable(c, s)
    ensures var a, out, ins := c[0], Outside(c[1..], s), Inside(c[1..], s);
            if a.v in s then MayPass(a, out) && Outside(c, s) + Inside(c, s) == out + ([a] + ins)
            else Outside(c, s) + Inside(c, s) == [a] + (out + ins)
  {
    hide Separable, MayPass;
    if c[0].v in s {
      PassesOutside(c, s);
    } else {
      Regroup([c[0]], Outside(c[1..], s), Inside(c[1..], s));
    }
  }

  lemma Regroup(a: seq<Memento>, b: seq<Memento>, c: seq<Memento>)
    ensures (a + b) + c == a + (b + c)
  {
  }

  lemma PassesOutside(c: seq<Memento>, s: set<nat>)
    requires c != [] && Separable(c, s) && c[0].v in s
    ensures MayPass(c[0], Outside(c[1..], s))
  {
    hide Outside;
    var a, rest, out := c[0], c[1..], Outside(c[1..], s);
    OutsideMembers(rest, s);
    forall k | 0 <= k < |out| ensures out[k].u != a.u && out[k].v != a.u {
      assert out[k] in out;
      var j :| 0 <= j < |rest| && rest[j] == out[k];
      assert c[j + 1] == out[k];
    }
  }

  lemma PassAll(h: Hypergraph, a: Memento, out: seq<Memento>, ins: seq<Memento>)
    requires CanContractAll(h, [a] + (out + ins)) && MayPass(a, out)
    ensures CanContractAll(h, out + ([a] + ins)) && ContractedAll(h, out + ([a] + ins)) == ContractedAll(h, [a] + (out + ins))
  {
    hide CanContractAll, ContractedAll, MayPass;
    assert [a] + (out + ins) == ([a] + out) + ins && out + ([a] + ins) == (out + [a]) + ins;
    ContractConcat(h, [a] + out, ins);
    MoveToEnd(h, a, out);
    ContractConcat(h, out + [a], ins);
  }
}
