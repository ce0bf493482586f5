/** The hypergraph in both representations: pins per net and incident nets per node. */
module Hypergraphs {
  import opened IncidentNets

  /** A net: its pins, and those that contractions removed. */
  datatype Net = Net(pins: set<nat>, removed: set<nat>, weight: int, enabled: bool)

  datatype Hypergraph = Hypergraph(nets: seq<Net>, weight: seq<int>, enabled: seq<bool>, inc: Incidence) {
    ghost predicate Shape() {
      && inc.Shape() && |weight| == |enabled| == |inc.degree| && inc.DegreesOk()
      && forall p: nat {:trigger NodeOk(p)} :: p < |enabled| ==> NodeOk(p)
    }

    ghost predicate NodeOk(p: nat)
      requires inc.Shape() && p < |enabled| == |inc.degree|
    {
      && enabled[p] == inc.chain.isHead[p]
      && (enabled[p] ==> inc.ListedOnce(p))
    }

    /** Pin p and net e agree: an enabled node is a pin of an enabled net exactly if the net is among its
        incident nets. */
    ghost predicate AgreeAt(p: nat, e: nat)
      requires inc.Shape() && p < |enabled| == |inc.degree|
    {
      enabled[p] ==> (e in inc.NetsOf(p) <==> e < |nets| && nets[e].enabled && p in nets[e].pins)
    }

    /** Pins of enabled nets are enabled nodes, and removed pins are disabled ones. */
    ghost predicate PinsOk(e: nat)
      requires e < |nets|
    {
      && (nets[e].enabled ==> forall p: nat :: p in nets[e].pins ==> p < |enabled| && enabled[p])
      && (forall p: nat :: p in nets[e].removed ==> p < |enabled| && !enabled[p])
    }

    ghost predicate Agree() {
      && Shape()
      && (forall p: nat, e: nat {:trigger AgreeAt(p, e)} :: p < |enabled| ==> AgreeAt(p, e))
      && (forall e: nat {:trigger PinsOk(e)} :: e < |nets| ==> PinsOk(e))
    }
  }

  // ---------- Contraction ----------

  function ContractedNet(n: Net, u: nat, v: nat): Net {
    Net(n.pins - {v} + {u}, if u in n.pins then n.removed + {v} else n.removed, n.weight, n.enabled)
  }

  ghost predicate NodesInRange(h: Hypergraph, u: nat, v: nat) {
    IncidentNets.InRange(h.inc, u, v) && |h.weight| == |h.enabled| == |h.inc.degree|
  }

  ghost predicate CanContract(h: Hypergraph, u: nat, v: nat) {
    h.Agree() && u < |h.enabled| && v < |h.enabled| && u != v && h.enabled[u] && h.enabled[v]
  }

  ghost function ContractedNets(nets: seq<Net>, netsOfV: set<nat>, u: nat, v: nat): (r: seq<Net>)
    ensures |r| == |nets|
  {
    seq(|nets|, e requires 0 <= e < |nets| => ContractedAt(nets, netsOfV, u, v, e))
  }

  function ContractedAt(nets: seq<Net>, netsOfV: set<nat>, u: nat, v: nat, e: nat): Net
    requires e < |nets|
  {
    if e in netsOfV then ContractedNet(nets[e], u, v) else nets[e]
  }

  /** v is merged into u: its weight, its pins and its incident nets become those of u. */
  ghost function Contracted(h: Hypergraph, u: nat, v: nat): Hypergraph
    requires NodesInRange(h, u, v)
  {
    Hypergraph(ContractedNets(h.nets, h.inc.NetsOf(v), u, v), h.weight[u := h.weight[u] + h.weight[v]], h.enabled[v := false],
               IncidentNets.Contracted(h.inc, u, v, h.inc.NetsOf(u) * h.inc.NetsOf(v)))
  }

  lemma NodesContractable(h: Hypergraph, u: nat, v: nat)
    requires CanContract(h, u, v)
    ensures IncidentNets.CanContract(h.inc, u, v) && h.inc.ListedOnce(u) && h.inc.ListedOnce(v)
  {
    assert h.NodeOk(u) && h.NodeOk(v);
  }

  lemma ContractedShape(h: Hypergraph, u: nat, v: nat)
    requires CanContract(h, u, v)
    ensures Contracted(h, u, v).Shape()
  {
    var h', shared := Contracted(h, u, v), h.inc.NetsOf(u) * h.inc.NetsOf(v);
    NodesContractable(h, u, v);
    IncidentNets.ContractedShape(h.inc, u, v, shared);
    ContractedDegrees(h.inc, u, v, shared);
    forall p: nat | p < |h.enabled| ensures h'.NodeOk(p) {
      assert h.NodeOk(p);
      if p == u {
        ContractionMerges(h.inc, u, v, shared);
      } else if p != v && h.enabled[p] {
        OthersKeepNets(h.inc, u, v, shared, p);
      }
    }
  }

  lemma ContractedAgreeAt(h: Hypergraph, u: nat, v: nat, p: nat, e: nat)
    requires CanContract(h, u, v) && Contracted(h, u, v).Shape() && p < |h.enabled|
    ensures Contracted(h, u, v).AgreeAt(p, e)
  {
    var shared := h.inc.NetsOf(u) * h.inc.NetsOf(v);
    NodesContractable(h, u, v);
    assert h.AgreeAt(u, e) && h.AgreeAt(v, e) && h.AgreeAt(p, e) && h.NodeOk(p);
    if p == u {
      ContractionMerges(h.inc, u, v, shared);
    } else if p != v && h.enabled[p] {
      OthersKeepNets(h.inc, u, v, shared, p);
    }
  }

  /** Both representations go on agreeing after every contraction. */
  lemma ContractedAgree(h: Hypergraph, u: nat, v: nat)
    requires CanContract(h, u, v)
    ensures Contracted(h, u, v).Agree()
  {
    var h' := Contracted(h, u, v);
    ContractedShape(h, u, v);
    forall p: nat, e: nat | p < |h.enabled| ensures h'.AgreeAt(p, e) {
      ContractedAgreeAt(h, u, v, p, e);
    }
    forall e: nat | e < |h.nets| ensures h'.PinsOk(e) {
      assert h.PinsOk(e) && h.AgreeAt(v, e);
    }
  }

  // ---------- Uncontraction ----------

  /** Net e when v is a pin again: together with u, or instead of u. */
  function UncontractedNet(n: Net, back: bool, stayed: bool, u: nat, v: nat): Net {
    if back then n.(pins := n.pins + {v}, removed := n.removed - {v})
    else if stayed then n.(pins := n.pins - {u} + {v})
    else n
  }

  ghost function UncontractedNets(nets: seq<Net>, back: set<nat>, stayed: set<nat>, u: nat, v: nat): (r: seq<Net>)
    ensures |r| == |nets|
  {
    seq(|nets|, e requires 0 <= e < |nets| => UncontractedAt(nets, back, stayed, u, v, e))
  }

  function UncontractedAt(nets: seq<Net>, back: set<nat>, stayed: set<nat>, u: nat, v: nat, e: nat): Net
    requires e < |nets|
  {
    UncontractedNet(nets[e], e in back, e in stayed, u, v)
  }

  ghost predicate CanUncontract(h: Hypergraph, u: nat, v: nat, k: nat) {
    IncidentNets.CanUncontract(h.inc, u, v, k) && |h.weight| == |h.enabled| == |h.inc.degree|
  }

  ghost predicate InRange(h: Hypergraph, u: nat, v: nat, k: nat) {
    NodesInRange(h, u, v) && k + |h.inc.chain.circ[v]| <= |h.inc.chain.circ[u]|
  }

  ghost function Uncontracted(h: Hypergraph, u: nat, v: nat, k: nat): Hypergraph
    requires InRange(h, u, v, k)
  {
    var c := h.inc.chain.circ[v];
    Hypergraph(UncontractedNets(h.nets, NetsReturned(h.inc.levels, c), NetsIn(h.inc.levels, c), u, v),
               h.weight[u := h.weight[u] - h.weight[v]], h.enabled[v := true], IncidentNets.Uncontracted(h.inc, u, v, k))
  }

  lemma NetReturns(h: Hypergraph, u: nat, v: nat, e: nat)
    requires CanContract(h, u, v) && e < |h.nets|
    ensures var both := h.inc.NetsOf(u) * h.inc.NetsOf(v);
            UncontractedNet(Contracted(h, u, v).nets[e], e in both, e in h.inc.NetsOf(v) - h.inc.NetsOf(u), u, v) == h.nets[e]
  {
    assert h.AgreeAt(u, e) && h.AgreeAt(v, e) && h.PinsOk(e);
    var n := h.nets[e];
    if e in h.inc.NetsOf(v) {
      var n' := ContractedNet(n, u, v);
      if e in h.inc.NetsOf(u) {
        assert n'.pins + {v} == n.pins;
        assert n'.removed - {v} == n.removed;
      } else {
        assert n'.pins - {u} + {v} == n.pins;
      }
    }
  }

  /** Undoing a contraction gives back the pins of every net, the removed pins, all incident nets,
      weights and enabled flags. */
  lemma UncontractRestores(h: Hypergraph, u: nat, v: nat)
    requires CanContract(h, u, v)
    ensures CanUncontract(Contracted(h, u, v), u, v, |h.inc.chain.circ[u]|)
    ensures Uncontracted(Contracted(h, u, v), u, v, |h.inc.chain.circ[u]|) == h
  {
    UncontractPossible(h, u, v);
    IncReturns(h, u, v);
    NetsAllReturn(h, u, v);
    NodesReturn(h, u, v);
  }

  lemma UncontractPossible(h: Hypergraph, u: nat, v: nat)
    requires CanContract(h, u, v)
    ensures CanUncontract(Contracted(h, u, v), u, v, |h.inc.chain.circ[u]|)
  {
    NodesContractable(h, u, v);
    IncidentNets.UncontractRestores(h.inc, u, v, h.inc.NetsOf(u) * h.inc.NetsOf(v));
  }

  lemma IncReturns(h: Hypergraph, u: nat, v: nat)
    requires CanContract(h, u, v) && InRange(Contracted(h, u, v), u, v, |h.inc.chain.circ[u]|)
    ensures Uncontracted(Contracted(h, u, v), u, v, |h.inc.chain.circ[u]|).inc == h.inc
  {
    NodesContractable(h, u, v);
    IncidentNets.UncontractRestores(h.inc, u, v, h.inc.NetsOf(u) * h.inc.NetsOf(v));
  }

  lemma NetsAllReturn(h: Hypergraph, u: nat, v: nat)
    requires CanContract(h, u, v) && InRange(Contracted(h, u, v), u, v, |h.inc.chain.circ[u]|)
    ensures Uncontracted(Contracted(h, u, v), u, v, |h.inc.chain.circ[u]|).nets == h.nets
  {
    NodesContractable(h, u, v);
    UncontractReports(h.inc, u, v, h.inc.NetsOf(u) * h.inc.NetsOf(v));
    NetsReturn(h, u, v);
  }

  lemma NodesReturn(h: Hypergraph, u: nat, v: nat)
    requires NodesInRange(h, u, v) && u != v && h.enabled[v]
    ensures Uncontracted(Contracted(h, u, v), u, v, |h.inc.chain.circ[u]|).weight == h.weight
    ensures Uncontracted(Contracted(h, u, v), u, v, |h.inc.chain.circ[u]|).enabled == h.enabled
  {
    var h' := Contracted(h, u, v);
    assert h'.weight == h.weight[u := h.weight[u] + h.weight[v]] && h'.enabled == h.enabled[v := false];
    NodeValuesReturn(h.weight, h.enabled, u, v);
  }

  lemma NodeValuesReturn(weight: seq<int>, enabled: seq<bool>, u: nat, v: nat)
    requires u < |weight| == |enabled| && v < |weight| && u != v && enabled[v]
    ensures var w := weight[u := weight[u] + weight[v]]; w[u := w[u] - w[v]] == weight
    ensures enabled[v := false][v := true] == enabled
  {
  }

  lemma NetsReturn(h: Hypergraph, u: nat, v: nat)
    requires CanContract(h, u, v)
    ensures UncontractedNets(Contracted(h, u, v).nets, h.inc.NetsOf(u) * h.inc.NetsOf(v), h.inc.NetsOf(v) - h.inc.NetsOf(u), u, v) == h.nets
  {
    forall e: nat | e < |h.nets|
      ensures UncontractedNets(Contracted(h, u, v).nets, h.inc.NetsOf(u) * h.inc.NetsOf(v), h.inc.NetsOf(v) - h.inc.NetsOf(u), u, v)[e] == h.nets[e]
    {
      NetReturns(h, u, v, e);
    }
  }
}
