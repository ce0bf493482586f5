/** What the pin lists of all nets stand for.

    A net of the hypergraph is the set of valid pins and the set of removed pins of its list. */
module PinNets {
  import opened PinLists
  import opened Hypergraphs

  ghost function NetOf(e: Hyperedge): Net
    requires e.size <= |e.pins|
  {
    Net(e.Pins(), MembersOf(e.Removed()), e.weight, e.enabled)
  }

  ghost function MembersOf(s: seq<nat>): (r: set<nat>)
    ensures forall p :: p in r <==> p in s
  {
    set p | p in s
  }

  ghost predicate EdgesValid(edges: seq<Hyperedge>) {
    forall e: nat {:trigger EdgeValid(edges, e)} :: e < |edges| ==> EdgeValid(edges, e)
  }

  ghost predicate EdgeValid(edges: seq<Hyperedge>, e: nat)
    requires e < |edges|
  {
    edges[e].Valid()
  }

  ghost predicate HashesOk(edges: seq<Hyperedge>, hashOf: nat -> nat)
    requires EdgesValid(edges)
  {
    forall e: nat {:trigger EdgeHashOk(edges, hashOf, e)} :: e < |edges| ==> EdgeHashOk(edges, hashOf, e)
  }

  ghost predicate EdgeHashOk(edges: seq<Hyperedge>, hashOf: nat -> nat, e: nat)
    requires EdgesValid(edges) && e < |edges|
  {
    assert EdgeValid(edges, e);
    HashOk(edges[e], hashOf)
  }

  /** What the pin lists stand for; an invalid list counts as an empty disabled net. */
  ghost function NetsOf(edges: seq<Hyperedge>): (r: seq<Net>)
    ensures |r| == |edges|
  {
    seq(|edges|, e requires 0 <= e < |edges| => NetAt(edges[e]))
  }

  ghost function NetAt(e: Hyperedge): Net {
    if e.size <= |e.pins| then NetOf(e) else Net({}, {}, e.weight, false)
  }
}
