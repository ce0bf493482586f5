/** Nodes fixed to blocks: block weights and contraction counts under contractions and uncontractions. */
module FixedVertices {
  import opened Sums

  const NO_BLOCK: int := -1

  /** `count[u]` is the number of fixed nodes that u stands for, counting only those that were fixed
      before they were contracted; `fixedWeight[u]` is the weight of u when it became fixed. */
  datatype Fixed = Fixed(block: seq<int>, count: seq<nat>, fixedWeight: seq<int>, blockWeight: seq<int>, total: int) {
    predicate Shape(weight: seq<nat>, limit: seq<int>) {
      && |block| == |count| == |fixedWeight| == |weight| && |blockWeight| == |limit|
      && (forall v :: 0 <= v < |block| ==> block[v] == NO_BLOCK || 0 <= block[v] < |blockWeight|)
    }

    predicate IsFixed(v: nat)
      requires v < |block|
    {
      block[v] != NO_BLOCK
    }
  }

  /** What the test says about contracting v onto u. An overflow means that the weight was added, turned
      out too large, and has to be taken back. */
  datatype Outcome = Accepted(fixed: Fixed) | Refused | Overflowed(block: nat, delta: nat)

  /** The block that becomes heavier if exactly one of both nodes is fixed. */
  function BlockOf(f: Fixed, u: nat, v: nat): int
    requires u < |f.block| && v < |f.block|
  {
    if f.IsFixed(u) then f.block[u] else f.block[v]
  }

  function Delta(f: Fixed, weight: seq<nat>, u: nat, v: nat): nat
    requires u < |f.block| == |weight| && v < |weight|
  {
    if f.IsFixed(u) then weight[v] else weight[u]
  }

  /** u or v joined the block of the other. `chains` is false if later contractions onto v are not to
      see the block. */
  function Joined(f: Fixed, weight: seq<nat>, u: nat, v: nat, chains: bool): Fixed
    requires u < |f.block| == |f.count| == |f.fixedWeight| == |weight| && v < |weight| && 0 <= BlockOf(f, u, v) < |f.blockWeight|
  {
    var (p, delta) := (BlockOf(f, u, v), Delta(f, weight, u, v));
    var g := f.(blockWeight := f.blockWeight[p := f.blockWeight[p] + delta], total := f.total + delta);
    if !f.IsFixed(u) then g.(block := g.block[u := p], count := g.count[u := 1], fixedWeight := g.fixedWeight[u := delta])
    else if chains then g.(block := g.block[v := p], fixedWeight := g.fixedWeight[v := delta])
    else g
  }

  function Test(f: Fixed, limit: seq<int>, weight: seq<nat>, u: nat, v: nat, chains: bool): Outcome
    requires f.Shape(weight, limit) && u < |weight| && v < |weight|
  {
    if !f.IsFixed(u) && !f.IsFixed(v) then Accepted(f)
    else if f.IsFixed(u) && f.IsFixed(v) then
      if f.block[u] == f.block[v] then Accepted(f.(count := f.count[u := f.count[u] + 1])) else Refused
    else
      var p := BlockOf(f, u, v);
      if f.blockWeight[p] + Delta(f, weight, u, v) <= limit[p] then Accepted(Joined(f, weight, u, v, chains))
      else Overflowed(p, Delta(f, weight, u, v))
  }

  /** When v may be contracted onto u, on blocks and weights; `chains` makes no difference. */
  lemma AcceptedExactly(f: Fixed, limit: seq<int>, weight: seq<nat>, u: nat, v: nat, chains: bool)
    requires f.Shape(weight, limit) && u < |weight| && v < |weight|
    ensures var (p, q) := (f.block[u], f.block[v]);
            Test(f, limit, weight, u, v, chains).Accepted? <==>
              || (p == q)
              || (p != NO_BLOCK && q == NO_BLOCK && f.blockWeight[p] + weight[v] <= limit[p])
              || (p == NO_BLOCK && q != NO_BLOCK && f.blockWeight[q] + weight[u] <= limit[q])
    ensures var (p, q) := (f.block[u], f.block[v]);
            Test(f, limit, weight, u, v, chains).Refused? <==> p != q && p != NO_BLOCK && q != NO_BLOCK
  {
  }

  lemma AcceptedShape(f: Fixed, limit: seq<int>, weight: seq<nat>, weight': seq<nat>, u: nat, v: nat)
    requires f.Shape(weight, limit) && u < |weight| && v < |weight| && |weight'| == |weight| && Test(f, limit, weight, u, v, true).Accepted?
    ensures Test(f, limit, weight, u, v, true).fixed.Shape(weight', limit)
  {
  }

  function Uncontracted(f: Fixed, u: nat, v: nat): Fixed
    requires u < |f.block| == |f.count| == |f.fixedWeight| && v < |f.block|
    requires forall x :: 0 <= x < |f.block| ==> f.block[x] == NO_BLOCK || 0 <= f.block[x] < |f.blockWeight|
    requires f.IsFixed(v) && f.count[v] > 0 ==> f.IsFixed(u) && f.count[u] > 0
  {
    if !f.IsFixed(v) then f
    else if f.count[v] > 0 then
      var g := f.(count := f.count[u := f.count[u] - 1]);
      if g.count[u] == 0 then Freed(g, u) else g
    else Freed(f, v)
  }

  /** x is free again, and its weight no longer counts for its block. */
  function Freed(f: Fixed, x: nat): Fixed
    requires x < |f.block| == |f.fixedWeight| && 0 <= f.block[x] < |f.blockWeight|
  {
    var p := f.block[x];
    f.(blockWeight := f.blockWeight[p := f.blockWeight[p] - f.fixedWeight[x]], total := f.total - f.fixedWeight[x],
       block := f.block[x := NO_BLOCK])
  }

  /** Equal up to the remembered weights of free nodes. */
  ghost predicate Same(f: Fixed, g: Fixed) {
    && f.block == g.block && f.count == g.count && f.blockWeight == g.blockWeight && f.total == g.total
    && |f.fixedWeight| == |g.fixedWeight| == |f.block|
    && (forall v: nat :: v < |f.block| && f.IsFixed(v) ==> f.fixedWeight[v] == g.fixedWeight[v])
  }

  // ---------- The clusters around it ----------

  /** `own` are the nodes that were fixed at the start, `onto[v]` is the node that v was contracted onto. */
  datatype Clusters = Clusters(fixed: Fixed, weight: seq<nat>, enabled: seq<bool>, onto: seq<nat>, own: seq<bool>) {
    ghost predicate Shape(limit: seq<int>) {
      fixed.Shape(weight, limit) && |weight| == |enabled| == |onto| == |own|
    }

    /** The weight fixed to block p is the weight of the enabled nodes fixed to p. */
    ghost predicate BlockExact(p: nat)
      requires |fixed.block| == |weight| == |enabled| && p < |fixed.blockWeight|
    {
      fixed.blockWeight[p] == Sum(BlockColumn(fixed.block, weight, enabled, p))
    }

    /** The count of u is its own fixing plus the nodes contracted onto it that were fixed before. */
    ghost predicate CountExact(u: nat)
      requires u < |fixed.count| == |enabled| == |onto| == |own|
    {
      fixed.count[u] == (if own[u] then 1 else 0) + Sum(FixedChildren(fixed.count, enabled, onto, u))
    }

    ghost predicate NodeOk(v: nat)
      requires v < |fixed.block| == |fixed.count| == |enabled|
    {
      (enabled[v] ==> (fixed.IsFixed(v) <==> fixed.count[v] > 0)) && (fixed.count[v] > 0 ==> fixed.IsFixed(v))
    }

    ghost predicate Valid(limit: seq<int>) {
      && Shape(limit)
      && (forall p: nat {:trigger BlockExact(p)} :: p < |limit| ==> BlockExact(p))
      && (forall u: nat {:trigger CountExact(u)} :: u < |weight| ==> CountExact(u))
      && (forall u: nat {:trigger NodeOk(u)} :: u < |weight| ==> NodeOk(u))
      && fixed.total == Sum(fixed.blockWeight)
    }
  }

  function BlockColumn(block: seq<int>, weight: seq<nat>, enabled: seq<bool>, p: int): seq<int>
    requires |block| == |weight| == |enabled|
  {
    seq(|block|, v requires 0 <= v < |block| => BlockShare(block, weight, enabled, p, v))
  }

  function BlockShare(block: seq<int>, weight: seq<nat>, enabled: seq<bool>, p: int, v: nat): int
    requires v < |block| == |weight| == |enabled|
  {
    if enabled[v] && block[v] == p then weight[v] else 0
  }

  function FixedChildren(count: seq<nat>, enabled: seq<bool>, onto: seq<nat>, u: nat): seq<int>
    requires |count| == |enabled| == |onto|
  {
    seq(|count|, v requires 0 <= v < |count| => FixedChild(count, enabled, onto, u, v))
  }

  function FixedChild(count: seq<nat>, enabled: seq<bool>, onto: seq<nat>, u: nat, v: nat): int
    requires v < |count| == |enabled| == |onto|
  {
    if !enabled[v] && onto[v] == u && count[v] > 0 then 1 else 0
  }

  ghost predicate CanContract(c: Clusters, limit: seq<int>, u: nat, v: nat) {
    c.Shape(limit) && u < |c.weight| && v < |c.weight| && u != v && c.enabled[u] && c.enabled[v]
  }

  ghost function Contracted(c: Clusters, f: Fixed, u: nat, v: nat): Clusters
    requires u < |c.weight| == |c.enabled| == |c.onto| && v < |c.weight|
  {
    Clusters(f, c.weight[u := c.weight[u] + c.weight[v]], c.enabled[v := false], c.onto[v := u], c.own)
  }

  /** The blocks of u and v and the weights of the blocks change together. */
  lemma SharesMove(f: Fixed, limit: seq<int>, weight: seq<nat>, u: nat, v: nat, chains: bool, p: nat)
    requires f.Shape(weight, limit) && u < |weight| && v < |weight| && u != v && p < |limit|
    requires Test(f, limit, weight, u, v, chains).Accepted?
    ensures var g := Test(f, limit, weight, u, v, chains).fixed;
            && g.Shape(weight, limit) && (forall x :: 0 <= x < |weight| && x != u && x != v ==> g.block[x] == f.block[x])
            && g.blockWeight[p] == f.blockWeight[p] + (if g.block[u] == p then weight[u] + weight[v] else 0)
                                   - (if f.block[u] == p then weight[u] else 0) - (if f.block[v] == p then weight[v] else 0)
  {
  }

  /** The weight fixed to p after v was merged into u. */
  lemma ShareColumn(block: seq<int>, block': seq<int>, weight: seq<nat>, enabled: seq<bool>, u: nat, v: nat, p: int)
    requires |block| == |block'| == |weight| == |enabled| && u < |weight| && v < |weight| && u != v && enabled[u] && enabled[v]
    requires forall x :: 0 <= x < |weight| && x != u && x != v ==> block'[x] == block[x]
    ensures Sum(BlockColumn(block', weight[u := weight[u] + weight[v]], enabled[v := false], p))
            == Sum(BlockColumn(block, weight, enabled, p)) + (if block'[u] == p then weight[u] + weight[v] else 0)
               - (if block[u] == p then weight[u] else 0) - (if block[v] == p then weight[v] else 0)
  {
    var weight', enabled' := weight[u := weight[u] + weight[v]], enabled[v := false];
    var column, column' := BlockColumn(block, weight, enabled, p), BlockColumn(block', weight', enabled', p);
    var atU := if block'[u] == p then weight[u] + weight[v] else 0;
    SumUpdate(column, v, 0);
    SumUpdate(column[v := 0], u, atU);
    forall x: nat | x < |column| ensures column'[x] == column[v := 0][u := atU][x] {
      assert column'[x] == BlockShare(block', weight', enabled', p, x) && column[x] == BlockShare(block, weight, enabled, p, x);
    }
    assert column' == column[v := 0][u := atU];
  }

  lemma CountsMove(f: Fixed, limit: seq<int>, weight: seq<nat>, u: nat, v: nat, chains: bool)
    requires f.Shape(weight, limit) && u < |weight| && v < |weight| && u != v
    requires Test(f, limit, weight, u, v, chains).Accepted?
    requires (f.IsFixed(u) <==> f.count[u] > 0) && (f.IsFixed(v) <==> f.count[v] > 0)
    ensures var g := Test(f, limit, weight, u, v, chains).fixed;
            && g.Shape(weight, limit)
            && g.count == f.count[u := f.count[u] + (if f.count[v] > 0 then 1 else 0)]
            && (g.IsFixed(u) <==> g.count[u] > 0) && (g.count[v] > 0 ==> g.IsFixed(v))
            && (forall x :: 0 <= x < |weight| && x != u && x != v ==> g.block[x] == f.block[x])
  {
  }

  lemma CountAfter(c: Clusters, limit: seq<int>, u: nat, v: nat, f: Fixed, x: nat)
    requires CanContract(c, limit, u, v) && x < |c.weight| && f.Shape(c.weight, limit)
    requires c.CountExact(x) && f.count == c.fixed.count[u := c.fixed.count[u] + (if c.fixed.count[v] > 0 then 1 else 0)]
    ensures Contracted(c, f, u, v).CountExact(x)
  {
    var c' := Contracted(c, f, u, v);
    var column, column' := FixedChildren(c.fixed.count, c.enabled, c.onto, x), FixedChildren(f.count, c'.enabled, c'.onto, x);
    var atV := if x == u && c.fixed.count[v] > 0 then 1 else 0;
    SumUpdate(column, v, atV);
    forall y: nat | y < |column| ensures column'[y] == column[v := atV][y] {
      assert column'[y] == FixedChild(f.count, c'.enabled, c'.onto, x, y) && column[y] == FixedChild(c.fixed.count, c.enabled, c.onto, x, y);
    }
    assert column' == column[v := atV];
  }

  /** An accepted contraction keeps the books: the weight fixed to every block is the weight of the
      enabled nodes fixed to it, the counts are right, and the total is the sum over the blocks. */
  lemma ContractedValid(c: Clusters, limit: seq<int>, u: nat, v: nat, chains: bool)
    requires c.Valid(limit) && CanContract(c, limit, u, v)
    requires Test(c.fixed, limit, c.weight, u, v, chains).Accepted?
    ensures Contracted(c, Test(c.fixed, limit, c.weight, u, v, chains).fixed, u, v).Valid(limit)
  {
    var f := Test(c.fixed, limit, c.weight, u, v, chains).fixed;
    var c' := Contracted(c, f, u, v);
    assert c.NodeOk(u) && c.NodeOk(v);
    CountsMove(c.fixed, limit, c.weight, u, v, chains);
    hide Test;
    forall p: nat | p < |limit| ensures c'.BlockExact(p) {
      assert c.BlockExact(p);
      SharesMove(c.fixed, limit, c.weight, u, v, chains, p);
      ShareColumn(c.fixed.block, f.block, c.weight, c.enabled, u, v, p);
    }
    forall x: nat | x < |c.weight| ensures c'.CountExact(x) && c'.NodeOk(x) {
      assert c.CountExact(x) && c.NodeOk(x);
      CountAfter(c, limit, u, v, f, x);
    }
    TotalAfter(c.fixed, limit, c.weight, u, v, chains);
  }

  lemma TotalAfter(f: Fixed, limit: seq<int>, weight: seq<nat>, u: nat, v: nat, chains: bool)
    requires f.Shape(weight, limit) && u < |weight| && v < |weight| && Test(f, limit, weight, u, v, chains).Accepted?
    requires f.total == Sum(f.blockWeight)
    ensures var g := Test(f, limit, weight, u, v, chains).fixed; g.total == Sum(g.blockWeight)
  {
    if f.IsFixed(u) != f.IsFixed(v) {
      var p := BlockOf(f, u, v);
      SumUpdate(f.blockWeight, p, f.blockWeight[p] + Delta(f, weight, u, v));
    }
  }

  /** Uncontracting right after a contraction gives back blocks, counts and weights. */
  lemma UncontractRestores(c: Clusters, limit: seq<int>, u: nat, v: nat, g: Fixed)
    requires c.Valid(limit) && CanContract(c, limit, u, v)
    requires Test(c.fixed, limit, c.weight, u, v, true).Accepted?
    requires Same(Test(c.fixed, limit, c.weight, u, v, true).fixed, g)
    ensures g.Shape(c.weight, limit) && (g.IsFixed(v) && g.count[v] > 0 ==> g.IsFixed(u) && g.count[u] > 0)
    ensures Same(c.fixed, Uncontracted(g, u, v))
  {
    assert c.NodeOk(u) && c.NodeOk(v);
    FixedRestored(c.fixed, limit, c.weight, u, v, g);
  }

  lemma FixedRestored(f: Fixed, limit: seq<int>, weight: seq<nat>, u: nat, v: nat, g: Fixed)
    requires f.Shape(weight, limit) && u < |weight| && v < |weight| && u != v && Test(f, limit, weight, u, v, true).Accepted?
    requires (f.IsFixed(u) <==> f.count[u] > 0) && (f.IsFixed(v) <==> f.count[v] > 0)
    requires Same(Test(f, limit, weight, u, v, true).fixed, g)
    ensures g.Shape(weight, limit) && (g.IsFixed(v) && g.count[v] > 0 ==> g.IsFixed(u) && g.count[u] > 0)
    ensures Same(f, Uncontracted(g, u, v))
  {
    var f' := Test(f, limit, weight, u, v, true).fixed;
    assert f'.Shape(weight, limit) && g.Shape(weight, limit);
    if f.IsFixed(u) != f.IsFixed(v) {
      JoinRestored(f, weight, u, v, g);
    } else if f.IsFixed(v) {
      assert g.count[u := f.count[u]] == f.count;
    }
  }

  lemma JoinRestored(f: Fixed, weight: seq<nat>, u: nat, v: nat, g: Fixed)
    requires |f.block| == |f.count| == |f.fixedWeight| == |weight| && u < |weight| && v < |weight| && u != v
    requires forall x :: 0 <= x < |f.block| ==> f.block[x] == NO_BLOCK || 0 <= f.block[x] < |f.blockWeight|
    requires f.IsFixed(u) != f.IsFixed(v) && (f.IsFixed(u) <==> f.count[u] > 0) && (f.IsFixed(v) <==> f.count[v] > 0)
    requires Same(Joined(f, weight, u, v, true), g)
    ensures forall x :: 0 <= x < |g.block| ==> g.block[x] == NO_BLOCK || 0 <= g.block[x] < |g.blockWeight|
    ensures (g.IsFixed(v) && g.count[v] > 0 ==> g.IsFixed(u) && g.count[u] > 0) && Same(f, Uncontracted(g, u, v))
  {
    var p, x := BlockOf(f, u, v), if f.IsFixed(u) then v else u;
    var f' := Joined(f, weight, u, v, true);
    assert f'.block == f.block[x := p] && f'.IsFixed(x) && f'.fixedWeight[x] == Delta(f, weight, u, v);
    assert g.block[x := NO_BLOCK] == f.block;
    assert g.blockWeight[p := f.blockWeight[p]] == f.blockWeight;
    if x == u { assert g.count[u := 0] == f.count; }
  }

  // ---------- The object ----------

  class FixedVertexSupport {
    var block: seq<int>
    var count: seq<nat>
    var fixedWeight: seq<int>
    var blockWeight: seq<int>
    var total: int
    const limit: seq<int>

    /** No node is fixed. */
    constructor (numNodes: nat, limit: seq<int>)
      ensures this.limit == limit && |count| == numNodes
      ensures forall weight: seq<nat> :: |weight| == numNodes ==> NoneFixed(F(), weight, limit).Valid(limit)
    {
      block := seq(numNodes, v => NO_BLOCK);
      count := seq(numNodes, v => 0);
      fixedWeight := seq(numNodes, v => 0);
      blockWeight := seq(|limit|, p => 0);
      total := 0;
      this.limit := limit;
      new;
      forall weight: seq<nat> | |weight| == numNodes ensures NoneFixed(F(), weight, limit).Valid(limit) {
        NoneFixedValid(F(), weight, limit);
      }
    }

    function F(): Fixed
      reads this
    {
      Fixed(block, count, fixedWeight, blockWeight, total)
    }

    /** Fixes v to block p unless it is fixed already. */
    method FixToBlock(v: nat, p: nat, weight: seq<nat>, ghost c: Clusters)
      requires c.fixed == F() && c.weight == weight && c.Valid(limit) && v < |weight| && c.enabled[v] && p < |limit|
      modifies this
      ensures var c' := c.(fixed := F(), own := if old(F()).IsFixed(v) then c.own else c.own[v := true]); c'.Valid(limit)
      ensures block == if old(block)[v] == NO_BLOCK then old(block)[v := p] else old(block)
    {
      if block[v] == NO_BLOCK {
        FixingValid(c, limit, v, p);
        block := block[v := p];
        count := count[v := 1];
        fixedWeight := fixedWeight[v := weight[v]];
        blockWeight := blockWeight[p := blockWeight[p] + weight[v]];
        total := total + weight[v];
      }
    }

    /** Tests whether v may be contracted onto u, and enters the consequences. The weight of the block is
        raised first and taken back if it is too large. */
    method ContractImpl(u: nat, v: nat, ignoreV: bool, weight: seq<nat>) returns (success: bool)
      requires F().Shape(weight, limit) && u < |weight| && v < |weight| && u != v
      modifies this
      ensures success == Test(old(F()), limit, weight, u, v, !ignoreV).Accepted?
      ensures F() == if success then Test(old(F()), limit, weight, u, v, !ignoreV).fixed else old(F())
      ensures var (p, q) := (old(block)[u], old(block)[v]);
              success <==>
                || (p == NO_BLOCK && q == NO_BLOCK)
                || (p != NO_BLOCK && q == p)
                || (p != NO_BLOCK && q == NO_BLOCK && old(blockWeight)[p] + weight[v] <= limit[p])
                || (p == NO_BLOCK && q != NO_BLOCK && old(blockWeight)[q] + weight[u] <= limit[q])
      ensures var (p, q) := (old(block)[u], old(block)[v]);
              success ==>
                if p == NO_BLOCK && q == NO_BLOCK then F() == old(F())
                else if p != NO_BLOCK && q != NO_BLOCK then F() == old(F()).(count := old(count)[u := old(count)[u] + 1])
                else if q == NO_BLOCK then
                  && block == (if ignoreV then old(block) else old(block)[v := p])
                  && fixedWeight == (if ignoreV then old(fixedWeight) else old(fixedWeight)[v := weight[v]]) && count == old(count)
                  && blockWeight == old(blockWeight)[p := old(blockWeight)[p] + weight[v]] && total == old(total) + weight[v]
                else
                  && block == old(block)[u := q] && fixedWeight == old(fixedWeight)[u := weight[u]] && count == old(count)[u := 1]
                  && blockWeight == old(blockWeight)[q := old(blockWeight)[q] + weight[u]] && total == old(total) + weight[u]
    {
      success := true;
      var uBecomesFixed, vBecomesFixed := false, false;
      var p := NO_BLOCK;
      if block[u] == NO_BLOCK && block[v] != NO_BLOCK {
        p := block[v];
        uBecomesFixed := true;
      } else if block[u] != NO_BLOCK && block[v] == NO_BLOCK {
        p := block[u];
        vBecomesFixed := true;
      } else if block[u] != NO_BLOCK {
        if block[u] == block[v] {
          count := count[u := count[u] + 1];
        } else {
          success := false;
        }
      }
      if success && (uBecomesFixed || vBecomesFixed) {
        var delta := if uBecomesFixed then weight[u] else weight[v];
        blockWeight := blockWeight[p := blockWeight[p] + delta];
        if blockWeight[p] <= limit[p] {
          total := total + delta;
          if uBecomesFixed {
            block := block[u := block[v]];
            count := count[u := 1];
            fixedWeight := fixedWeight[u := weight[u]];
          }
        } else {
          blockWeight := blockWeight[p := blockWeight[p] - delta];
          vBecomesFixed := false;
          success := false;
        }
      }
      if !ignoreV && vBecomesFixed {
        block := block[v := p];
        fixedWeight := fixedWeight[v := weight[v]];
      }
    }

    /** Takes back the contraction of v onto u. */
    method Uncontract(u: nat, v: nat)
      requires u < |block| == |count| == |fixedWeight| && v < |block|
      requires forall x :: 0 <= x < |block| ==> block[x] == NO_BLOCK || 0 <= block[x] < |blockWeight|
      requires block[v] != NO_BLOCK && count[v] > 0 ==> block[u] != NO_BLOCK && count[u] > 0
      modifies this
      ensures F() == Uncontracted(old(F()), u, v)
    {
      if block[v] != NO_BLOCK {
        if count[v] > 0 {
          count := count[u := count[u] - 1];
          if count[u] == 0 {
            var p := block[u];
            blockWeight := blockWeight[p := blockWeight[p] - fixedWeight[u]];
            total := total - fixedWeight[u];
            block := block[u := NO_BLOCK];
          }
        } else {
          var p := block[v];
          blockWeight := blockWeight[p := blockWeight[p] - fixedWeight[v]];
          total := total - fixedWeight[v];
          block := block[v := NO_BLOCK];
        }
      }
    }

    /** Takes back a whole history of accepted contractions, the last one first: blocks, counts and all
        weights are as they were before the first one. */
    method UncontractAll(history: seq<(nat, nat)>, ghost trail: seq<Clusters>)
      requires |trail| == |history| + 1 && Same(trail[|history|].fixed, F())
      requires forall i: nat {:trigger StepOk(trail, history, limit, i)} :: i < |history| ==> StepOk(trail, history, limit, i)
      modifies this
      ensures Same(trail[0].fixed, F())
    {
      var i := |history|;
      while i > 0
        invariant 0 <= i <= |history| && Same(trail[i].fixed, F())
      {
        i := i - 1;
        assert StepOk(trail, history, limit, i);
        var (u, v) := history[i];
        UncontractRestores(trail[i], limit, u, v, F());
        Uncontract(u, v);
      }
    }
  }

  /** Step i of the history contracted an accepted pair. */
  ghost predicate StepOk(trail: seq<Clusters>, history: seq<(nat, nat)>, limit: seq<int>, i: nat)
    requires |trail| == |history| + 1 && i < |history|
  {
    var (c, u, v) := (trail[i], history[i].0, history[i].1);
    && c.Valid(limit) && CanContract(c, limit, u, v) && Test(c.fixed, limit, c.weight, u, v, true).Accepted?
    && trail[i + 1] == Contracted(c, Test(c.fixed, limit, c.weight, u, v, true).fixed, u, v)
  }

  ghost function NoneFixed(f: Fixed, weight: seq<nat>, limit: seq<int>): Clusters {
    Clusters(f, weight, seq(|weight|, v => true), seq(|weight|, v => 0), seq(|weight|, v => false))
  }

  lemma NoneFixedValid(f: Fixed, weight: seq<nat>, limit: seq<int>)
    requires |f.block| == |f.count| == |f.fixedWeight| == |weight| && |f.blockWeight| == |limit| && f.total == 0
    requires (forall v :: 0 <= v < |weight| ==> f.block[v] == NO_BLOCK && f.count[v] == 0) && (forall p :: 0 <= p < |limit| ==> f.blockWeight[p] == 0)
    ensures NoneFixed(f, weight, limit).Valid(limit)
  {
    var c := NoneFixed(f, weight, limit);
    forall p: nat | p < |limit| ensures c.BlockExact(p) {
      SumZero(BlockColumn(f.block, weight, c.enabled, p));
    }
    forall u: nat | u < |weight| ensures c.CountExact(u) && c.NodeOk(u) {
      SumZero(FixedChildren(f.count, c.enabled, c.onto, u));
    }
    SumZero(f.blockWeight);
  }

  ghost function FixedOne(c: Clusters, v: nat, p: nat): Clusters
    requires v < |c.fixed.block| == |c.fixed.count| == |c.fixed.fixedWeight| == |c.weight| == |c.own| && p < |c.fixed.blockWeight|
  {
    var f := c.fixed;
    c.(fixed := Fixed(f.block[v := p], f.count[v := 1], f.fixedWeight[v := c.weight[v]],
                      f.blockWeight[p := f.blockWeight[p] + c.weight[v]], f.total + c.weight[v]),
       own := c.own[v := true])
  }

  lemma FixingValid(c: Clusters, limit: seq<int>, v: nat, p: nat)
    requires c.Valid(limit) && v < |c.weight| && c.enabled[v] && !c.fixed.IsFixed(v) && p < |limit|
    ensures FixedOne(c, v, p).Valid(limit)
  {
    var c' := FixedOne(c, v, p);
    assert c.NodeOk(v) && c.CountExact(v);
    forall q: nat | q < |limit| ensures c'.BlockExact(q) {
      assert c.BlockExact(q);
      var column := BlockColumn(c.fixed.block, c.weight, c.enabled, q);
      SumUpdate(column, v, if q == p then c.weight[v] else 0);
      assert BlockColumn(c'.fixed.block, c.weight, c.enabled, q) == column[v := if q == p then c.weight[v] else 0];
    }
    FixingCounts(c, limit, v, p);
    SumUpdate(c.fixed.blockWeight, p, c.fixed.blockWeight[p] + c.weight[v]);
  }

  lemma FixingCounts(c: Clusters, limit: seq<int>, v: nat, p: nat)
    requires c.Valid(limit) && v < |c.weight| && c.enabled[v] && !c.fixed.IsFixed(v) && p < |limit|
    ensures var c' := FixedOne(c, v, p);
            (forall u: nat {:trigger c'.CountExact(u)} :: u < |c.weight| ==> c'.CountExact(u))
            && (forall u: nat {:trigger c'.NodeOk(u)} :: u < |c.weight| ==> c'.NodeOk(u))
  {
    var c' := FixedOne(c, v, p);
    assert c.NodeOk(v) && c.CountExact(v);
    var none := FixedChildren(c.fixed.count, c.enabled, c.onto, v);
    var zeros := seq(|none|, i => 0);
    SumMonotone(zeros, none);
    SumZero(zeros);
    forall u: nat | u < |c.weight| ensures c'.CountExact(u) && c'.NodeOk(u) {
      assert c.CountExact(u) && c.NodeOk(u);
      assert FixedChildren(c'.fixed.count, c.enabled, c.onto, u) == FixedChildren(c.fixed.count, c.enabled, c.onto, u);
    }
  }
}
