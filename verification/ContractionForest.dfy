/** The contraction tree: which node is registered to be contracted onto which, and what is pending.

    A tree is a value here; class ContractionTree is the object that the registration and the
    contraction methods of the source update in place. */
module ContractionForest {

  const INVALID_VERSION: nat := 0xFFFF_FFFF_FFFF_FFFF

  /** `up[v]` is v together with all its ancestors. It is determined by `parent` and carried along
      for the proofs only. */
  datatype Tree = Tree(parent: seq<nat>, pending: seq<int>, version: seq<nat>, enabled: seq<bool>,
                       weight: seq<nat>, current: nat, up: seq<set<nat>>)
  {
    predicate IsNode(v: nat) {
      v < |parent|
    }

    predicate IsRoot(v: nat)
      requires v < |parent|
    {
      parent[v] == v
    }

    ghost predicate Shape() {
      && |parent| == |pending| == |version| == |enabled| == |weight| == |up|
      && (forall v :: 0 <= v < |parent| ==> parent[v] < |parent|)
    }

    ghost predicate ForestAt(v: nat)
      requires Shape() && v < |parent|
    {
      && v in up[v] && (forall x :: x in up[v] ==> IsNode(x))
      && if IsRoot(v) then up[v] == {v} else v !in up[parent[v]] && up[v] == {v} + up[parent[v]]
    }

    /** Parent pointers form a forest. */
    ghost predicate Forest() {
      Shape() && forall v: nat :: v < |parent| ==> ForestAt(v)
    }
  }

  lemma HeightDecreases(tr: Tree, v: nat)
    requires tr.Forest() && tr.IsNode(v) && !tr.IsRoot(v)
    ensures |tr.up[tr.parent[v]]| < |tr.up[v]|
  {
    assert tr.ForestAt(v);
  }

  /** The ancestors of an ancestor are ancestors. */
  lemma {:induction false} UpClosed(tr: Tree, x: nat, v: nat)
    requires tr.Forest() && tr.IsNode(x) && v in tr.up[x]
    ensures tr.IsNode(v) && tr.up[v] <= tr.up[x]
    decreases |tr.up[x]|
  {
    assert tr.ForestAt(x);
    if v != x {
      HeightDecreases(tr, x);
      UpClosed(tr, tr.parent[x], v);
    }
  }

  /** The topmost ancestor. */
  lemma {:induction false} RootAbove(tr: Tree, x: nat) returns (r: nat)
    requires tr.Forest() && tr.IsNode(x)
    ensures tr.IsNode(r) && tr.IsRoot(r) && r in tr.up[x]
    ensures forall q :: q in tr.up[x] && tr.IsNode(q) && tr.IsRoot(q) ==> q == r
    decreases |tr.up[x]|
  {
    assert tr.ForestAt(x);
    if tr.IsRoot(x) {
      r := x;
    } else {
      HeightDecreases(tr, x);
      r := RootAbove(tr, tr.parent[x]);
    }
  }

  // ---------- Registration ----------

  /** The nearest ancestor of u that is a root or still waits for contractions onto it. */
  ghost function Representative(tr: Tree, u: nat): (w: nat)
    requires tr.Forest() && tr.IsNode(u)
    ensures w in tr.up[u] && tr.IsNode(w) && (tr.IsRoot(w) || tr.pending[w] != 0)
    decreases |tr.up[u]|
  {
    assert tr.ForestAt(u);
    if tr.IsRoot(u) || tr.pending[u] != 0 then u
    else
      HeightDecreases(tr, u);
      Representative(tr, tr.parent[u])
  }

  /** Every ancestor passed on the way is no root and waits for nothing. */
  lemma {:induction false} NothingWaitsBelow(tr: Tree, u: nat)
    requires tr.Forest() && tr.IsNode(u)
    ensures var w := Representative(tr, u);
            && w in tr.up[u] && tr.IsNode(w) && (tr.parent[w] == w || tr.pending[w] != 0)
            && (forall x: nat :: x in tr.up[u] && x !in tr.up[w] ==> tr.IsNode(x) && tr.parent[x] != x && tr.pending[x] == 0)
            && (tr.parent[u] == u || tr.pending[u] != 0 ==> w == u)
    decreases |tr.up[u]|
  {
    assert tr.ForestAt(u);
    if !tr.IsRoot(u) && tr.pending[u] == 0 {
      HeightDecreases(tr, u);
      NothingWaitsBelow(tr, tr.parent[u]);
    }
  }

  /** These properties determine the representative. */
  lemma {:induction false} OnlyRepresentative(tr: Tree, u: nat, w: nat)
    requires tr.Forest() && tr.IsNode(u) && w in tr.up[u] && tr.IsNode(w) && (tr.parent[w] == w || tr.pending[w] != 0)
    requires forall x: nat :: x in tr.up[u] && x !in tr.up[w] ==> tr.IsNode(x) && tr.parent[x] != x && tr.pending[x] == 0
    ensures w == Representative(tr, u)
    decreases |tr.up[u]|
  {
    assert tr.ForestAt(u) && tr.ForestAt(w);
    if w != u {
      UpClosed(tr, tr.parent[u], w);
      assert u !in tr.up[w];
      HeightDecreases(tr, u);
      OnlyRepresentative(tr, tr.parent[u], w);
    }
  }

  /** A registration of v onto u is accepted exactly if v has no parent yet and u is not below v. */
  ghost predicate Registrable(tr: Tree, u: nat, v: nat)
    requires tr.Forest() && tr.IsNode(u) && tr.IsNode(v)
  {
    tr.IsRoot(v) && v !in tr.up[u]
  }

  ghost function Registered(tr: Tree, w: nat, v: nat): Tree
    requires tr.Forest() && tr.IsNode(w) && tr.IsNode(v)
  {
    tr.(parent := tr.parent[v := w],
        pending := tr.pending[w := tr.pending[w] + 1],
        version := tr.version[v := tr.current],
        up := seq(|tr.up|, x requires 0 <= x < |tr.up| => if v in tr.up[x] then tr.up[x] + tr.up[w] else tr.up[x]))
  }

  lemma RegisteredForest(tr: Tree, w: nat, v: nat)
    requires tr.Forest() && tr.IsNode(w) && tr.IsNode(v) && tr.IsRoot(v) && v !in tr.up[w]
    ensures Registered(tr, w, v).Forest()
  {
    var tr' := Registered(tr, w, v);
    assert tr.ForestAt(v) && tr.ForestAt(w);
    forall x: nat | x < |tr.parent| ensures tr'.ForestAt(x) {
      assert tr.ForestAt(x);
      if x != v && !tr.IsRoot(x) && x in tr.up[w] {
        UpClosed(tr, w, x);
      }
    }
  }

  /** Gives up the registration of v onto its parent. */
  ghost function Unregistered(tr: Tree, v: nat): Tree
    requires tr.Forest() && tr.IsNode(v) && !tr.IsRoot(v)
  {
    var u := tr.parent[v];
    tr.(parent := tr.parent[v := v],
        pending := tr.pending[u := tr.pending[u] - 1],
        version := tr.version[v := INVALID_VERSION],
        up := seq(|tr.up|, x requires 0 <= x < |tr.up| => if v in tr.up[x] then tr.up[x] - tr.up[u] else tr.up[x]))
  }

  lemma UnregisteredForest(tr: Tree, v: nat)
    requires tr.Forest() && tr.IsNode(v) && !tr.IsRoot(v)
    ensures Unregistered(tr, v).Forest()
  {
    var tr' := Unregistered(tr, v);
    var u := tr.parent[v];
    assert tr.ForestAt(v) && tr.ForestAt(u);
    forall x: nat | x < |tr.parent| ensures tr'.ForestAt(x) {
      assert tr.ForestAt(x);
      if x != v && v in tr.up[x] && x in tr.up[u] {
        // x lies below v, so it cannot lie above it as well
        UpClosed(tr, u, x);
      }
    }
  }
}
