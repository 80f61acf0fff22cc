/** From an ordering to a postordered elimination tree: the tree of the graph under the ordering is built,
    postordered, and the ordering composed with the postorder, without building the tree again. */
module Preprocessing {
  import opened EliminationTree
  import opened Ordering
  import opened Relabelling
  import opened Postorder
  import opened PostOrderTree
  import T = ETree

  /** The graph that an expanded structure stores, without its diagonal. */
  ghost function GraphOf(g: T.Csc): Adj
    requires g.Valid()
  {
    (u: nat, v: nat) => u != v && 1 <= u <= g.n && 1 <= v <= g.n && u in g.Column(v)
  }

  /** What SetKeepDiag and ExpandSymmetric leave: both triangles and the whole diagonal are stored. */
  ghost predicate Expanded(g: T.Csc) {
    && g.Valid() && g.expanded && Symmetric(GraphOf(g))
    && forall v :: 1 <= v <= g.n ==> v in g.Column(v)
  }

  lemma PermutedEntry(g: T.Csc, perm: seq<nat>, invp: seq<nat>, a: nat, i: nat)
    requires g.Valid() && Inverse(invp, perm) && |invp| == g.n && 1 <= a <= g.n && 1 <= i <= g.n
    requires forall k :: 0 <= k < g.n ==> 1 <= perm[k] <= g.n
    ensures a in T.Permuted(g, perm, invp)(i) <==> At(perm, a) in g.Column(At(perm, i))
  {
    var column := g.Column(At(perm, i));
    var c := T.Permuted(g, perm, invp)(i);
    assert c == Then(column, invp);
    if a in c {
      var m :| 0 <= m < |c| && c[m] == a;
      assert a == At(invp, column[m]);
      assert At(perm, At(invp, column[m])) == column[m];
    }
    if At(perm, a) in column {
      var m :| 0 <= m < |column| && column[m] == At(perm, a);
      assert c[m] == At(invp, At(perm, a)) == a;
    }
  }

  lemma PermApart(perm: seq<nat>, invp: seq<nat>, u: nat, v: nat)
    requires Inverse(invp, perm) && 1 <= u <= |perm| && 1 <= v <= |perm|
    ensures 1 <= At(perm, u) <= |perm| && 1 <= At(perm, v) <= |perm|
    ensures At(perm, u) == At(perm, v) <==> u == v
  {
    assert At(invp, At(perm, u)) == u && At(invp, At(perm, v)) == v;
  }

  lemma PermutedEdge(g: T.Csc, perm: seq<nat>, invp: seq<nat>, u: nat, v: nat)
    requires Expanded(g) && Inverse(invp, perm) && |invp| == g.n && 1 <= u <= g.n && 1 <= v <= g.n
    requires forall k :: 0 <= k < g.n ==> 1 <= perm[k] <= g.n
    ensures T.Full(T.Permuted(g, perm, invp))(u, v) == Moved(GraphOf(g), perm)(u, v)
  {
    PermApart(perm, invp, u, v);
    EdgeCases(g, perm, invp, u, v, At(perm, u), At(perm, v)) by {
      PermutedEntry(g, perm, invp, u, v);
      PermutedEntry(g, perm, invp, v, u);
    }
  }

  lemma EdgeCases(g: T.Csc, perm: seq<nat>, invp: seq<nat>, u: nat, v: nat, pu: nat, pv: nat)
    requires Expanded(g) && |invp| == |perm| == g.n && 1 <= u <= g.n && 1 <= v <= g.n
    requires forall k :: 0 <= k < g.n ==> 1 <= perm[k] <= g.n
    requires pu == At(perm, u) && pv == At(perm, v) && 1 <= pu <= g.n && 1 <= pv <= g.n && (pu == pv <==> u == v)
    requires u in T.Permuted(g, perm, invp)(v) <==> pu in g.Column(pv)
    requires v in T.Permuted(g, perm, invp)(u) <==> pv in g.Column(pu)
    ensures T.Full(T.Permuted(g, perm, invp))(u, v) == Moved(GraphOf(g), perm)(u, v)
  {
    SymmetricEntry(g, pu, pv);
    SymmetricEntry(g, pv, pu);
  }

  lemma SymmetricEntry(g: T.Csc, u: nat, v: nat)
    requires Expanded(g) && 1 <= u <= g.n && 1 <= v <= g.n
    ensures GraphOf(g)(u, v) == GraphOf(g)(v, u)
    ensures GraphOf(g)(u, v) <==> u != v && u in g.Column(v)
  {
  }

  lemma PermutedGraph(g: T.Csc, perm: seq<nat>, invp: seq<nat>)
    requires Expanded(g) && Inverse(invp, perm) && |invp| == g.n
    requires forall k :: 0 <= k < g.n ==> 1 <= perm[k] <= g.n
    ensures Agree(T.Full(T.Permuted(g, perm, invp)), Moved(GraphOf(g), perm), g.n)
    ensures forall i :: 1 <= i <= g.n ==> i in T.Permuted(g, perm, invp)(i)
  {
    forall i | 1 <= i <= g.n
      ensures i in T.Permuted(g, perm, invp)(i)
    {
      PermutedEntry(g, perm, invp, i, i);
    }
    forall u, v | 1 <= u <= g.n && 1 <= v <= g.n
      ensures T.Full(T.Permuted(g, perm, invp))(u, v) == Moved(GraphOf(g), perm)(u, v)
    {
      PermutedEdge(g, perm, invp, u, v);
    }
  }

  lemma SeenTree(g: T.Csc, perm: seq<nat>, invp: seq<nat>, parent: seq<nat>)
    requires Expanded(g) && Inverse(invp, perm) && |invp| == g.n
    requires forall k :: 0 <= k < g.n ==> 1 <= perm[k] <= g.n
    requires IsETree(T.Seen(T.Permuted(g, perm, invp)), g.n, parent)
    ensures IsETree(Moved(GraphOf(g), perm), g.n, parent) && Forest(parent)
  {
    var cols, n := T.Permuted(g, perm, invp), g.n;
    T.PermutedValid(g, perm, invp);
    PermutedGraph(g, perm, invp);
    T.WholeGraph(cols, n);
    TreeIsETree(T.Seen(cols), n);
    ETreeUnique(T.Seen(cols), n, parent, Tree(T.Seen(cols), n));
    TreeIsETree(T.Full(cols), n);
    AgreeTree(T.Full(cols), Moved(GraphOf(g), perm), n, parent);
    forall v | 1 <= v <= n
      ensures At(parent, v) == 0 || v < At(parent, v) <= n
    {
      assert IsParent(Moved(GraphOf(g), perm), n, v, At(parent, v));
    }
  }

  /** The whole step: afterwards poparent is the elimination tree of the graph under the new ordering, and
      every subtree has consecutive numbers. */
  method OrderedTree(g: T.Csc, order: Order) returns (tree: ETree)
    requires Expanded(g) && order.Valid() && order.invp.Length == g.n > 0
    modifies order.perm, order.invp
    ensures fresh(tree) && tree.Valid() && tree.isPostOrdered && tree.n == g.n && order.Valid()
    ensures IsETree(Moved(GraphOf(g), order.perm[..]), g.n, tree.poparent[..])
    ensures Postordered(tree.poparent[..])
  {
    ghost var invp0, perm0 := order.invp[..], order.perm[..];
    var r := T.ConstructETree(g, order);
    SeenTree(g, perm0, invp0, r.value[..]);
    tree := new ETree(r.value);
    ghost var parent := tree.parent[..];
    ghost var sigma, perm := tree.PostOrderTree(order);
    PostorderedTree(GraphOf(g), g.n, invp0, perm0, sigma, perm, order.invp[..], order.perm[..], parent, tree.poparent[..]);
  }

  /** Ordering the children by count keeps this: the tree stays the elimination tree of the graph under the
      ordering, and the counts stay with their vertices. */
  method SortedTree(tree: ETree, cc: array<int>, order: Order, ghost adj: Adj) returns (ghost sigma: seq<nat>)
    requires tree.Valid() && tree.isPostOrdered && order.Valid() && order.invp.Length == tree.n == cc.Length && tree.n > 0
    requires {order.perm, order.invp} !! {tree.parent, tree.poparent}
    requires Symmetric(adj) && IsETree(Moved(adj, order.perm[..]), tree.n, tree.poparent[..])
    modifies tree`poparent, tree`isPostOrdered, tree.poparent, cc, order.perm, order.invp
    ensures tree.Valid() && tree.isPostOrdered && order.Valid() && Postordered(tree.poparent[..])
    ensures IsETree(Moved(adj, order.perm[..]), tree.n, tree.poparent[..])
    ensures LeastChildLast(tree.poparent[..], cc[..])
    ensures Moves(old(order.invp[..]), sigma, order.invp[..]) && MovedAlong(old(cc[..]), sigma, cc[..])
  {
    ghost var invp0, perm0, parent := order.invp[..], order.perm[..], tree.poparent[..];
    ghost var perm, whole, wholePerm;
    sigma, perm, whole, wholePerm := tree.SortChildren(cc, order);
    PostorderedTree(adj, tree.n, invp0, perm0, sigma, perm, order.invp[..], order.perm[..], parent, tree.poparent[..]);
  }
}
