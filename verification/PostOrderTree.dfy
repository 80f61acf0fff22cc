/** The tree object of the solver: the parents, the postordered parents, and the two operations that
    renumber them together with the ordering. */
module PostOrderTree {
  import opened EliminationTree
  import opened Ordering
  import opened Relabelling
  import opened Postorder

  /** What relabelling writes: the parent of each vertex, both under their new numbers. */
  ghost function NewParent(t: seq<nat>, sigma: seq<nat>, v: nat): nat
    requires |sigma| == |t| && 1 <= v <= |t| && At(t, v) <= |t|
  {
    if At(t, v) == 0 then 0 else At(sigma, At(t, v))
  }

  lemma RelabelDone(t: seq<nat>, sigma: seq<nat>, perm: seq<nat>, t': seq<nat>)
    requires Forest(t) && Inverse(sigma, perm) && |sigma| == |t| == |t'|
    requires forall v {:trigger At(sigma, v)} :: 1 <= v <= |t| ==> At(t, v) <= |t| && t'[At(sigma, v) - 1] == NewParent(t, sigma, v)
    ensures Relabelled(t, sigma, t')
  {
    forall v | 1 <= v <= |t|
      ensures 0 <= At(t, v) <= |t| && At(t', At(sigma, v)) == if At(t, v) == 0 then 0 else At(sigma, At(t, v))
    {
      assert t'[At(sigma, v) - 1] == NewParent(t, sigma, v);
    }
  }

  /** target becomes the parent array under the numbers invpos. */
  method RelabelParents(parent: array<nat>, invpos: array<nat>, target: array<nat>, ghost perm: seq<nat>)
    requires parent.Length == invpos.Length == target.Length && target != parent && target != invpos
    requires Forest(parent[..]) && Inverse(invpos[..], perm)
    modifies target
    ensures Relabelled(parent[..], invpos[..], target[..])
  {
    ghost var t, sigma := parent[..], invpos[..];
    InRange(sigma, perm);
    for i := 1 to parent.Length + 1
      invariant parent[..] == t && invpos[..] == sigma
      invariant forall v {:trigger At(sigma, v)} :: 1 <= v < i ==> At(t, v) <= |t| && target[At(sigma, v) - 1] == NewParent(t, sigma, v)
    {
      var nunode := invpos[i - 1];
      var ndpar := parent[i - 1];
      assert nunode == At(sigma, i) && ndpar == At(t, i);
      if ndpar > 0 {
        ndpar := invpos[ndpar - 1];
      }
      NotYet(sigma, perm, i);
      target[nunode - 1] := ndpar;
    }
    RelabelDone(t, sigma, perm, target[..]);
  }

  class ETree {
    var n: nat
    var isPostOrdered: bool
    var parent: array<nat>
    var poparent: array<nat>

    ghost predicate Valid()
      reads this, parent, poparent
    {
      && parent.Length == poparent.Length == n && parent != poparent
      && Forest(parent[..])
      && (isPostOrdered ==> Postordered(poparent[..]))
    }

    /** The state ConstructETree leaves: poparent_ has no particular contents yet. */
    constructor (parent: array<nat>)
      requires Forest(parent[..])
      ensures Valid() && !isPostOrdered && this.parent == parent && n == parent.Length && fresh(poparent)
    {
      n := parent.Length;
      isPostOrdered := false;
      this.parent := parent;
      poparent := new nat[parent.Length](_ => 0);
    }

    /** What both operations establish: the forest `t` was renumbered by one of its postorders. */
    ghost predicate Renumbered(t: seq<nat>, invpos: seq<nat>, perm: seq<nat>)
      reads this, poparent
    {
      && |invpos| == |t| && Forest(t) && Inverse(invpos, perm)
      && Intervals(t, invpos) && Topological(t, invpos)
      && Relabelled(t, invpos, poparent[..]) && Postordered(poparent[..])
    }

    /** poparent serves as the brother array of the traversal before it receives the relabelled parents;
        what it holds before is irrelevant. */
    method Traverse(order: Order) returns (ghost invpos: seq<nat>, ghost perm: seq<nat>)
      requires Valid() && order.Valid() && order.invp.Length == n && n > 0 && !isPostOrdered
      requires {order.perm, order.invp} !! {parent, poparent}
      modifies this`isPostOrdered, poparent, order.perm, order.invp
      ensures Valid() && isPostOrdered && order.Valid()
      ensures Renumbered(parent[..], invpos, perm)
      ensures Moves(old(order.invp[..]), invpos, order.invp[..])
    {
      var fson := new nat[n](_ => 0);
      ghost var t := parent[..];
      ghost var kids := LinkChildren(parent, fson, poparent);
      var numbers := BTreeToPO(fson, poparent, t, kids);
      invpos, perm := numbers[..], PostList(kids, kids[0]);
      TraversalIsPostorder(t, kids, invpos);
      RelabelParents(parent, numbers, poparent, perm);
      RelabelledPostordered(t, invpos, perm, poparent[..]);
      order.Compose(numbers, perm);
      isPostOrdered := true;
    }

    method PostOrderTree(order: Order) returns (ghost invpos: seq<nat>, ghost perm: seq<nat>)
      requires Valid() && order.Valid() && order.invp.Length == n
      requires {order.perm, order.invp} !! {parent, poparent}
      modifies this`isPostOrdered, poparent, order.perm, order.invp
      ensures Valid() && order.Valid() && isPostOrdered == (old(isPostOrdered) || n > 0)
      ensures isPostOrdered && !old(isPostOrdered) ==>
                Renumbered(parent[..], invpos, perm) && Moves(old(order.invp[..]), invpos, order.invp[..])
      ensures isPostOrdered == old(isPostOrdered) ==>
                poparent[..] == old(poparent[..]) && order.invp[..] == old(order.invp[..]) && order.perm[..] == old(order.perm[..])
    {
      invpos, perm := [], [];
      if n > 0 && !isPostOrdered {
        invpos, perm := Traverse(order);
      }
    }

    /** The second pass over a postordered forest. */
    method Resort(cc: array<int>, order: Order) returns (ghost invpos: seq<nat>, ghost perm: seq<nat>)
      requires Valid() && order.Valid() && order.invp.Length == n == cc.Length && n > 0 && isPostOrdered
      requires {order.perm, order.invp} !! {parent, poparent}
      modifies this`poparent, cc, order.perm, order.invp
      ensures Valid() && order.Valid() && fresh(poparent)
      ensures Renumbered(old(poparent[..]), invpos, perm)
      ensures Moves(old(order.invp[..]), invpos, order.invp[..])
      ensures MovedAlong(old(cc[..]), invpos, cc[..]) && LeastChildLast(poparent[..], cc[..])
    {
      ghost var t := poparent[..];
      var fson, brother; ghost var kids;
      fson, brother, kids := LinkByCount(poparent, cc);
      var numbers := BTreeToPO(fson, brother, t, kids);
      invpos, perm := numbers[..], PostList(kids, kids[0]);
      TraversalIsPostorder(t, kids, invpos);
      RelabelParents(poparent, numbers, brother, perm);
      RelabelledPostordered(t, invpos, perm, brother[..]);
      ghost var c := cc[..];
      PermuteCounts(cc, numbers, perm);
      LeastChildrenLast(t, kids, invpos, brother[..], c, cc[..]);
      poparent := brother;
      order.Compose(numbers, perm);
    }

    /** The forest that SortChildren starts from: the original one as long as there is no postorder. */
    ghost function Current(): seq<nat>
      reads this, parent, poparent
    {
      if isPostOrdered then poparent[..] else parent[..]
    }

    /** Postorder first if that has not been done, then order the children of every vertex by count.  `whole` is
        the renumbering of both steps together, `invpos` that of the second, with which the counts move. */
    method SortChildren(cc: array<int>, order: Order)
      returns (ghost invpos: seq<nat>, ghost perm: seq<nat>, ghost whole: seq<nat>, ghost wholePerm: seq<nat>)
      requires Valid() && order.Valid() && order.invp.Length == n == cc.Length && n > 0
      requires {order.perm, order.invp} !! {parent, poparent}
      modifies this`poparent, this`isPostOrdered, poparent, cc, order.perm, order.invp
      ensures Valid() && order.Valid() && isPostOrdered
      ensures MovedAlong(old(cc[..]), invpos, cc[..]) && LeastChildLast(poparent[..], cc[..])
      ensures Renumbered(old(Current()), whole, wholePerm) && Moves(old(order.invp[..]), whole, order.invp[..])
      ensures old(isPostOrdered) ==> whole == invpos && wholePerm == perm
    {
      ghost var invp0, t := order.invp[..], Current();
      ghost var first, firstPerm;
      if !isPostOrdered {
        first, firstPerm := PostOrderTree(order);
        ghost var invp1, mid := order.invp[..], poparent[..];
        invpos, perm := Resort(cc, order);
        whole, wholePerm := TwoRenumberings(t, first, firstPerm, mid, invpos, perm, poparent[..]);
        TwoMoves(invp0, first, firstPerm, invp1, invpos, perm, order.invp[..]);
      } else {
        invpos, perm := Resort(cc, order);
        whole, wholePerm := invpos, perm;
      }
    }
  }

  lemma TwoRenumberings(t: seq<nat>, a: seq<nat>, a': seq<nat>, mid: seq<nat>, b: seq<nat>, b': seq<nat>, t': seq<nat>)
    returns (whole: seq<nat>, whole': seq<nat>)
    requires Forest(t) && Inverse(a, a') && Topological(t, a) && Relabelled(t, a, mid)
    requires Forest(mid) && Inverse(b, b') && Topological(mid, b) && Intervals(mid, b) && Relabelled(mid, b, t')
    ensures (forall k :: 0 <= k < |a| ==> 1 <= a[k] <= |b|) && whole == Then(a, b)
    ensures Inverse(whole, whole') && Topological(t, whole) && Intervals(t, whole) && Relabelled(t, whole, t')
  {
    InRange(a, a');
    InRange(b, b');
    InverseInRange(b, b');
    whole, whole' := Then(a, b), Then(b', a');
    ThenInverse(a, a', b, b');
    ThenRelabelled(t, a, mid, b, t');
    SigmaInjective(a, a');
    forall v | 1 <= v <= |t|
      ensures Interval(t, whole, v)
    {
      ThenInterval(t, a, a', mid, b, v);
    }
  }

  lemma InverseInRange(p: seq<nat>, q: seq<nat>)
    requires Inverse(p, q)
    ensures forall k :: 0 <= k < |q| ==> 1 <= q[k] <= |p|
  {
    forall k | 0 <= k < |q|
      ensures 1 <= q[k] <= |p|
    {
      assert q[k] == At(q, k + 1);
    }
  }

  lemma ThenRelabelled(t: seq<nat>, a: seq<nat>, mid: seq<nat>, b: seq<nat>, t': seq<nat>)
    requires Forest(t) && Topological(t, a) && Relabelled(t, a, mid)
    requires Topological(mid, b) && Relabelled(mid, b, t') && forall k :: 0 <= k < |a| ==> 1 <= a[k] <= |b|
    ensures Topological(t, Then(a, b)) && Relabelled(t, Then(a, b), t')
  {
    forall v | 1 <= v <= |t|
      ensures 1 <= At(Then(a, b), v) <= |t| && 0 <= At(t, v) <= |t|
      ensures At(t', At(Then(a, b), v)) == if At(t, v) == 0 then 0 else At(Then(a, b), At(t, v))
      ensures v < At(t, v) ==> At(Then(a, b), v) < At(Then(a, b), At(t, v))
    {
      assert At(Then(a, b), v) == At(b, At(a, v));
      assert At(mid, At(a, v)) == if At(t, v) == 0 then 0 else At(a, At(t, v));
    }
  }

  lemma ThenInterval(t: seq<nat>, a: seq<nat>, a': seq<nat>, mid: seq<nat>, b: seq<nat>, v: nat)
    requires Forest(t) && Inverse(a, a') && Topological(t, a) && Relabelled(t, a, mid) && Intervals(mid, b) && 1 <= v <= |t|
    requires forall k :: 0 <= k < |a| ==> 1 <= a[k] <= |b|
    ensures Interval(t, Then(a, b), v)
  {
    SigmaInjective(a, a');
    assert Interval(mid, b, At(a, v));
    var lo: nat :| OnInterval(mid, b, At(a, v), lo);
    forall u | 1 <= u <= |t|
      ensures Anc(t, u, v) <==> lo < At(Then(a, b), u) <= At(Then(a, b), v)
    {
      AncRelabelled(t, a, mid, u, v);
      assert At(Then(a, b), u) == At(b, At(a, u)) && At(Then(a, b), v) == At(b, At(a, v));
    }
    assert OnInterval(t, Then(a, b), v, lo);
  }

  lemma TwoMoves(invp0: seq<nat>, a: seq<nat>, a': seq<nat>, invp1: seq<nat>, b: seq<nat>, b': seq<nat>, invp2: seq<nat>)
    requires Inverse(a, a') && Inverse(b, b') && |a| == |b| && Moves(invp0, a, invp1) && Moves(invp1, b, invp2)
    ensures (forall k :: 0 <= k < |a| ==> 1 <= a[k] <= |b|) && Moves(invp0, Then(a, b), invp2)
  {
    InRange(a, a');
  }

  /** The ordering after a composition. */
  ghost predicate Moves(invp0: seq<nat>, invpos: seq<nat>, invp: seq<nat>) {
    && (forall k :: 0 <= k < |invp0| ==> 1 <= invp0[k] <= |invpos|)
    && invp == Then(invp0, invpos)
  }

  /** cc is permuted through a scratch array. */
  method PermuteCounts(cc: array<int>, invpos: array<nat>, ghost perm: seq<nat>)
    requires cc.Length == invpos.Length && Inverse(invpos[..], perm)
    modifies cc
    ensures MovedAlong(old(cc[..]), invpos[..], cc[..])
  {
    var n := cc.Length;
    ghost var sigma, c := invpos[..], cc[..];
    InRange(sigma, perm);
    var stack := new int[n];
    for node := 1 to n + 1
      invariant cc[..] == c && invpos[..] == sigma
      invariant forall v {:trigger At(sigma, v)} :: 1 <= v < node ==> stack[At(sigma, v) - 1] == c[v - 1]
    {
      var nunode := invpos[node - 1];
      assert nunode == At(sigma, node);
      NotYet(sigma, perm, node);
      stack[nunode - 1] := cc[node - 1];
    }
    for node := 1 to n + 1
      invariant invpos[..] == sigma
      invariant forall k :: 0 <= k < node - 1 ==> cc[k] == stack[k]
      invariant forall v {:trigger At(sigma, v)} :: 1 <= v <= n ==> stack[At(sigma, v) - 1] == c[v - 1]
    {
      cc[node - 1] := stack[node - 1];
    }
  }

  // ---------------------------------------------------------------------------------------------
  // The tree of the graph under the composed ordering
  // ---------------------------------------------------------------------------------------------

  lemma ComposedPerm(invp0: seq<nat>, perm0: seq<nat>, sigma: seq<nat>, perm: seq<nat>, invp1: seq<nat>, perm1: seq<nat>)
    requires Inverse(invp0, perm0) && Inverse(sigma, perm) && Inverse(invp1, perm1) && |sigma| == |invp0|
    requires Moves(invp0, sigma, invp1)
    ensures (forall k :: 0 <= k < |sigma| ==> 1 <= perm[k] <= |sigma|) && |perm0| == |sigma|
    ensures perm1 == Then(perm, perm0)
  {
    InRange(invp0, perm0);
    InRange(sigma, perm);
    ThenInverse(invp0, perm0, sigma, perm);
    InverseUnique(invp1, perm1, Then(perm, perm0));
  }

  /** Composing the ordering with sigma moves the graph as moving it twice does. */
  lemma MovedCompose(adj: Adj, perm0: seq<nat>, perm: seq<nat>)
    requires |perm| == |perm0| && (forall k :: 0 <= k < |perm| ==> 1 <= perm[k] <= |perm|)
    ensures Agree(Moved(Moved(adj, perm0), perm), Moved(adj, Then(perm, perm0)), |perm|)
  {
    forall u, v | 1 <= u <= |perm| && 1 <= v <= |perm|
      ensures Moved(Moved(adj, perm0), perm)(u, v) == Moved(adj, Then(perm, perm0))(u, v)
    {
      assert At(Then(perm, perm0), u) == At(perm0, At(perm, u)) && At(Then(perm, perm0), v) == At(perm0, At(perm, v));
    }
  }

  /** Why the tree is not computed again: the relabelled parents are the elimination tree of the graph under
      the composed ordering, and the fill is the same entry by entry. */
  lemma PostorderedTree(adj: Adj, n: nat, invp0: seq<nat>, perm0: seq<nat>, sigma: seq<nat>, perm: seq<nat>,
                        invp1: seq<nat>, perm1: seq<nat>, parent: seq<nat>, poparent: seq<nat>)
    requires Symmetric(adj) && Inverse(invp0, perm0) && Inverse(sigma, perm) && Inverse(invp1, perm1)
    requires |sigma| == |invp0| == n && Moves(invp0, sigma, invp1)
    requires IsETree(Moved(adj, perm0), n, parent) && Topological(parent, sigma) && Relabelled(parent, sigma, poparent)
    ensures IsETree(Moved(adj, perm1), n, poparent)
    ensures forall j, i :: 1 <= j <= n && 1 <= i <= n ==>
              (Fill(Moved(adj, perm0), j, i) <==> Fill(Moved(adj, perm1), At(sigma, j), At(sigma, i)))
  {
    var adj0 := Moved(adj, perm0);
    MovedSymmetric(adj, perm0);
    TreeIsETree(adj0, n);
    ETreeUnique(adj0, n, parent, Tree(adj0, n));
    RelabelledTree(adj0, n, sigma, perm, parent, poparent);
    ComposedPerm(invp0, perm0, sigma, perm, invp1, perm1);
    MovedCompose(adj, perm0, perm);
    AgreeTree(Moved(adj0, perm), Moved(adj, perm1), n, poparent);
    forall j, i | 1 <= j <= n && 1 <= i <= n
      ensures Fill(adj0, j, i) <==> Fill(Moved(adj, perm1), At(sigma, j), At(sigma, i))
    {
      SameFill(adj0, n, sigma, perm, j, i);
      FillAgrees(Moved(adj0, perm), Moved(adj, perm1), n, At(sigma, j), At(sigma, i));
    }
  }

  lemma FillAgrees(a: Adj, b: Adj, n: nat, j: nat, i: nat)
    requires Agree(a, b, n) && i <= n
    ensures Fill(a, j, i) <==> Fill(b, j, i)
  {
    if Fill(a, j, i) {
      AgreeFill(a, b, n, j, i);
    }
    if Fill(b, j, i) {
      AgreeFill(b, a, n, j, i);
    }
  }
}
