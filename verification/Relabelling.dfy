/** Renumbering a graph along its elimination tree: any order that keeps every vertex before its parent has
    the same fill, and its elimination tree is the renumbered one.  This is why the solver relabels the
    parents after postordering instead of computing the tree again. */
module Relabelling {
  import opened EliminationTree
  import opened Ordering

  /** a is v or an ancestor of v. */
  ghost predicate Anc(t: seq<nat>, v: nat, a: nat)
    decreases |t| - v
  {
    v == a || (1 <= v <= |t| && v < At(t, v) <= |t| && Anc(t, At(t, v), a))
  }

  lemma {:induction false} AncUp(t: seq<nat>, v: nat, a: nat)
    requires Anc(t, v, a) && 1 <= v <= |t|
    ensures v <= a <= |t|
    decreases |t| - v
  {
    if v != a {
      AncUp(t, At(t, v), a);
    }
  }

  lemma {:induction false} AncTrans(t: seq<nat>, v: nat, a: nat, b: nat)
    requires Anc(t, v, a) && Anc(t, a, b)
    ensures Anc(t, v, b)
    decreases |t| - v
  {
    if v != a {
      AncTrans(t, At(t, v), a, b);
    }
  }

  /** The ancestors of a vertex are a chain. */
  lemma {:induction false} AncChain(t: seq<nat>, v: nat, a: nat, b: nat)
    requires 1 <= v <= |t| && Anc(t, v, a) && Anc(t, v, b) && a <= b
    ensures Anc(t, a, b)
    decreases |t| - v
  {
    if v != a {
      AncUp(t, v, a);
      assert v != b;
      AncChain(t, At(t, v), a, b);
    }
  }

  /** The label of a vertex is one of its ancestors. */
  lemma {:induction false} LabelIsAncestor(adj: Adj, n: nat, i: nat, v: nat)
    requires Symmetric(adj) && 1 <= v <= i <= n
    ensures Anc(Tree(adj, n), v, At(LabelSeq(adj, i), v))
    decreases i
  {
    if v < i {
      var root0 := LabelSeq(adj, i - 1);
      LabelIsAncestor(adj, n, i - 1, v);
      if At(root0, v) in RootsOf(root0, Below(adj, i)) {
        var w :| w in Below(adj, i) && 1 <= w <= |root0| && At(root0, w) == At(root0, v);
        NeighbourRoot(adj, n, i, w);
        assert Anc(Tree(adj, n), At(root0, v), i);
        AncTrans(Tree(adj, n), v, At(root0, v), i);
      }
    } else {
      assert At(LabelSeq(adj, i), v) == v;
    }
  }

  /** Vertices that j reaches through vertices <= j are below j in the tree. */
  lemma ReachedIsBelow(adj: Adj, n: nat, j: nat, w: nat)
    requires Symmetric(adj) && j <= n && Connected(adj, j, j, w)
    ensures 1 <= w <= j && Anc(Tree(adj, n), w, j)
  {
    ConnectedBounds(adj, j, j, w);
    ComponentsOfLabels(adj, j, j, w);
    LabelIsAncestor(adj, n, j, w);
  }

  /** The rows of the nonzeros of column j are ancestors of j. */
  lemma FillIsAncestor(adj: Adj, n: nat, j: nat, i: nat)
    requires Symmetric(adj) && i <= n && Fill(adj, j, i)
    ensures Anc(Tree(adj, n), j, i)
  {
    var w :| Connected(adj, j, j, w) && adj(w, i);
    ConnectedBounds(adj, j, j, w);
    ConnectedMore(adj, j, i, j, w);
    ConnectedEdge(adj, i, w, i);
    ConnectedTrans(adj, i, j, w, i);
    ComponentsOfLabels(adj, i, j, i);
    LabelIsAncestor(adj, n, i, j);
  }

  lemma EdgeIsAncestor(adj: Adj, n: nat, u: nat, v: nat)
    requires Symmetric(adj) && 1 <= u < v <= n && adj(u, v)
    ensures Anc(Tree(adj, n), u, v)
  {
    ConnectedSelf(adj, u, u);
    assert Fill(adj, u, v);
    FillIsAncestor(adj, n, u, v);
  }

  /** sigma keeps every vertex before its parent. */
  ghost predicate Topological(t: seq<nat>, sigma: seq<nat>) {
    |sigma| == |t| && forall v {:trigger At(t, v)} :: 1 <= v <= |t| && v < At(t, v) <= |t| ==> At(sigma, v) < At(sigma, At(t, v))
  }

  lemma {:induction false} TopologicalAnc(t: seq<nat>, sigma: seq<nat>, v: nat, a: nat)
    requires Topological(t, sigma) && 1 <= v <= |t| && Anc(t, v, a)
    ensures v <= a <= |t| && At(sigma, v) <= At(sigma, a) && (v != a ==> At(sigma, v) < At(sigma, a))
    decreases |t| - v
  {
    if v != a {
      TopologicalAnc(t, sigma, At(t, v), a);
    }
  }

  // ---------------------------------------------------------------------------------------------
  // The same fill
  // ---------------------------------------------------------------------------------------------

  ghost predicate Renumbering(adj: Adj, n: nat, sigma: seq<nat>, perm: seq<nat>) {
    Symmetric(adj) && |sigma| == n && Inverse(sigma, perm) && Topological(Tree(adj, n), sigma)
  }

  ghost function MapSeq(p: seq<nat>, sigma: seq<nat>): (r: seq<nat>)
    requires forall k :: 0 <= k < |p| ==> 1 <= p[k] <= |sigma|
    ensures |r| == |p| && forall k :: 0 <= k < |p| ==> r[k] == At(sigma, p[k])
  {
    Then(p, sigma)
  }

  lemma MovedEdge(adj: Adj, n: nat, sigma: seq<nat>, perm: seq<nat>, u: nat, v: nat)
    requires Renumbering(adj, n, sigma, perm) && 1 <= u <= n && 1 <= v <= n
    ensures Moved(adj, perm)(At(sigma, u), At(sigma, v)) == adj(u, v)
  {
  }

  lemma MovedWalk(adj: Adj, n: nat, sigma: seq<nat>, perm: seq<nat>, j: nat, p: seq<nat>)
    requires Renumbering(adj, n, sigma, perm) && 1 <= j <= n && Walk(adj, p, j)
    requires forall k :: 0 <= k < |p| ==> At(sigma, p[k]) <= At(sigma, j)
    ensures Walk(Moved(adj, perm), MapSeq(p, sigma), At(sigma, j))
  {
    var r := MapSeq(p, sigma);
    forall k | 0 <= k < |r|
      ensures 1 <= r[k] <= At(sigma, j)
    {
      assert r[k] == At(sigma, p[k]);
    }
    forall k | 0 <= k < |r| - 1
      ensures Moved(adj, perm)(r[k], r[k + 1])
    {
      MovedEdge(adj, n, sigma, perm, p[k], p[k + 1]);
    }
  }

  lemma FillMoves(adj: Adj, n: nat, sigma: seq<nat>, perm: seq<nat>, j: nat, i: nat)
    requires Renumbering(adj, n, sigma, perm) && i <= n && Fill(adj, j, i)
    ensures Fill(Moved(adj, perm), At(sigma, j), At(sigma, i))
  {
    var t := Tree(adj, n);
    var w :| Connected(adj, j, j, w) && adj(w, i);
    ConnectedBounds(adj, j, j, w);
    var below := (x: nat) => 1 <= x <= j && Connected(adj, j, j, x);
    ConnectedSelf(adj, j, j);
    forall a, b | 1 <= a <= j && 1 <= b <= j && below(a) && adj(a, b)
      ensures below(b)
    {
      ConnectedEdge(adj, j, a, b);
      ConnectedTrans(adj, j, j, a, b);
    }
    ClosedUnderWalks(adj, j, j, w, below);
    var p :| WalkFrom(adj, p, j, j, w) && forall k :: 0 <= k < |p| ==> below(p[k]);
    forall k | 0 <= k < |p|
      ensures At(sigma, p[k]) <= At(sigma, j)
    {
      assert below(p[k]);
      ReachedIsBelow(adj, n, j, p[k]);
      TopologicalAnc(t, sigma, p[k], j);
    }
    MovedWalk(adj, n, sigma, perm, j, p);
    assert WalkFrom(Moved(adj, perm), MapSeq(p, sigma), At(sigma, j), At(sigma, j), At(sigma, w));
    MovedEdge(adj, n, sigma, perm, w, i);
    FillIsAncestor(adj, n, j, i);
    TopologicalAnc(t, sigma, j, i);
  }

  /** An edge from a vertex below j to a vertex placed no later than j stays below j. */
  lemma StaysBelow(adj: Adj, n: nat, sigma: seq<nat>, perm: seq<nat>, j: nat, a: nat, b: nat)
    requires Renumbering(adj, n, sigma, perm) && 1 <= j <= n && 1 <= a <= n && 1 <= b <= n
    requires Anc(Tree(adj, n), a, j) && adj(a, b) && At(sigma, b) <= At(sigma, j)
    ensures Anc(Tree(adj, n), b, j)
  {
    var t := Tree(adj, n);
    if b < a {
      EdgeIsAncestor(adj, n, b, a);
      AncTrans(t, b, a, j);
    } else if a < b {
      EdgeIsAncestor(adj, n, a, b);
      if b <= j {
        AncChain(t, a, b, j);
      } else {
        AncChain(t, a, j, b);
        TopologicalAnc(t, sigma, j, b);
      }
    }
  }

  /** An edge from a vertex below j to a vertex placed after j leads to an ancestor of j. */
  lemma LeavesAbove(adj: Adj, n: nat, sigma: seq<nat>, perm: seq<nat>, j: nat, a: nat, b: nat)
    requires Renumbering(adj, n, sigma, perm) && 1 <= j <= n && 1 <= a <= n && 1 <= b <= n
    requires Anc(Tree(adj, n), a, j) && adj(a, b) && At(sigma, b) > At(sigma, j)
    ensures j < b
  {
    var t := Tree(adj, n);
    if b <= j {
      if b < a {
        EdgeIsAncestor(adj, n, b, a);
        AncTrans(t, b, a, j);
      } else if a < b {
        EdgeIsAncestor(adj, n, a, b);
        AncChain(t, a, b, j);
      }
      TopologicalAnc(t, sigma, b, j);
    }
  }

  /** What j reaches in the renumbered graph through vertices placed no later than itself is below j. */
  lemma MovedReachedIsBelow(adj: Adj, n: nat, sigma: seq<nat>, perm: seq<nat>, j: nat, w': nat)
    requires Renumbering(adj, n, sigma, perm) && 1 <= j <= n
    requires Connected(Moved(adj, perm), At(sigma, j), At(sigma, j), w')
    ensures 1 <= w' <= At(sigma, j) && Anc(Tree(adj, n), At(perm, w'), j)
    ensures Connected(adj, j, j, At(perm, w'))
  {
    var adj', top, t := Moved(adj, perm), At(sigma, j), Tree(adj, n);
    ConnectedBounds(adj', top, top, w');
    var below := (x: nat) => 1 <= x <= n && Anc(t, At(perm, x), j);
    forall a, b | 1 <= a <= top && 1 <= b <= top && below(a) && adj'(a, b)
      ensures below(b)
    {
      StaysBelow(adj, n, sigma, perm, j, At(perm, a), At(perm, b));
    }
    ClosedUnderWalks(adj', top, top, w', below);
    var p :| WalkFrom(adj', p, top, top, w') && forall k :: 0 <= k < |p| ==> below(p[k]);
    BackWalk(adj, n, sigma, perm, j, p);
    assert WalkFrom(adj, MapSeq(p, perm), j, j, At(perm, w'));
  }

  lemma BackWalk(adj: Adj, n: nat, sigma: seq<nat>, perm: seq<nat>, j: nat, p: seq<nat>)
    requires Renumbering(adj, n, sigma, perm) && 1 <= j <= n && Walk(Moved(adj, perm), p, At(sigma, j))
    requires forall k :: 0 <= k < |p| ==> Anc(Tree(adj, n), At(perm, p[k]), j)
    ensures Walk(adj, MapSeq(p, perm), j)
  {
    var r := MapSeq(p, perm);
    forall k | 0 <= k < |r|
      ensures 1 <= r[k] <= j
    {
      assert r[k] == At(perm, p[k]);
      AncUp(Tree(adj, n), At(perm, p[k]), j);
    }
    forall k | 0 <= k < |r| - 1
      ensures adj(r[k], r[k + 1])
    {
      assert Moved(adj, perm)(p[k], p[k + 1]);
    }
  }

  lemma FillMovesBack(adj: Adj, n: nat, sigma: seq<nat>, perm: seq<nat>, j: nat, i: nat)
    requires Renumbering(adj, n, sigma, perm) && 1 <= j <= n && 1 <= i <= n
    requires Fill(Moved(adj, perm), At(sigma, j), At(sigma, i))
    ensures Fill(adj, j, i)
  {
    var w' :| Connected(Moved(adj, perm), At(sigma, j), At(sigma, j), w') && Moved(adj, perm)(w', At(sigma, i));
    MovedReachedIsBelow(adj, n, sigma, perm, j, w');
    LeavesAbove(adj, n, sigma, perm, j, At(perm, w'), i);
  }

  /** Renumbering along the tree keeps the fill, entry by entry. */
  lemma SameFill(adj: Adj, n: nat, sigma: seq<nat>, perm: seq<nat>, j: nat, i: nat)
    requires Renumbering(adj, n, sigma, perm) && 1 <= j <= n && 1 <= i <= n
    ensures Fill(adj, j, i) <==> Fill(Moved(adj, perm), At(sigma, j), At(sigma, i))
  {
    if Fill(adj, j, i) {
      FillMoves(adj, n, sigma, perm, j, i);
    }
    if Fill(Moved(adj, perm), At(sigma, j), At(sigma, i)) {
      FillMovesBack(adj, n, sigma, perm, j, i);
    }
  }

  // ---------------------------------------------------------------------------------------------
  // The renumbered tree
  // ---------------------------------------------------------------------------------------------

  /** t' is t with every vertex and every parent renumbered. */
  ghost predicate Relabelled(t: seq<nat>, sigma: seq<nat>, t': seq<nat>) {
    && |t| == |sigma| == |t'|
    && (forall v {:trigger At(sigma, v)} :: 1 <= v <= |t| ==> 1 <= At(sigma, v) <= |t|)
    && (forall v {:trigger At(t, v)} :: 1 <= v <= |t| ==>
         0 <= At(t, v) <= |t| && At(t', At(sigma, v)) == if At(t, v) == 0 then 0 else At(sigma, At(t, v)))
  }

  lemma RelabelledParent(adj: Adj, n: nat, sigma: seq<nat>, perm: seq<nat>, j: nat, p': nat)
    requires Renumbering(adj, n, sigma, perm) && 1 <= j <= n
    requires At(Tree(adj, n), j) <= n
    requires p' == if At(Tree(adj, n), j) == 0 then 0 else At(sigma, At(Tree(adj, n), j))
    ensures IsParent(Moved(adj, perm), n, At(sigma, j), p')
  {
    var t := Tree(adj, n);
    var p := At(t, j);
    TreeIsETree(adj, n);
    assert IsParent(adj, n, j, p);
    if p != 0 {
      SameFill(adj, n, sigma, perm, j, p);
    }
    forall i' | At(sigma, j) < i' <= n && (p == 0 || i' < p')
      ensures !Fill(Moved(adj, perm), At(sigma, j), i')
    {
      SameFill(adj, n, sigma, perm, j, At(perm, i'));
      if Fill(adj, j, At(perm, i')) {
        FillIsAncestor(adj, n, j, At(perm, i'));
        AncChain(t, j, p, At(perm, i'));
        TopologicalAnc(t, sigma, p, At(perm, i'));
      }
    }
  }

  /** The elimination tree of the renumbered graph is the renumbered elimination tree. */
  lemma RelabelledTree(adj: Adj, n: nat, sigma: seq<nat>, perm: seq<nat>, parent: seq<nat>, poparent: seq<nat>)
    requires Renumbering(adj, n, sigma, perm) && IsETree(adj, n, parent) && Relabelled(parent, sigma, poparent)
    ensures IsETree(Moved(adj, perm), n, poparent)
  {
    TreeIsETree(adj, n);
    ETreeUnique(adj, n, parent, Tree(adj, n));
    forall j' | 1 <= j' <= n
      ensures IsParent(Moved(adj, perm), n, j', At(poparent, j'))
    {
      var j := At(perm, j');
      assert At(poparent, At(sigma, j)) == if At(parent, j) == 0 then 0 else At(sigma, At(parent, j));
      RelabelledParent(adj, n, sigma, perm, j, At(poparent, j'));
    }
  }
}
