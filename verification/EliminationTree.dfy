/** The elimination tree of a symmetric graph on vertices 1..n, defined by paths, and its theory. */
module EliminationTree {

  type Adj = (nat, nat) -> bool

  /** 1-based access, as the arrays of the solver are used. */
  function At(s: seq<nat>, v: nat): nat
    requires 1 <= v <= |s|
  {
    s[v - 1]
  }

  ghost predicate Symmetric(adj: Adj) { forall u, v :: adj(u, v) ==> adj(v, u) }

  /** A walk in the graph whose vertices all lie in 1..bound. */
  ghost predicate Walk(adj: Adj, p: seq<nat>, bound: nat) {
    && |p| >= 1
    && (forall k :: 0 <= k < |p| ==> 1 <= p[k] <= bound)
    && (forall k :: 0 <= k < |p| - 1 ==> adj(p[k], p[k + 1]))
  }

  ghost predicate WalkFrom(adj: Adj, p: seq<nat>, bound: nat, u: nat, v: nat) {
    Walk(adj, p, bound) && p[0] == u && p[|p| - 1] == v
  }

  /** u and v are in the same component of the subgraph on 1..bound. */
  ghost predicate Connected(adj: Adj, bound: nat, u: nat, v: nat) {
    exists p :: WalkFrom(adj, p, bound, u, v)
  }

  /** i > j is reachable from j through vertices <= j: entry (i,j) of the factor is not zero. */
  ghost predicate Fill(adj: Adj, j: nat, i: nat) {
    1 <= j < i && exists w :: Connected(adj, j, j, w) && adj(w, i)
  }

  /** The elimination tree: the parent of j is the least i > j reachable through vertices <= j. */
  ghost predicate IsParent(adj: Adj, n: nat, j: nat, p: nat) {
    if p == 0 then forall i :: j < i <= n ==> !Fill(adj, j, i)
    else j < p <= n && Fill(adj, j, p) && forall i :: j < i < p ==> !Fill(adj, j, i)
  }

  ghost predicate IsETree(adj: Adj, n: nat, parent: seq<nat>) {
    |parent| == n && forall j :: 1 <= j <= n ==> IsParent(adj, n, j, At(parent, j))
  }

  lemma ETreeUnique(adj: Adj, n: nat, a: seq<nat>, b: seq<nat>)
    requires IsETree(adj, n, a) && IsETree(adj, n, b)
    ensures a == b
  {
    forall k | 0 <= k < n
      ensures a[k] == b[k]
    {
      assert IsParent(adj, n, k + 1, At(a, k + 1)) && IsParent(adj, n, k + 1, At(b, k + 1));
    }
  }

  // ---------------------------------------------------------------------------------------------
  // Walks
  // ---------------------------------------------------------------------------------------------

  function Reverse(p: seq<nat>): (r: seq<nat>)
    ensures |r| == |p| && forall k :: 0 <= k < |p| ==> r[k] == p[|p| - 1 - k]
  {
    if p == [] then [] else Reverse(p[1..]) + [p[0]]
  }

  lemma ConnectedSelf(adj: Adj, bound: nat, u: nat)
    requires 1 <= u <= bound
    ensures Connected(adj, bound, u, u)
  {
    assert WalkFrom(adj, [u], bound, u, u);
  }

  lemma ConnectedSym(adj: Adj, bound: nat, u: nat, v: nat)
    requires Symmetric(adj) && Connected(adj, bound, u, v)
    ensures Connected(adj, bound, v, u)
  {
    var p :| WalkFrom(adj, p, bound, u, v);
    var r := Reverse(p);
    forall k | 0 <= k < |r| - 1
      ensures adj(r[k], r[k + 1])
    {
      assert adj(p[|p| - 2 - k], p[|p| - 2 - k + 1]);
    }
    assert WalkFrom(adj, r, bound, v, u);
  }

  lemma ConnectedTrans(adj: Adj, bound: nat, u: nat, v: nat, w: nat)
    requires Connected(adj, bound, u, v) && Connected(adj, bound, v, w)
    ensures Connected(adj, bound, u, w)
  {
    var p :| WalkFrom(adj, p, bound, u, v);
    var q :| WalkFrom(adj, q, bound, v, w);
    var r := p + q[1..];
    forall k | 0 <= k < |r| - 1
      ensures adj(r[k], r[k + 1])
    {
      if k >= |p| - 1 {
        assert r[k] == q[k - (|p| - 1)] && r[k + 1] == q[k - (|p| - 1) + 1];
      }
    }
    assert WalkFrom(adj, r, bound, u, w);
  }

  lemma ConnectedEdge(adj: Adj, bound: nat, u: nat, v: nat)
    requires 1 <= u <= bound && 1 <= v <= bound && adj(u, v)
    ensures Connected(adj, bound, u, v)
  {
    assert WalkFrom(adj, [u, v], bound, u, v);
  }

  lemma ConnectedMore(adj: Adj, bound: nat, more: nat, u: nat, v: nat)
    requires Connected(adj, bound, u, v) && bound <= more
    ensures Connected(adj, more, u, v)
  {
    var p :| WalkFrom(adj, p, bound, u, v);
    assert WalkFrom(adj, p, more, u, v);
  }

  lemma ConnectedBounds(adj: Adj, bound: nat, u: nat, v: nat)
    requires Connected(adj, bound, u, v)
    ensures 1 <= u <= bound && 1 <= v <= bound
  {
  }

  /** A set of vertices that no edge leaves contains every vertex connected to one of its members. */
  lemma ClosedUnderWalks(adj: Adj, bound: nat, u: nat, v: nat, inside: nat -> bool)
    requires Connected(adj, bound, u, v) && inside(u)
    requires forall a, b :: 1 <= a <= bound && 1 <= b <= bound && inside(a) && adj(a, b) ==> inside(b)
    ensures inside(v)
    ensures exists p :: WalkFrom(adj, p, bound, u, v) && forall k :: 0 <= k < |p| ==> inside(p[k])
  {
    var p :| WalkFrom(adj, p, bound, u, v);
    WalkInside(adj, p, bound, inside);
  }

  lemma {:induction false} WalkInside(adj: Adj, p: seq<nat>, bound: nat, inside: nat -> bool)
    requires Walk(adj, p, bound) && inside(p[0])
    requires forall a, b :: 1 <= a <= bound && 1 <= b <= bound && inside(a) && adj(a, b) ==> inside(b)
    ensures forall k :: 0 <= k < |p| ==> inside(p[k])
  {
    if |p| > 1 {
      assert adj(p[0], p[1]);
      assert Walk(adj, p[1..], bound) by {
        forall k | 0 <= k < |p[1..]| - 1
          ensures adj(p[1..][k], p[1..][k + 1])
        {
          assert adj(p[k + 1], p[k + 1 + 1]);
        }
      }
      WalkInside(adj, p[1..], bound, inside);
      forall k | 0 <= k < |p|
        ensures inside(p[k])
      {
        if k > 0 {
          assert p[k] == p[1..][k - 1];
        }
      }
    }
  }

  // ---------------------------------------------------------------------------------------------
  // Component labels: the bridge between walks and the forest the algorithm keeps
  // ---------------------------------------------------------------------------------------------

  /** root[v-1] is the largest vertex of the component of v in the subgraph on 1..i. */
  ghost predicate Labels(adj: Adj, i: nat, root: seq<nat>) {
    && |root| == i
    && (forall v :: 1 <= v <= i ==> v <= At(root, v) <= i && Connected(adj, i, v, At(root, v)))
    && (forall u, v :: 1 <= u <= i && 1 <= v <= i && adj(u, v) ==> At(root, u) == At(root, v))
  }

  /** The labels are exactly the components. */
  lemma LabelsAreComponents(adj: Adj, i: nat, root: seq<nat>, u: nat, v: nat)
    requires Symmetric(adj) && Labels(adj, i, root) && 1 <= u <= i && 1 <= v <= i
    ensures Connected(adj, i, u, v) <==> At(root, u) == At(root, v)
    ensures At(root, At(root, v)) == At(root, v)
  {
    if At(root, u) == At(root, v) {
      ConnectedSym(adj, i, v, At(root, v));
      ConnectedTrans(adj, i, u, At(root, u), v);
    }
    if Connected(adj, i, u, v) {
      LabelsConstant(adj, i, root, u, v);
    }
    LabelsConstant(adj, i, root, v, At(root, v));
  }

  lemma LabelsConstant(adj: Adj, i: nat, root: seq<nat>, u: nat, v: nat)
    requires Labels(adj, i, root) && Connected(adj, i, u, v)
    ensures 1 <= u <= i && 1 <= v <= i && At(root, u) == At(root, v)
    ensures exists p :: WalkFrom(adj, p, i, u, v) && forall k :: 0 <= k < |p| ==> 1 <= p[k] <= i && At(root, p[k]) == At(root, u)
  {
    ConnectedBounds(adj, i, u, v);
    var inside := (x: nat) => 1 <= x <= i && At(root, x) == At(root, u);
    ClosedUnderWalks(adj, i, u, v, inside);
    var p :| WalkFrom(adj, p, i, u, v) && forall k :: 0 <= k < |p| ==> inside(p[k]);
    assert WalkFrom(adj, p, i, u, v) && forall k :: 0 <= k < |p| ==> 1 <= p[k] <= i && At(root, p[k]) == At(root, u);
  }

  /** Everything in the component of a root r is connected to r through vertices <= r. */
  lemma RootComponent(adj: Adj, i: nat, root: seq<nat>, r: nat, w: nat)
    requires Symmetric(adj) && Labels(adj, i, root) && 1 <= r <= i && 1 <= w <= i
    requires At(root, r) == r && At(root, w) == r
    ensures Connected(adj, r, r, w)
  {
    LabelsAreComponents(adj, i, root, r, w);
    LabelsConstant(adj, i, root, r, w);
    var p :| WalkFrom(adj, p, i, r, w) && forall k :: 0 <= k < |p| ==> 1 <= p[k] <= i && At(root, p[k]) == At(root, r);
    assert WalkFrom(adj, p, r, r, w);
  }

  /** Every vertex of 1..i that r reaches through vertices <= r is in the component of r. */
  lemma FillInComponent(adj: Adj, i: nat, root: seq<nat>, r: nat, k: nat)
    requires Labels(adj, i, root) && r < k <= i && Fill(adj, r, k)
    ensures At(root, k) == At(root, r)
  {
    var w :| Connected(adj, r, r, w) && adj(w, k);
    ConnectedBounds(adj, r, r, w);
    ConnectedMore(adj, r, i, r, w);
    LabelsConstant(adj, i, root, r, w);
    assert At(root, k) == At(root, w);
  }

  /** A root r of the subgraph on 1..i reaches no vertex in r+1..i. */
  lemma RootReachesNothing(adj: Adj, i: nat, root: seq<nat>, r: nat, k: nat)
    requires Labels(adj, i, root) && 1 <= r <= i && At(root, r) == r && r < k <= i
    ensures !Fill(adj, r, k)
  {
    if Fill(adj, r, k) {
      FillInComponent(adj, i, root, r, k);
    }
  }

  /** A root r that a neighbour of i+1 leads to gets i+1 as its parent. */
  lemma RootGetsParent(adj: Adj, n: nat, i: nat, root: seq<nat>, r: nat, w: nat)
    requires Symmetric(adj) && Labels(adj, i, root) && i < n && 1 <= r <= i && 1 <= w <= i
    requires At(root, r) == r && At(root, w) == r && adj(w, i + 1)
    ensures IsParent(adj, n, r, i + 1)
  {
    RootComponent(adj, i, root, r, w);
    forall k | r < k < i + 1
      ensures !Fill(adj, r, k)
    {
      RootReachesNothing(adj, i, root, r, k);
    }
  }

  // ---------------------------------------------------------------------------------------------
  // The labels and the tree as functions of the graph
  // ---------------------------------------------------------------------------------------------

  /** Every tree with its root in `joined` is hung below the new vertex. */
  ghost function Joined(root0: seq<nat>, joined: set<nat>): (root: seq<nat>)
    ensures |root| == |root0| + 1 && At(root, |root|) == |root|
    ensures forall v :: 1 <= v < |root| ==> At(root, v) == if At(root0, v) in joined then |root| else At(root0, v)
  {
    seq(|root0|, k requires 0 <= k < |root0| => if root0[k] in joined then |root0| + 1 else root0[k]) + [|root0| + 1]
  }

  ghost function RootsOf(root0: seq<nat>, vs: set<nat>): set<nat> {
    set v | v in vs && 1 <= v <= |root0| :: At(root0, v)
  }

  ghost function Below(adj: Adj, i: nat): set<nat> { set v: nat | v < i && 1 <= v && adj(v, i) }

  ghost function LabelSeq(adj: Adj, i: nat): (root: seq<nat>)
    ensures |root| == i
  {
    if i == 0 then [] else Joined(LabelSeq(adj, i - 1), RootsOf(LabelSeq(adj, i - 1), Below(adj, i)))
  }

  ghost function LeastFill(adj: Adj, n: nat, j: nat, i: nat): nat
    decreases n + 1 - i
  {
    if i > n then 0 else if Fill(adj, j, i) then i else LeastFill(adj, n, j, i + 1)
  }

  ghost function TreeUpTo(adj: Adj, n: nat, m: nat): (t: seq<nat>)
    ensures |t| == m
  {
    if m == 0 then [] else TreeUpTo(adj, n, m - 1) + [LeastFill(adj, n, m, m + 1)]
  }

  ghost function Tree(adj: Adj, n: nat): (t: seq<nat>)
    ensures |t| == n
  {
    TreeUpTo(adj, n, n)
  }

  lemma {:induction false} TreeEntry(adj: Adj, n: nat, m: nat, j: nat)
    requires 1 <= j <= m
    ensures At(TreeUpTo(adj, n, m), j) == LeastFill(adj, n, j, j + 1)
  {
    if j < m {
      TreeEntry(adj, n, m - 1, j);
    }
  }

  lemma {:induction false} LeastFillIs(adj: Adj, n: nat, j: nat, i: nat)
    requires 1 <= j < i && forall k :: j < k < i ==> !Fill(adj, j, k)
    ensures IsParent(adj, n, j, LeastFill(adj, n, j, i))
    decreases n + 1 - i
  {
    if i <= n && !Fill(adj, j, i) {
      LeastFillIs(adj, n, j, i + 1);
    }
  }

  lemma TreeIsETree(adj: Adj, n: nat)
    ensures IsETree(adj, n, Tree(adj, n))
  {
    forall j | 1 <= j <= n
      ensures IsParent(adj, n, j, At(Tree(adj, n), j))
    {
      TreeEntry(adj, n, n, j);
      LeastFillIs(adj, n, j, j + 1);
    }
  }

  lemma JoinedConnected(adj: Adj, i: nat, root0: seq<nat>, v: nat, w: nat)
    requires Symmetric(adj) && i >= 1 && Labels(adj, i - 1, root0)
    requires 1 <= v < i && 1 <= w < i && At(root0, w) == At(root0, v) && adj(w, i)
    ensures Connected(adj, i, v, i)
  {
    LabelsAreComponents(adj, i - 1, root0, v, w);
    ConnectedMore(adj, i - 1, i, v, w);
    ConnectedEdge(adj, i, w, i);
    ConnectedTrans(adj, i, v, w, i);
  }

  lemma JoinedIsLabels(adj: Adj, i: nat, root0: seq<nat>)
    requires Symmetric(adj) && i >= 1 && Labels(adj, i - 1, root0)
    ensures Labels(adj, i, Joined(root0, RootsOf(root0, Below(adj, i))))
  {
    var joined := RootsOf(root0, Below(adj, i));
    var root := Joined(root0, joined);
    ConnectedSelf(adj, i, i);
    forall v | 1 <= v <= i
      ensures v <= At(root, v) <= i && Connected(adj, i, v, At(root, v))
    {
      if v < i && At(root0, v) in joined {
        var w :| w in Below(adj, i) && 1 <= w <= |root0| && At(root0, w) == At(root0, v);
        JoinedConnected(adj, i, root0, v, w);
      } else if v < i {
        ConnectedMore(adj, i - 1, i, v, At(root0, v));
      }
    }
    forall u, v | 1 <= u <= i && 1 <= v <= i && adj(u, v)
      ensures At(root, u) == At(root, v)
    {
      if u < i && v < i {
        assert At(root0, u) == At(root0, v);
      } else if u < i {
        assert u in Below(adj, i);
      } else if v < i {
        assert adj(v, u) && v in Below(adj, i);
      }
    }
  }

  /** LabelSeq(adj, i) gives every vertex the largest vertex of its component of the subgraph on 1..i. */
  lemma {:induction false} LabelSeqIsLabels(adj: Adj, i: nat)
    requires Symmetric(adj)
    ensures Labels(adj, i, LabelSeq(adj, i))
  {
    if i > 0 {
      LabelSeqIsLabels(adj, i - 1);
      JoinedIsLabels(adj, i, LabelSeq(adj, i - 1));
    }
  }

  lemma ComponentsOfLabels(adj: Adj, i: nat, u: nat, v: nat)
    requires Symmetric(adj) && 1 <= u <= i && 1 <= v <= i
    ensures Connected(adj, i, u, v) <==> At(LabelSeq(adj, i), u) == At(LabelSeq(adj, i), v)
    ensures u <= At(LabelSeq(adj, i), u) <= i && At(LabelSeq(adj, i), At(LabelSeq(adj, i), u)) == At(LabelSeq(adj, i), u)
  {
    LabelSeqIsLabels(adj, i);
    LabelsAreComponents(adj, i, LabelSeq(adj, i), u, v);
    LabelsAreComponents(adj, i, LabelSeq(adj, i), v, u);
  }

  /** The root of the tree of a neighbour of i has i as its parent. */
  lemma NeighbourRoot(adj: Adj, n: nat, i: nat, w: nat)
    requires Symmetric(adj) && 1 <= w < i <= n && adj(w, i)
    ensures var r := At(LabelSeq(adj, i - 1), w);
            1 <= r < i && At(LabelSeq(adj, i - 1), r) == r && At(Tree(adj, n), r) == i
  {
    var root0 := LabelSeq(adj, i - 1);
    var r := At(root0, w);
    LabelSeqIsLabels(adj, i - 1);
    LabelsAreComponents(adj, i - 1, root0, w, w);
    RootGetsParent(adj, n, i - 1, root0, r, w);
    TreeIsETree(adj, n);
    assert IsParent(adj, n, r, At(Tree(adj, n), r));
  }

  /** The roots that are left at the end have no parent. */
  lemma LastRoot(adj: Adj, n: nat, v: nat)
    requires Symmetric(adj) && 1 <= v <= n && At(LabelSeq(adj, n), v) == v
    ensures At(Tree(adj, n), v) == 0
  {
    LabelSeqIsLabels(adj, n);
    TreeIsETree(adj, n);
    var p := At(Tree(adj, n), v);
    assert IsParent(adj, n, v, p);
    if p != 0 {
      RootReachesNothing(adj, n, LabelSeq(adj, n), v, p);
    }
  }

  // ---------------------------------------------------------------------------------------------
  // Graphs that agree on 1..n
  // ---------------------------------------------------------------------------------------------

  ghost predicate Agree(a: Adj, b: Adj, n: nat) {
    forall u, v :: 1 <= u <= n && 1 <= v <= n ==> a(u, v) == b(u, v)
  }

  lemma AgreeFill(a: Adj, b: Adj, n: nat, j: nat, i: nat)
    requires Agree(a, b, n) && i <= n && Fill(a, j, i)
    ensures Fill(b, j, i)
  {
    var w :| Connected(a, j, j, w) && a(w, i);
    var p :| WalkFrom(a, p, j, j, w);
    assert WalkFrom(b, p, j, j, w);
  }

  lemma AgreeTree(a: Adj, b: Adj, n: nat, parent: seq<nat>)
    requires Agree(a, b, n) && IsETree(a, n, parent)
    ensures IsETree(b, n, parent)
  {
    forall j | 1 <= j <= n
      ensures IsParent(b, n, j, At(parent, j))
    {
      assert IsParent(a, n, j, At(parent, j));
      forall i | j < i <= n
        ensures Fill(a, j, i) <==> Fill(b, j, i)
      {
        if Fill(a, j, i) { AgreeFill(a, b, n, j, i); }
        if Fill(b, j, i) { AgreeFill(b, a, n, j, i); }
      }
    }
  }
}
