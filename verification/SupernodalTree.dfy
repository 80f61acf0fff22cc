/** The elimination tree of the supernodes, taken from the postordered tree of the columns. */
module SupernodalTree {
  import opened Subcubes

  /** xsuper cuts the columns 1..n into supernodes: supernode s has the columns from xsuper[s - 1] up to, not
      including, xsuper[s]. */
  ghost predicate Partition(xsuper: seq<nat>, n: nat) {
    && |xsuper| >= 1 && xsuper[0] == 1 && xsuper[|xsuper| - 1] == n + 1
    && forall s, t :: 0 <= s < t < |xsuper| ==> xsuper[s] < xsuper[t]
  }

  ghost predicate InSupernode(xsuper: seq<nat>, s: nat, c: nat) {
    1 <= s < |xsuper| && xsuper[s - 1] <= c < xsuper[s]
  }

  /** member[c - 1] is the supernode of column c. */
  ghost predicate Membership(xsuper: seq<nat>, member: seq<nat>) {
    forall c {:trigger member[c]} :: 0 <= c < |member| ==> InSupernode(xsuper, member[c], c + 1)
  }

  lemma OneSupernode(xsuper: seq<nat>, n: nat, s: nat, t: nat, c: nat)
    requires Partition(xsuper, n) && InSupernode(xsuper, s, c) && InSupernode(xsuper, t, c)
    ensures s == t
  {
  }

  lemma LaterSupernode(xsuper: seq<nat>, n: nat, s: nat, t: nat, c: nat)
    requires Partition(xsuper, n) && 1 <= s < |xsuper| && InSupernode(xsuper, t, c) && xsuper[s] <= c
    ensures s < t
  {
  }

  /** Within a supernode the parent of a column is the next column. */
  ghost predicate Chained(xsuper: seq<nat>, poparent: seq<nat>) {
    forall s: nat, c: nat {:trigger InSupernode(xsuper, s, c)} :: InSupernode(xsuper, s, c) && c + 1 < xsuper[s] && c <= |poparent| && c >= 1 ==>
      poparent[c - 1] == c + 1
  }

  /** The parent of supernode s is the supernode of the parent of its last column. */
  ghost predicate Follows(xsuper: seq<nat>, member: seq<nat>, poparent: seq<nat>, s: nat, parentSnode: nat) {
    && 1 <= s < |xsuper| && |member| == |poparent| && 2 <= xsuper[s] <= |poparent| + 1
    && var p := poparent[xsuper[s] - 2];
    && p <= |poparent| && parentSnode == if p == 0 then 0 else member[p - 1]
  }

  ghost predicate IsSupernodal(xsuper: seq<nat>, member: seq<nat>, poparent: seq<nat>, parent: seq<nat>) {
    && |parent| + 1 == |xsuper| && |member| == |poparent|
    && forall s {:trigger parent[s]} :: 0 <= s < |parent| ==> Follows(xsuper, member, poparent, s + 1, parent[s])
  }

  lemma LastColumn(xsuper: seq<nat>, n: nat, s: nat)
    requires Partition(xsuper, n) && 1 <= s < |xsuper|
    ensures 2 <= xsuper[s] <= n + 1 && InSupernode(xsuper, s, xsuper[s] - 1)
  {
    assert xsuper[0] < xsuper[s];
    if s < |xsuper| - 1 {
      assert xsuper[s] < xsuper[|xsuper| - 1];
    }
    assert xsuper[s - 1] < xsuper[s];
  }

  /** The parent of a supernode is the supernode of the parent of its last column.  The result is postordered
      again: every supernode comes before its parent. */
  method ToSupernodalETree(poparent: seq<nat>, xsuper: seq<nat>, member: seq<nat>) returns (parent: seq<nat>)
    requires Forest(poparent) && Partition(xsuper, |poparent|) && Membership(xsuper, member) && |member| == |poparent|
    ensures IsSupernodal(xsuper, member, poparent, parent) && Forest(parent)
  {
    parent := [];
    for snode := 1 to |xsuper|
      invariant |parent| == snode - 1
      invariant forall s {:trigger parent[s]} :: 0 <= s < |parent| ==> Follows(xsuper, member, poparent, s + 1, parent[s])
      invariant forall s {:trigger parent[s]} :: 0 <= s < |parent| ==> parent[s] == 0 || s + 1 < parent[s] < |xsuper|
    {
      LastColumn(xsuper, |poparent|, snode);
      var lc := xsuper[snode] - 1;
      var parentCol := poparent[lc - 1];
      var parentSnode := if parentCol == 0 then 0 else member[parentCol - 1];
      if parentCol != 0 {
        assert InSupernode(xsuper, member[parentCol - 1], parentCol);
        LaterSupernode(xsuper, |poparent|, snode, member[parentCol - 1], parentCol);
      }
      parent := parent + [parentSnode];
    }
  }

  /** Columns c <= d of one supernode lie on one path. */
  lemma {:induction false} ChainAbove(xsuper: seq<nat>, poparent: seq<nat>, s: nat, c: nat, d: nat)
    requires Forest(poparent) && Chained(xsuper, poparent) && InSupernode(xsuper, s, c) && InSupernode(xsuper, s, d)
    requires 1 <= c <= d <= |poparent|
    ensures Above(poparent, c, d)
    decreases d - c
  {
    if c < d {
      assert poparent[c - 1] == c + 1;
      assert InSupernode(xsuper, s, c + 1);
      ChainAbove(xsuper, poparent, s, c + 1, d);
    }
  }

  lemma {:induction false} AboveTransitive(parent: seq<nat>, u: nat, v: nat, w: nat)
    requires Forest(parent) && u <= |parent| && v <= |parent| && Above(parent, u, v) && Above(parent, v, w)
    ensures Above(parent, u, w)
    decreases |parent| + 1 - Level(parent, u)
  {
    if u != v {
      AboveTransitive(parent, parent[u - 1], v, w);
    }
  }

  /** Above in the supernodal tree means above for the last columns. */
  lemma {:induction false} SupernodesAbove(xsuper: seq<nat>, member: seq<nat>, poparent: seq<nat>, parent: seq<nat>, s: nat, t: nat)
    requires Forest(poparent) && Partition(xsuper, |poparent|) && Membership(xsuper, member) && Chained(xsuper, poparent)
    requires IsSupernodal(xsuper, member, poparent, parent) && Forest(parent)
    requires 1 <= s <= |parent| && 1 <= t <= |parent| && Above(parent, s, t)
    ensures 2 <= xsuper[s] <= |poparent| + 1 && Above(poparent, xsuper[s] - 1, xsuper[t] - 1)
    decreases |parent| + 1 - Level(parent, s)
  {
    LastColumn(xsuper, |poparent|, s);
    LastColumn(xsuper, |poparent|, t);
    if s != t {
      var p := parent[s - 1];
      NotZero(parent, p, t);
      var c := poparent[xsuper[s] - 2];
      assert InSupernode(xsuper, member[c - 1], c);
      SupernodesAbove(xsuper, member, poparent, parent, p, t);
      LastColumn(xsuper, |poparent|, p);
      ChainAbove(xsuper, poparent, p, c, xsuper[p] - 1);
      AboveTransitive(poparent, c, xsuper[p] - 1, xsuper[t] - 1);
    }
  }

  lemma NotZero(parent: seq<nat>, p: nat, t: nat)
    requires Forest(parent) && p <= |parent| && Above(parent, p, t) && t > 0
    ensures p > 0
  {
  }

  /** Above for two columns means above, or equal, for their supernodes. */
  lemma {:induction false} ColumnsAbove(xsuper: seq<nat>, member: seq<nat>, poparent: seq<nat>, parent: seq<nat>, c: nat, d: nat)
    requires Forest(poparent) && Partition(xsuper, |poparent|) && Membership(xsuper, member) && Chained(xsuper, poparent)
    requires IsSupernodal(xsuper, member, poparent, parent) && Forest(parent)
    requires 1 <= c <= |poparent| && 1 <= d <= |poparent| && Above(poparent, c, d)
    ensures member[c - 1] <= |parent| && Above(parent, member[c - 1], member[d - 1])
    decreases |poparent| + 1 - c
  {
    var s := member[c - 1];
    assert InSupernode(xsuper, s, c);
    if c != d {
      var p := poparent[c - 1];
      NotZero(poparent, p, d);
      ColumnsAbove(xsuper, member, poparent, parent, p, d);
      assert InSupernode(xsuper, member[p - 1], p);
      if c + 1 < xsuper[s] {
        assert p == c + 1;
        assert InSupernode(xsuper, s, p);
        OneSupernode(xsuper, |poparent|, s, member[p - 1], p);
      } else {
        assert xsuper[s] - 2 == c - 1;
        assert parent[s - 1] == member[p - 1];
      }
    }
  }

  /** Supernode t lies above supernode s exactly if the last column of t lies above the last column of s. */
  lemma SupernodalQuotient(xsuper: seq<nat>, member: seq<nat>, poparent: seq<nat>, parent: seq<nat>, s: nat, t: nat)
    requires Forest(poparent) && Partition(xsuper, |poparent|) && Membership(xsuper, member) && Chained(xsuper, poparent)
    requires IsSupernodal(xsuper, member, poparent, parent) && Forest(parent)
    requires 1 <= s <= |parent| && 1 <= t <= |parent|
    ensures 2 <= xsuper[s] <= |poparent| + 1 && 2 <= xsuper[t] <= |poparent| + 1
    ensures Above(parent, s, t) <==> Above(poparent, xsuper[s] - 1, xsuper[t] - 1)
  {
    LastColumn(xsuper, |poparent|, s);
    LastColumn(xsuper, |poparent|, t);
    if Above(parent, s, t) {
      SupernodesAbove(xsuper, member, poparent, parent, s, t);
    }
    if Above(poparent, xsuper[s] - 1, xsuper[t] - 1) {
      ColumnsAbove(xsuper, member, poparent, parent, xsuper[s] - 1, xsuper[t] - 1);
      assert InSupernode(xsuper, member[xsuper[s] - 2], xsuper[s] - 1);
      assert InSupernode(xsuper, member[xsuper[t] - 2], xsuper[t] - 1);
      OneSupernode(xsuper, |poparent|, s, member[xsuper[s] - 2], xsuper[s] - 1);
      OneSupernode(xsuper, |poparent|, t, member[xsuper[t] - 2], xsuper[t] - 1);
    }
  }
}
