/** Fill-reducing orderings: a permutation of the vertices with its inverse, composed with a second one. */
module Ordering {
  import opened EliminationTree

  /** p and q are inverse permutations of 1..n. */
  ghost predicate Inverse(p: seq<nat>, q: seq<nat>) {
    && |p| == |q|
    && (forall v {:trigger At(p, v)} :: 1 <= v <= |p| ==> 1 <= At(p, v) <= |p| && At(q, At(p, v)) == v)
    && (forall v {:trigger At(q, v)} :: 1 <= v <= |p| ==> 1 <= At(q, v) <= |p| && At(p, At(q, v)) == v)
  }

  /** First p, then q. */
  function Then(p: seq<nat>, q: seq<nat>): (r: seq<nat>)
    requires forall k :: 0 <= k < |p| ==> 1 <= p[k] <= |q|
    ensures |r| == |p| && forall k :: 0 <= k < |p| ==> r[k] == q[p[k] - 1]
  {
    seq<nat>(|p|, k requires 0 <= k < |p| => q[p[k] - 1])
  }

  lemma InRange(p: seq<nat>, q: seq<nat>)
    requires Inverse(p, q)
    ensures (forall k :: 0 <= k < |p| ==> 1 <= p[k] <= |p|) && (forall k :: 0 <= k < |p| ==> 1 <= q[k] <= |p|)
  {
    forall k | 0 <= k < |p|
      ensures 1 <= p[k] <= |p| && 1 <= q[k] <= |p|
    {
      assert At(p, k + 1) == p[k] && At(q, k + 1) == q[k];
    }
  }

  lemma ThenBack(p: seq<nat>, p': seq<nat>, q: seq<nat>, q': seq<nat>, v: nat)
    requires |p| == |p'| == |q| == |q'| && 1 <= v <= |p|
    requires forall k :: 0 <= k < |p| ==> 1 <= p[k] <= |q| && 1 <= q'[k] <= |q|
    requires 1 <= At(p, v) <= |p| && At(p', At(p, v)) == v
    requires 1 <= At(q, At(p, v)) <= |p| && At(q', At(q, At(p, v))) == At(p, v)
    ensures At(Then(p, q), v) == At(q, At(p, v)) && At(Then(q', p'), At(Then(p, q), v)) == v
  {
  }

  /** Inverses compose in the opposite order. */
  lemma ThenInverse(p: seq<nat>, p': seq<nat>, q: seq<nat>, q': seq<nat>)
    requires Inverse(p, p') && Inverse(q, q') && |p| == |q|
    requires forall k :: 0 <= k < |p| ==> 1 <= p[k] <= |q| && 1 <= q'[k] <= |q|
    ensures Inverse(Then(p, q), Then(q', p'))
  {
    var r, r' := Then(p, q), Then(q', p');
    forall v | 1 <= v <= |p|
      ensures 1 <= At(r, v) <= |p| && At(r', At(r, v)) == v
    {
      ThenBack(p, p', q, q', v);
    }
    forall v | 1 <= v <= |p|
      ensures 1 <= At(r', v) <= |p| && At(r, At(r', v)) == v
    {
      ThenBack(q', q, p', p, v);
    }
  }

  /** An inverse is determined by one of its two equations. */
  lemma InverseUnique(p: seq<nat>, q: seq<nat>, r: seq<nat>)
    requires Inverse(p, q) && |r| == |p|
    requires forall v {:trigger At(p, v)} :: 1 <= v <= |p| ==> At(r, At(p, v)) == v
    ensures r == q
  {
    forall k | 0 <= k < |p|
      ensures r[k] == q[k]
    {
      var v := At(q, k + 1);
      assert At(r, At(p, v)) == v && At(p, v) == k + 1;
    }
  }

  class Order {
    var perm: array<nat>
    var invp: array<nat>

    ghost predicate Valid()
      reads this, perm, invp
    {
      perm != invp && Inverse(invp[..], perm[..])
    }

    /** Every vertex moves on from its place invp[v] to invp2[invp[v]], and perm is its inverse again. */
    method Compose(invp2: array<nat>, ghost perm2: seq<nat>)
      requires Valid() && invp2 != perm && invp2 != invp && Inverse(invp2[..], perm2) && invp2.Length == invp.Length
      modifies perm, invp
      ensures Valid() && perm == old(perm) && invp == old(invp)
      ensures (forall k :: 0 <= k < invp.Length ==> 1 <= old(invp[k]) <= invp2.Length)
      ensures invp[..] == Then(old(invp[..]), invp2[..])
    {
      ghost var p0, q0, p2 := invp[..], perm[..], invp2[..];
      var n := invp.Length;
      InRange(p0, q0);
      InRange(p2, perm2);
      for i := 1 to n + 1
        invariant invp2[..] == p2
        invariant forall k :: 0 <= k < n ==> invp[k] == if k < i - 1 then p2[p0[k] - 1] else p0[k]
      {
        var interm := invp[i - 1];
        invp[i - 1] := invp2[interm - 1];
      }
      assert invp[..] == Then(p0, p2);
      ThenInverse(p0, q0, p2, perm2);
      Invert(Then(perm2, q0));
    }

    /** perm is filled from invp. */
    method Invert(ghost inverse: seq<nat>)
      requires perm != invp && perm.Length == invp.Length && Inverse(invp[..], inverse)
      modifies perm
      ensures perm[..] == inverse && Valid()
    {
      ghost var p := invp[..];
      var n := invp.Length;
      for i := 1 to n + 1
        invariant invp[..] == p
        invariant forall v {:trigger At(p, v)} :: 1 <= v < i ==> perm[At(p, v) - 1] == v
      {
        var node := invp[i - 1];
        assert node == At(p, i);
        NotYet(p, inverse, i);
        perm[node - 1] := i;
      }
      Filled(p, inverse, perm[..]);
    }

    /** The permutation that takes every vertex from its place under an earlier ordering to its place now. */
    method GetRelativeInvp(frominvp: array<nat>, ghost fromperm: seq<nat>) returns (relinvp: array<nat>)
      requires Valid() && frominvp.Length == invp.Length && Inverse(frominvp[..], fromperm)
      ensures fresh(relinvp) && relinvp.Length == invp.Length
      ensures forall k :: 0 <= k < |fromperm| ==> 1 <= fromperm[k] <= invp.Length
      ensures relinvp[..] == Then(fromperm, invp[..])
    {
      relinvp := new nat[invp.Length];
      RelativePath(perm[..], invp[..], frominvp[..], fromperm);
      FollowAndInvert(perm, frominvp, relinvp, Then(perm[..], frominvp[..]), Then(fromperm, invp[..]));
    }
  }

  lemma RelativePath(perm: seq<nat>, invp: seq<nat>, frominvp: seq<nat>, fromperm: seq<nat>)
    requires Inverse(invp, perm) && Inverse(frominvp, fromperm) && |perm| == |fromperm|
    ensures forall k :: 0 <= k < |perm| ==> 1 <= fromperm[k] <= |perm| && 1 <= perm[k] <= |perm|
    ensures Inverse(Then(perm, frominvp), Then(fromperm, invp))
  {
    InRange(frominvp, fromperm);
    InRange(invp, perm);
    ThenInverse(perm, invp, frominvp, fromperm);
  }

  /** relinvp becomes the inverse of the path p[v] = second[first[v]]. */
  method FollowAndInvert(first: array<nat>, second: array<nat>, relinvp: array<nat>, ghost path: seq<nat>, ghost rel: seq<nat>)
    requires first != relinvp && second != relinvp && first.Length == second.Length == relinvp.Length == |path|
    requires forall k :: 0 <= k < first.Length ==> 1 <= first[k] <= second.Length
    requires path == Then(first[..], second[..]) && Inverse(path, rel)
    modifies relinvp
    ensures relinvp[..] == rel
  {
    for node := 1 to first.Length + 1
      invariant forall m {:trigger At(path, m)} :: 1 <= m < node ==> relinvp[At(path, m) - 1] == m
    {
      var i := first[node - 1];
      var interm := second[i - 1];
      assert interm == At(path, node);
      NotYet(path, rel, node);
      relinvp[interm - 1] := node;
    }
    Filled(path, rel, relinvp[..]);
  }

  lemma NotYet(p: seq<nat>, q: seq<nat>, v: nat)
    requires Inverse(p, q) && 1 <= v <= |p|
    ensures forall u {:trigger At(p, u)} :: 1 <= u < v ==> At(p, u) != At(p, v)
  {
    forall u | 1 <= u < v
      ensures At(p, u) != At(p, v)
    {
      assert At(q, At(p, u)) == u && At(q, At(p, v)) == v;
    }
  }

  lemma Filled(p: seq<nat>, q: seq<nat>, r: seq<nat>)
    requires Inverse(p, q) && |r| == |p|
    requires forall v {:trigger At(p, v)} :: 1 <= v <= |p| ==> r[At(p, v) - 1] == v
    ensures r == q
  {
    forall v | 1 <= v <= |p|
      ensures At(r, At(p, v)) == v
    {
      assert r[At(p, v) - 1] == v;
    }
    InverseUnique(p, q, r);
  }

  /** The graph in which vertex v has moved to the place invp[v], perm being the inverse of invp. */
  ghost function Moved(adj: Adj, perm: seq<nat>): Adj {
    (a: nat, b: nat) => 1 <= a <= |perm| && 1 <= b <= |perm| && adj(At(perm, a), At(perm, b))
  }

  lemma MovedSymmetric(adj: Adj, perm: seq<nat>)
    requires Symmetric(adj)
    ensures Symmetric(Moved(adj, perm))
  {
    forall a: nat, b: nat | Moved(adj, perm)(a, b)
      ensures Moved(adj, perm)(b, a)
    {
      assert adj(At(perm, a), At(perm, b));
    }
  }

  /** Permuting by an old ordering and then by the relative one is permuting once by the new ordering. */
  lemma MovedTwice(adj: Adj, fromperm: seq<nat>, frominvp: seq<nat>, perm: seq<nat>, invp: seq<nat>, a: nat, b: nat)
    requires Inverse(frominvp, fromperm) && Inverse(invp, perm) && |fromperm| == |perm|
    requires forall k :: 0 <= k < |perm| ==> 1 <= fromperm[k] <= |perm| && 1 <= perm[k] <= |perm|
    ensures Inverse(Then(fromperm, invp), Then(perm, frominvp))
    ensures Moved(Moved(adj, fromperm), Then(perm, frominvp))(a, b) == Moved(adj, perm)(a, b)
  {
    var rel := Then(perm, frominvp);
    ThenInverse(fromperm, frominvp, invp, perm);
    if 1 <= a <= |perm| && 1 <= b <= |perm| {
      assert At(rel, a) == At(frominvp, At(perm, a)) && At(rel, b) == At(frominvp, At(perm, b));
      assert At(fromperm, At(rel, a)) == At(perm, a) && At(fromperm, At(rel, b)) == At(perm, b);
    }
  }
}
