/** Permutation of a distributed graph or matrix: what becomes of every stored value, why the distribution
    does not matter, and why two permutations in a row equal the composed one. */
module Permutation {
  import opened Segments
  import opened DistMatrix
  import opened Assembly
  import opened Expansion
  import opened Ordering
  import E = EliminationTree

  /** The 0-based new position of the 0-based vertex v under the 1-based invp. */
  function New(invp: seq<nat>, v: nat): nat {
    if v < |invp| && invp[v] >= 1 then invp[v] - 1 else v
  }

  /** An entry goes to the owner of its permuted column; unless both triangles are stored it is transposed
      when it would land above the diagonal, and a diagonal entry is dropped unless the diagonal is kept. */
  function Moves<V>(invp: seq<nat>, keepDiag: bool, expanded: bool, c: nat, e: Entry<V>): Option<Triplet<V>> {
    var permRow, permCol := New(invp, e.row), New(invp, c);
    if permRow < permCol && !expanded then Some(Triplet(permCol, permRow, e.val))
    else if permRow > permCol || (permRow == permCol && keepDiag) || expanded then Some(Triplet(permRow, permCol, e.val))
    else None
  }

  function Move<V>(invp: seq<nat>, keepDiag: bool, expanded: bool): Route<V> {
    (c: nat, e: Entry<V>) => Moves(invp, keepDiag, expanded, c, e)
  }

  /** The result on one rank. */
  function Permuted<V>(cols: seq<seq<Entry<V>>>, invp: seq<nat>, keepDiag: bool, expanded: bool): (r: seq<seq<Entry<V>>>)
    ensures |r| == |cols|
  {
    ArrivedAll(Sent(cols, 0, Move(invp, keepDiag, expanded)), 0, |cols|)
  }

  // ---------------------------------------------------------------------------------------------
  // Any two distributions give the one-rank result
  // ---------------------------------------------------------------------------------------------

  /** after[p] is what rank p assembles from its share of everything sent. */
  ghost predicate Assembled<V>(after: seq<seq<seq<Entry<V>>>>, newDist: seq<int>, base: int, sent: seq<Triplet<V>>, p: nat)
    requires p < |after| && |newDist| >= 1
  {
    after[p] == ArrivedAll(Bucket(sent, ByOwner(newDist, base), p), Start(after, p), |after[p]|)
  }

  /** newDist gives rank p the columns of `after[p]`. */
  lemma {:induction false} ArrivedParts<V>(after: seq<seq<seq<Entry<V>>>>, newDist: seq<int>, base: int, sent: seq<Triplet<V>>, n: nat)
    requires Splits(after, newDist, base) && n <= |after|
    requires forall p :: 0 <= p < |after| ==> Assembled(after, newDist, base, sent, p)
    ensures Flat(after[..n]) == ArrivedAll(sent, 0, Start(after, n))
  {
    if n > 0 {
      ArrivedParts(after, newDist, base, sent, n - 1);
      ArrivedNext(after, newDist, base, sent, n - 1);
    }
  }

  lemma ArrivedNext<V>(after: seq<seq<seq<Entry<V>>>>, newDist: seq<int>, base: int, sent: seq<Triplet<V>>, n: nat)
    requires Splits(after, newDist, base) && n < |after|
    requires Assembled(after, newDist, base, sent, n)
    requires Flat(after[..n]) == ArrivedAll(sent, 0, Start(after, n))
    ensures Flat(after[..n + 1]) == ArrivedAll(sent, 0, Start(after, n + 1))
  {
    FlatOne(after, n);
    ArrivedPart(after, newDist, base, sent, n);
    ArrivedAllConcat(sent, 0, Start(after, n), |after[n]|);
  }

  lemma ArrivedPart<V>(after: seq<seq<seq<Entry<V>>>>, newDist: seq<int>, base: int, sent: seq<Triplet<V>>, p: nat)
    requires Splits(after, newDist, base) && p < |after|
    ensures ArrivedAll(Bucket(sent, ByOwner(newDist, base), p), Start(after, p), |after[p]|)
         == ArrivedAll(sent, Start(after, p), |after[p]|)
  {
    forall c | 0 <= c < |after[p]|
      ensures ArrivedAll(Bucket(sent, ByOwner(newDist, base), p), Start(after, p), |after[p]|)[c]
           == ArrivedAll(sent, Start(after, p), |after[p]|)[c]
    {
      ArrivedAtOwner(after, newDist, base, sent, p, Start(after, p) + c);
    }
  }

  lemma ArrivedAllConcat<V>(sent: seq<Triplet<V>>, first: nat, m: nat, k: nat)
    ensures ArrivedAll(sent, first, m) + ArrivedAll(sent, first + m, k) == ArrivedAll(sent, first, m + k)
  {
    var all := ArrivedAll(sent, first, m + k);
    assert |ArrivedAll(sent, first, m) + ArrivedAll(sent, first + m, k)| == |all|;
    forall c {:trigger all[c]} | 0 <= c < m + k
      ensures (ArrivedAll(sent, first, m) + ArrivedAll(sent, first + m, k))[c] == all[c]
    {
    }
  }

  /** However the columns are distributed before and after, the ranks' results side by side are the one-rank
      result: the order in which the ranks' messages are unpacked is the order of one sweep over all columns. */
  lemma DistributedPermutation<V>(parts: seq<seq<seq<Entry<V>>>>, after: seq<seq<seq<Entry<V>>>>, newDist: seq<int>, base: int,
                                  invp: seq<nat>, keepDiag: bool, expanded: bool)
    requires Splits(after, newDist, base) && |Flat(after)| == |Flat(parts)|
    requires forall p :: 0 <= p < |after| ==>
               Assembled(after, newDist, base, Flat(SentBy(parts, Move(invp, keepDiag, expanded))), p)
    ensures Flat(after) == Permuted(Flat(parts), invp, keepDiag, expanded)
  {
    SentByAll<V>(parts, Move(invp, keepDiag, expanded));
    ArrivedParts(after, newDist, base, Sent(Flat(parts), 0, Move(invp, keepDiag, expanded)), |after|);
    FlatLength(after);
    assert after[..|after|] == after;
  }

  // ---------------------------------------------------------------------------------------------
  // What the permutation means
  // ---------------------------------------------------------------------------------------------

  /** invp sends the n vertices to n different positions 1..n. */
  ghost predicate Positions(invp: seq<nat>, n: nat) {
    && |invp| == n
    && (forall v :: 0 <= v < n ==> 1 <= invp[v] <= n)
    && forall u, v :: 0 <= u < n && 0 <= v < n && invp[u] == invp[v] ==> u == v
  }

  ghost predicate RowsBelow<V>(cols: seq<seq<Entry<V>>>, n: nat) {
    forall c, e {:trigger e in cols[c]} :: 0 <= c < |cols| && e in cols[c] ==> e.row < n
  }

  /** The values column n contributes to the pair u, v, which lands at row New(u), column New(v). */
  ghost function Contribution<V>(col: seq<Entry<V>>, n: nat, u: nat, v: nat, invp: seq<nat>, keepDiag: bool, expanded: bool): seq<V> {
    if expanded then (if n == v then Values(col, u) else [])
    else if New(invp, u) < New(invp, v) then []
    else if u == v then (if n == v && keepDiag then Values(col, u) else [])
    else if n == v then Values(col, u)
    else if n == u then Values(col, v)
    else []
  }

  lemma ValuesOne<V>(front: seq<Entry<V>>, e: Entry<V>, r: nat)
    ensures Values(front + [e], r) == if e.row == r then Values(front, r) + [e.val] else Values(front, r)
  {
    assert (front + [e])[..|front|] == front;
  }

  lemma ArrivedAppend<V>(s: seq<Triplet<V>>, t: Triplet<V>, c: nat, r: nat)
    ensures Values(Arrived(s + [t], c), r)
         == if t.col == c && t.row == r then Values(Arrived(s, c), r) + [t.val] else Values(Arrived(s, c), r)
  {
    assert (s + [t])[..|s|] == s;
    if t.col == c {
      ValuesOne(Arrived(s, c), Entry(t.row, t.val), r);
    }
  }

  lemma {:induction false} ColumnMoves<V>(col: seq<Entry<V>>, n: nat, u: nat, v: nat, N: nat, invp: seq<nat>, keepDiag: bool, expanded: bool)
    requires Positions(invp, N) && n < N && u < N && v < N
    requires forall e <- col :: e.row < N
    ensures Values(Arrived(SentColumn(col, n, Move(invp, keepDiag, expanded)), New(invp, v)), New(invp, u))
         == Contribution(col, n, u, v, invp, keepDiag, expanded)
  {
    if col != [] {
      var front, e := col[..|col| - 1], col[|col| - 1];
      assert e in col;
      ColumnMoves(front, n, u, v, N, invp, keepDiag, expanded);
      EntryMoves(front, e, n, u, v, N, invp, keepDiag, expanded);
      assert col == front + [e];
    }
  }

  /** An entry of column n, row r, that contributes to the pair u, v. */
  ghost predicate Contributes(n: nat, r: nat, u: nat, v: nat, invp: seq<nat>, keepDiag: bool, expanded: bool) {
    if expanded then n == v && r == u
    else New(invp, u) >= New(invp, v) && if u == v then n == v && r == u && keepDiag else (n == v && r == u) || (n == u && r == v)
  }

  lemma MoveLands<V>(e: Entry<V>, n: nat, u: nat, v: nat, N: nat, invp: seq<nat>, keepDiag: bool, expanded: bool)
    requires Positions(invp, N) && n < N && u < N && v < N && e.row < N
    ensures Contributes(n, e.row, u, v, invp, keepDiag, expanded)
        <==> Moves(invp, keepDiag, expanded, n, e) == Some(Triplet(New(invp, u), New(invp, v), e.val))
    ensures Moves(invp, keepDiag, expanded, n, e).Some? ==> Moves(invp, keepDiag, expanded, n, e).value.val == e.val
  {
  }

  lemma ContributionOne<V>(front: seq<Entry<V>>, e: Entry<V>, n: nat, u: nat, v: nat, invp: seq<nat>, keepDiag: bool, expanded: bool)
    ensures Contribution(front + [e], n, u, v, invp, keepDiag, expanded)
         == Contribution(front, n, u, v, invp, keepDiag, expanded)
            + (if Contributes(n, e.row, u, v, invp, keepDiag, expanded) then [e.val] else [])
  {
    ValuesOne(front, e, u);
    ValuesOne(front, e, v);
  }

  lemma EntryMoves<V>(front: seq<Entry<V>>, e: Entry<V>, n: nat, u: nat, v: nat, N: nat, invp: seq<nat>, keepDiag: bool, expanded: bool)
    requires Positions(invp, N) && n < N && u < N && v < N && e.row < N
    requires Values(Arrived(SentColumn(front, n, Move(invp, keepDiag, expanded)), New(invp, v)), New(invp, u))
          == Contribution(front, n, u, v, invp, keepDiag, expanded)
    ensures Values(Arrived(SentColumn(front + [e], n, Move(invp, keepDiag, expanded)), New(invp, v)), New(invp, u))
         == Contribution(front + [e], n, u, v, invp, keepDiag, expanded)
  {
    var route := Move<V>(invp, keepDiag, expanded);
    var sent := SentColumn(front, n, route);
    assert (front + [e])[..|front|] == front;
    ContributionOne(front, e, n, u, v, invp, keepDiag, expanded);
    MoveLands(e, n, u, v, N, invp, keepDiag, expanded);
    match Moves(invp, keepDiag, expanded, n, e) {
      case None =>
        assert SentColumn(front + [e], n, route) == sent;
      case Some(t) =>
        assert SentColumn(front + [e], n, route) == sent + [t];
        ArrivedAppend(sent, t, New(invp, v), New(invp, u));
    }
  }

  /** What the first k columns contribute to the pair u, v. */
  ghost function Contributions<V>(cols: seq<seq<Entry<V>>>, k: nat, u: nat, v: nat, invp: seq<nat>, keepDiag: bool, expanded: bool): seq<V>
    requires k <= |cols|
  {
    if k == 0 then []
    else Contributions(cols, k - 1, u, v, invp, keepDiag, expanded) + Contribution(cols[k - 1], k - 1, u, v, invp, keepDiag, expanded)
  }

  lemma NextColumnMoves<V>(cols: seq<seq<Entry<V>>>, k: nat, u: nat, v: nat, invp: seq<nat>, keepDiag: bool, expanded: bool)
    requires Positions(invp, |cols|) && RowsBelow(cols, |cols|) && u < |cols| && v < |cols| && k < |cols|
    ensures Values(Arrived(SentColumn(cols[k], k, Move(invp, keepDiag, expanded)), New(invp, v)), New(invp, u))
         == Contribution(cols[k], k, u, v, invp, keepDiag, expanded)
  {
    forall e | e in cols[k]
      ensures e.row < |cols|
    {
    }
    ColumnMoves(cols[k], k, u, v, |cols|, invp, keepDiag, expanded);
  }

  lemma {:induction false} FirstColumnsMove<V>(cols: seq<seq<Entry<V>>>, k: nat, u: nat, v: nat, invp: seq<nat>, keepDiag: bool, expanded: bool)
    requires Positions(invp, |cols|) && RowsBelow(cols, |cols|) && u < |cols| && v < |cols| && k <= |cols|
    ensures Values(Arrived(Sent(cols[..k], 0, Move(invp, keepDiag, expanded)), New(invp, v)), New(invp, u))
         == Contributions(cols, k, u, v, invp, keepDiag, expanded)
  {
    if k > 0 {
      FirstColumnsMove(cols, k - 1, u, v, invp, keepDiag, expanded);
      NextColumnMoves(cols, k - 1, u, v, invp, keepDiag, expanded);
      SplitValues(cols, k - 1, Move(invp, keepDiag, expanded), New(invp, v), New(invp, u));
    }
  }

  lemma SplitValues<V>(cols: seq<seq<Entry<V>>>, k: nat, route: Route<V>, c: nat, r: nat)
    requires k < |cols|
    ensures Values(Arrived(Sent(cols[..k + 1], 0, route), c), r)
         == Values(Arrived(Sent(cols[..k], 0, route), c), r) + Values(Arrived(SentColumn(cols[k], k, route), c), r)
  {
    SentNext(cols, 0, k, route);
    var front, last := Sent(cols[..k], 0, route), SentColumn(cols[k], k, route);
    ArrivedConcat(front, last, c);
    ValuesConcat(Arrived(front, c), Arrived(last, c), r);
  }

  /** The values stored for the unordered pair u, v in lower storage. */
  ghost function Pair<V>(cols: seq<seq<Entry<V>>>, u: nat, v: nat): seq<V>
    requires u < |cols| && v < |cols|
  {
    if u > v then Values(cols[v], u) else Values(cols[u], v)
  }

  lemma {:induction false} OneContributes<V>(cols: seq<seq<Entry<V>>>, k: nat, u: nat, v: nat, invp: seq<nat>, keepDiag: bool, expanded: bool)
    requires u < |cols| && v < |cols| && k <= |cols|
    requires expanded || (Lower(cols) && New(invp, u) >= New(invp, v))
    ensures Contributions(cols, k, u, v, invp, keepDiag, expanded)
         == if expanded then (if v < k then Values(cols[v], u) else [])
            else if u == v then (if v < k && keepDiag then Values(cols[v], v) else [])
            else if u < k || v < k then (if (if u < v then u else v) < k then Pair(cols, u, v) else [])
            else []
  {
    if k > 0 {
      OneContributes(cols, k - 1, u, v, invp, keepDiag, expanded);
      if !expanded && u != v {
        if u > v {
          NoValues(cols[u], v);
        } else {
          NoValues(cols[v], u);
        }
      }
    }
  }

  /** From lower storage every pair keeps exactly its values, and they land on or below the diagonal; only
      the diagonal may be dropped. */
  lemma PermutedPair<V>(cols: seq<seq<Entry<V>>>, u: nat, v: nat, invp: seq<nat>, keepDiag: bool)
    requires Positions(invp, |cols|) && RowsBelow(cols, |cols|) && Lower(cols) && u < |cols| && v < |cols|
    ensures New(invp, v) < |cols|
    ensures Values(Permuted(cols, invp, keepDiag, false)[New(invp, v)], New(invp, u))
         == if New(invp, u) < New(invp, v) || (u == v && !keepDiag) then [] else Pair(cols, u, v)
  {
    FirstColumnsMove(cols, |cols|, u, v, invp, keepDiag, false);
    assert cols[..|cols|] == cols;
    if New(invp, u) >= New(invp, v) {
      OneContributes(cols, |cols|, u, v, invp, keepDiag, false);
    } else {
      NoContributions(cols, |cols|, u, v, invp, keepDiag);
    }
  }

  lemma {:induction false} NoContributions<V>(cols: seq<seq<Entry<V>>>, k: nat, u: nat, v: nat, invp: seq<nat>, keepDiag: bool)
    requires k <= |cols| && New(invp, u) < New(invp, v)
    ensures Contributions(cols, k, u, v, invp, keepDiag, false) == []
  {
    if k > 0 {
      NoContributions(cols, k - 1, u, v, invp, keepDiag);
    }
  }

  /** From expanded storage every position (u, v) keeps exactly its values. */
  lemma PermutedPosition<V>(cols: seq<seq<Entry<V>>>, u: nat, v: nat, invp: seq<nat>, keepDiag: bool)
    requires Positions(invp, |cols|) && RowsBelow(cols, |cols|) && u < |cols| && v < |cols|
    ensures New(invp, v) < |cols|
    ensures Values(Permuted(cols, invp, keepDiag, true)[New(invp, v)], New(invp, u)) == Values(cols[v], u)
  {
    FirstColumnsMove(cols, |cols|, u, v, invp, keepDiag, true);
    assert cols[..|cols|] == cols;
    OneContributes(cols, |cols|, u, v, invp, keepDiag, true);
  }

  /** Permuted lower storage is lower storage, and its rows stay in range. */
  lemma PermutedLower<V>(cols: seq<seq<Entry<V>>>, invp: seq<nat>, keepDiag: bool)
    requires Positions(invp, |cols|) && RowsBelow(cols, |cols|) && Lower(cols)
    ensures Lower(Permuted(cols, invp, keepDiag, false)) && RowsBelow(Permuted(cols, invp, keepDiag, false), |cols|)
  {
    var after := Permuted(cols, invp, keepDiag, false);
    forall c: int, e: Entry<V> {:trigger e in after[c]} | 0 <= c < |after| && e in after[c]
      ensures c <= e.row < |cols|
    {
      ArrivedFrom(Sent(cols, 0, Move(invp, keepDiag, false)), c, e);
      var n, d := SentFrom(cols, 0, Move(invp, keepDiag, false), Triplet(e.row, c, e.val));
      assert d in cols[n];
    }
  }

  lemma {:induction false} ArrivedFrom<V>(s: seq<Triplet<V>>, c: nat, e: Entry<V>)
    requires e in Arrived(s, c)
    ensures Triplet(e.row, c, e.val) in s
  {
    var n := |s| - 1;
    if s[n] != Triplet(e.row, c, e.val) {
      ArrivedFrom(s[..n], c, e);
    }
  }

  // ---------------------------------------------------------------------------------------------
  // Two permutations in a row
  // ---------------------------------------------------------------------------------------------

  lemma InversePositions(invp: seq<nat>, perm: seq<nat>)
    requires Inverse(invp, perm)
    ensures Positions(invp, |perm|)
  {
    InRange(invp, perm);
    forall u, v | 0 <= u < |perm| && 0 <= v < |perm| && invp[u] == invp[v]
      ensures u == v
    {
      assert E.At(perm, E.At(invp, u + 1)) == u + 1 && E.At(perm, E.At(invp, v + 1)) == v + 1;
    }
  }

  lemma RelativePositions(frominvp: seq<nat>, fromperm: seq<nat>, invp: seq<nat>, perm: seq<nat>)
    requires Inverse(frominvp, fromperm) && Inverse(invp, perm) && |fromperm| == |perm|
    ensures forall k :: 0 <= k < |fromperm| ==> 1 <= fromperm[k] <= |invp|
    ensures Positions(frominvp, |perm|) && Positions(invp, |perm|) && Positions(Then(fromperm, invp), |perm|)
  {
    InRange(frominvp, fromperm);
    InRange(invp, perm);
    MovedTwice((a, b) => false, fromperm, frominvp, perm, invp, 1, 1);
    InversePositions(frominvp, fromperm);
    InversePositions(invp, perm);
    InversePositions(Then(fromperm, invp), Then(perm, frominvp));
  }

  lemma RelativeNew(frominvp: seq<nat>, fromperm: seq<nat>, invp: seq<nat>, perm: seq<nat>, u: nat)
    requires Inverse(frominvp, fromperm) && Inverse(invp, perm) && |fromperm| == |perm| && u < |perm|
    requires forall k :: 0 <= k < |fromperm| ==> 1 <= fromperm[k] <= |invp|
    ensures New(Then(fromperm, invp), New(frominvp, u)) == New(invp, u)
  {
    InRange(frominvp, fromperm);
    InRange(invp, perm);
    assert E.At(fromperm, E.At(frominvp, u + 1)) == u + 1;
  }

  lemma MovedOnceMore<V>(cols: seq<seq<Entry<V>>>, frominvp: seq<nat>, rel: seq<nat>, invp: seq<nat>, u: nat, v: nat, keepDiag: bool)
    requires Positions(frominvp, |cols|) && Positions(rel, |cols|) && Positions(invp, |cols|)
    requires RowsBelow(cols, |cols|) && Lower(cols) && u < |cols| && v < |cols|
    requires New(rel, New(frominvp, u)) == New(invp, u) && New(rel, New(frominvp, v)) == New(invp, v)
    ensures New(invp, v) < |cols|
    ensures Values(Permuted(Permuted(cols, frominvp, keepDiag, false), rel, keepDiag, false)[New(invp, v)], New(invp, u))
         == Values(Permuted(cols, invp, keepDiag, false)[New(invp, v)], New(invp, u))
  {
    PermutedLower(cols, frominvp, keepDiag);
    PermutedPair(Permuted(cols, frominvp, keepDiag, false), New(frominvp, u), New(frominvp, v), rel, keepDiag);
    PermutedPair(cols, u, v, invp, keepDiag);
    if New(frominvp, u) >= New(frominvp, v) {
      PermutedPair(cols, u, v, frominvp, keepDiag);
    } else {
      PermutedPair(cols, v, u, frominvp, keepDiag);
    }
  }

  lemma PermutedBelow<V>(cols: seq<seq<Entry<V>>>, invp: seq<nat>, keepDiag: bool)
    requires Positions(invp, |cols|) && RowsBelow(cols, |cols|)
    ensures RowsBelow(Permuted(cols, invp, keepDiag, true), |cols|)
  {
    var after := Permuted(cols, invp, keepDiag, true);
    forall c: int, e: Entry<V> {:trigger e in after[c]} | 0 <= c < |after| && e in after[c]
      ensures e.row < |cols|
    {
      ArrivedFrom(Sent(cols, 0, Move(invp, keepDiag, true)), c, e);
      var n, d := SentFrom(cols, 0, Move(invp, keepDiag, true), Triplet(e.row, c, e.val));
      assert d in cols[n];
    }
  }

  lemma PositionOnceMore<V>(cols: seq<seq<Entry<V>>>, frominvp: seq<nat>, rel: seq<nat>, invp: seq<nat>, u: nat, v: nat, keepDiag: bool)
    requires Positions(frominvp, |cols|) && Positions(rel, |cols|) && Positions(invp, |cols|)
    requires RowsBelow(cols, |cols|) && u < |cols| && v < |cols|
    requires New(rel, New(frominvp, u)) == New(invp, u) && New(rel, New(frominvp, v)) == New(invp, v)
    ensures New(invp, v) < |cols|
    ensures Values(Permuted(Permuted(cols, frominvp, keepDiag, true), rel, keepDiag, true)[New(invp, v)], New(invp, u))
         == Values(Permuted(cols, invp, keepDiag, true)[New(invp, v)], New(invp, u))
  {
    PermutedBelow(cols, frominvp, keepDiag);
    PermutedPosition(cols, u, v, frominvp, keepDiag);
    PermutedPosition(Permuted(cols, frominvp, keepDiag, true), New(frominvp, u), New(frominvp, v), rel, keepDiag);
    PermutedPosition(cols, u, v, invp, keepDiag);
  }

  /** Storage that was permuted by `frominvp` and is permuted again by the relative ordering from it to `invp`
      holds, in every place, what one permutation by `invp` gives: expanded or lower, with the diagonal or without. */
  lemma PermutedTwice<V>(cols: seq<seq<Entry<V>>>, frominvp: seq<nat>, fromperm: seq<nat>, invp: seq<nat>, perm: seq<nat>, u: nat, v: nat,
                         keepDiag: bool, expanded: bool)
    requires Inverse(frominvp, fromperm) && Inverse(invp, perm) && |fromperm| == |perm| == |cols|
    requires RowsBelow(cols, |cols|) && (expanded || Lower(cols)) && u < |cols| && v < |cols|
    ensures forall k :: 0 <= k < |fromperm| ==> 1 <= fromperm[k] <= |invp|
    ensures New(invp, v) < |cols|
    ensures Values(Permuted(Permuted(cols, frominvp, keepDiag, expanded), Then(fromperm, invp), keepDiag, expanded)[New(invp, v)], New(invp, u))
         == Values(Permuted(cols, invp, keepDiag, expanded)[New(invp, v)], New(invp, u))
  {
    RelativePositions(frominvp, fromperm, invp, perm);
    RelativeNew(frominvp, fromperm, invp, perm, u);
    RelativeNew(frominvp, fromperm, invp, perm, v);
    if expanded {
      PositionOnceMore(cols, frominvp, Then(fromperm, invp), invp, u, v, keepDiag);
    } else {
      MovedOnceMore(cols, frominvp, Then(fromperm, invp), invp, u, v, keepDiag);
    }
  }
}
