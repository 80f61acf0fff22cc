/** The part of a distributed graph or matrix that each rank holds, and the operations that all ranks run
    together: expansion, permutation, restriction. */
module Ranks {
  import opened Segments
  import opened DistMatrix
  import opened Assembly
  import opened Expansion
  import opened Restriction
  import opened Permutation
  import opened Sorting

  class LocalMatrix<V(0)> {
    var baseval: int
    var first: nat
    var keepDiag: bool
    var sorted: bool
    var expanded: bool
    var colptr: seq<int>
    var rowind: seq<int>
    var nzval: seq<V>
    ghost var cols: seq<seq<Entry<V>>>

    ghost predicate Valid()
      reads this
    {
      Represents(baseval, colptr, rowind, nzval, cols)
    }

    ghost predicate Based(base: int)
      reads this
    {
      Valid() && baseval == base
    }

    ghost function Flags(): (bool, bool, bool)
      reads this
    {
      (keepDiag, sorted, expanded)
    }

    /** Count, pack: what this rank sends to each rank of `dist`. */
    method Send(dist: seq<int>, route: Route<V>) returns (sizes: seq<nat>, sent: seq<Triplet<V>>)
      requires Valid() && Owned(Sent(cols, first, route), dist, baseval)
      ensures Counted(sizes, Sent(cols, first, route), dist, baseval)
      ensures Laid(sent, Buckets(Sent(cols, first, route), ByOwner(dist, baseval), |dist| - 1))
    {
      var sbuf;
      sizes, sbuf := Pack(baseval, colptr, rowind, nzval, first, dist, route, cols);
      sent := sbuf[..];
    }

    /** Expansion: the gaps are opened in place and filled with what came in. */
    method ReceiveMirrors(recv: seq<Triplet<V>>)
      requires Valid() && Local(recv, first, |cols|)
      modifies this
      ensures Valid() && expanded && cols == GrownAll(old(cols), recv, first)
      ensures baseval == old(baseval) && first == old(first) && keepDiag == old(keepDiag) && sorted == old(sorted)
    {
      colptr, rowind, nzval := Grow(baseval, colptr, rowind, nzval, recv, first, cols);
      cols := GrownAll(cols, recv, first);
      expanded := true;
    }

    /** Permutation: the columns of this rank's new range are assembled from what came in. */
    method ReceiveColumns(recv: seq<Triplet<V>>, newFirst: nat, newCount: nat)
      requires Valid() && Local(recv, newFirst, newCount)
      modifies this
      ensures Valid() && first == newFirst && cols == ArrivedAll(recv, newFirst, newCount)
      ensures baseval == old(baseval) && keepDiag == old(keepDiag) && sorted == old(sorted) && expanded == old(expanded)
    {
      colptr, rowind, nzval := Assemble<V>(baseval, recv, newFirst, newCount);
      first := newFirst;
      cols := ArrivedAll(recv, newFirst, newCount);
    }

    method SortGraph()
      requires Valid()
      modifies this
      ensures Valid() && sorted && AllRearranged(old(cols), cols, |cols|)
      ensures baseval == old(baseval) && first == old(first) && keepDiag == old(keepDiag) && expanded == old(expanded)
    {
      rowind, nzval, cols := SortColumns(baseval, colptr, rowind, nzval, cols);
      sorted := true;
    }

    /** Back to lower storage.  Without a kept diagonal the pointers no longer fit the row indices if a
        diagonal entry is stored. */
    method ToLowerTriangular()
      requires Valid()
      modifies this
      ensures baseval == old(baseval) && first == old(first) && keepDiag == old(keepDiag) && sorted == old(sorted) && !expanded
      ensures !old(expanded) ==> Valid() && cols == old(cols)
      ensures old(expanded) ==> cols == KeptAll(old(cols), first, true)
      ensures old(expanded) && (keepDiag || NoDiagonal(old(cols), first)) ==> Valid()
      ensures old(expanded) && !keepDiag && !NoDiagonal(old(cols), first) ==>
                |colptr| == |cols| + 1 && colptr[|cols|] != baseval + |rowind| && !Valid()
    {
      if expanded {
        ghost var was := cols;
        var c, r, v := Restrict(baseval, colptr, rowind, nzval, first, keepDiag, cols);
        RestrictConsistent(baseval, cols, first, keepDiag, c, r, v);
        colptr, rowind, nzval := c, r, v;
        cols := KeptAll(was, first, true);
        expanded := false;
      }
    }
  }

  // ---------------------------------------------------------------------------------------------
  // All ranks
  // ---------------------------------------------------------------------------------------------

  ghost function Parts<V(0)>(ranks: seq<LocalMatrix<V>>): (r: seq<seq<seq<Entry<V>>>>)
    reads ranks
    ensures |r| == |ranks|
  {
    seq(|ranks|, p requires 0 <= p < |ranks| reads ranks => ranks[p].cols)
  }

  ghost predicate Distinct<V(0)>(ranks: seq<LocalMatrix<V>>) {
    forall p, q :: 0 <= p < q < |ranks| ==> ranks[p] != ranks[q]
  }

  /** Rank p holds the columns from Start(parts, p) on, counted from `base`. */
  ghost predicate Holding<V(0)>(m: LocalMatrix<V>, parts: seq<seq<seq<Entry<V>>>>, p: nat, base: int)
    requires p < |parts|
    reads m
  {
    m.Valid() && m.baseval == base && m.cols == parts[p] && m.first == Start(parts, p)
  }

  /** No row is beyond the last column. */
  ghost predicate InMatrix<V>(parts: seq<seq<seq<Entry<V>>>>) {
    RowsBelow(Flat(parts), |Flat(parts)|)
  }

  /** Everything that is sent goes to a column of the matrix. */
  ghost predicate Lands<V>(sent: seq<Triplet<V>>, n: nat) {
    forall t <- sent :: t.col < n
  }

  lemma LandsOwned<V>(sent: seq<Triplet<V>>, n: nat, dist: seq<int>, base: int)
    requires Lands(sent, n) && Distribution(dist, base, n)
    ensures Owned(sent, dist, base)
  {
    forall t | t in sent
      ensures Owner(dist, base, t.col, 0) < |dist| - 1
    {
      OwnerOwns(dist, base, n, t.col, 0);
    }
  }

  lemma {:induction false} PartLands<V>(lists: seq<seq<Triplet<V>>>, n: nat, p: nat)
    requires p < |lists| && Lands(Flat(lists), n)
    ensures Lands(lists[p], n)
  {
    FlatOne(lists, p);
    FlatPrefix(lists, p + 1);
    forall t | t in lists[p]
      ensures t in Flat(lists)
    {
      assert t in Flat(lists[..p + 1]);
    }
  }

  /** What a rank receives belongs to its range. */
  lemma BucketLocal<V>(sent: seq<Triplet<V>>, n: nat, dist: seq<int>, base: int, p: nat, first: nat, count: nat)
    requires Lands(sent, n) && Distribution(dist, base, n) && p + 1 < |dist|
    requires dist[p] == base + first && dist[p + 1] == base + first + count
    ensures Local(Bucket(sent, ByOwner(dist, base), p), first, count)
  {
    forall t | t in Bucket(sent, ByOwner(dist, base), p)
      ensures first <= t.col < first + count
    {
      BucketMembers(sent, ByOwner(dist, base), p, t);
      OwnerOwns(dist, base, n, t.col, 0);
    }
  }

  /** `buf` holds the triplets of `sent`, one part per rank of dist, and `counts` their sizes. */
  ghost predicate PackedFor<V>(buf: seq<Triplet<V>>, counts: seq<nat>, sent: seq<Triplet<V>>, dist: seq<int>, base: int)
    requires |dist| >= 1
  {
    Counted(counts, sent, dist, base) && Laid(buf, Buckets(sent, ByOwner(dist, base), |dist| - 1))
  }

  ghost predicate AllPacked<V>(bufs: seq<seq<Triplet<V>>>, counts: seq<seq<nat>>, lists: seq<seq<Triplet<V>>>, dist: seq<int>, base: int)
    requires |dist| >= 1
  {
    && |bufs| == |counts| == |lists|
    && forall r {:trigger bufs[r]} :: 0 <= r < |lists| ==> PackedFor(bufs[r], counts[r], lists[r], dist, base)
  }

  method SendFrom<V(0)>(m: LocalMatrix<V>, dist: seq<int>, base: int, route: Route<V>, ghost parts: seq<seq<seq<Entry<V>>>>,
                        ghost p: nat, ghost n: nat) returns (buf: seq<Triplet<V>>, counts: seq<nat>)
    requires p < |parts| && Holding(m, parts, p, base)
    requires Lands(Flat(SentBy(parts, route)), n) && Distribution(dist, base, n)
    ensures PackedFor(buf, counts, SentBy(parts, route)[p], dist, base)
  {
    PartLands(SentBy(parts, route), n, p);
    LandsOwned(SentBy(parts, route)[p], n, dist, base);
    counts, buf := m.Send(dist, route);
  }

  /** Every rank packs what it sends. */
  method SendAll<V(0)>(ranks: seq<LocalMatrix<V>>, dist: seq<int>, base: int, route: Route<V>,
                       ghost parts: seq<seq<seq<Entry<V>>>>, ghost n: nat)
    returns (bufs: seq<seq<Triplet<V>>>, counts: seq<seq<nat>>)
    requires |parts| == |ranks| && forall p :: 0 <= p < |ranks| ==> Holding(ranks[p], parts, p, base)
    requires Lands(Flat(SentBy(parts, route)), n) && Distribution(dist, base, n)
    ensures AllPacked(bufs, counts, SentBy(parts, route), dist, base)
  {
    bufs, counts := [], [];
    ghost var lists := SentBy(parts, route);
    for r := 0 to |ranks|
      invariant |bufs| == |counts| == r && AllPacked(bufs, counts, lists[..r], dist, base)
      invariant forall p {:trigger ranks[p]} :: r <= p < |ranks| ==> Holding(ranks[p], parts, p, base)
    {
      var buf, count := SendFrom(ranks[r], dist, base, route, parts, r, n);
      PackedNext(bufs, counts, lists, r, buf, count, dist, base);
      bufs, counts := bufs + [buf], counts + [count];
    }
    assert lists[..|ranks|] == lists;
  }

  lemma PackedNext<V>(bufs: seq<seq<Triplet<V>>>, counts: seq<seq<nat>>, lists: seq<seq<Triplet<V>>>, r: nat,
                      buf: seq<Triplet<V>>, count: seq<nat>, dist: seq<int>, base: int)
    requires |dist| >= 1 && r < |lists| && AllPacked(bufs, counts, lists[..r], dist, base)
    requires PackedFor(buf, count, lists[r], dist, base)
    ensures AllPacked(bufs + [buf], counts + [count], lists[..r + 1], dist, base)
  {
    var b, c := bufs + [buf], counts + [count];
    forall q {:trigger b[q]} | 0 <= q < r + 1
      ensures PackedFor(b[q], c[q], lists[..r + 1][q], dist, base)
    {
      if q < r {
        assert b[q] == bufs[q];
      }
    }
  }

  /** The all-to-all: rank p gets its bucket of everything sent. */
  method Deliver<V(0)>(bufs: seq<seq<Triplet<V>>>, counts: seq<seq<nat>>, p: nat, ghost lists: seq<seq<Triplet<V>>>,
                       dist: seq<int>, base: int) returns (recv: seq<Triplet<V>>)
    requires p + 1 < |dist| && AllPacked(bufs, counts, lists, dist, base)
    ensures recv == Bucket(Flat(lists), ByOwner(dist, base), p)
  {
    ghost var dest, np := ByOwner<V>(dist, base), |dist| - 1;
    forall r | 0 <= r < |lists|
      ensures |counts[r]| == np && Laid(bufs[r], Buckets(lists[r], dest, np))
      ensures forall q :: 0 <= q < np ==> counts[r][q] == |Bucket(lists[r], dest, q)|
    {
      assert PackedFor(bufs[r], counts[r], lists[r], dist, base);
    }
    ExchangeOfBuckets(lists, dest, np, bufs, counts, p);
    recv := Exchange(bufs, counts, p);
  }

  method DeliverAll<V(0)>(bufs: seq<seq<Triplet<V>>>, counts: seq<seq<nat>>, ghost lists: seq<seq<Triplet<V>>>,
                          dist: seq<int>, base: int) returns (recvs: seq<seq<Triplet<V>>>)
    requires |dist| >= 1 && AllPacked(bufs, counts, lists, dist, base)
    ensures |recvs| == |dist| - 1
    ensures forall p {:trigger recvs[p]} :: 0 <= p < |recvs| ==> recvs[p] == Bucket(Flat(lists), ByOwner(dist, base), p)
  {
    recvs := [];
    for p := 0 to |dist| - 1
      invariant |recvs| == p
      invariant forall q {:trigger recvs[q]} :: 0 <= q < p ==> recvs[q] == Bucket(Flat(lists), ByOwner(dist, base), q)
    {
      var recv := Deliver(bufs, counts, p, lists, dist, base);
      recvs := recvs + [recv];
    }
  }

  lemma PartsHolding<V(0)>(ranks: seq<LocalMatrix<V>>, parts: seq<seq<seq<Entry<V>>>>, base: int)
    requires |parts| == |ranks| && forall p :: 0 <= p < |ranks| ==> Holding(ranks[p], parts, p, base)
    ensures Parts(ranks) == parts
  {
    forall p | 0 <= p < |ranks|
      ensures Parts(ranks)[p] == parts[p]
    {
      assert Holding(ranks[p], parts, p, base);
    }
  }

  lemma GrownStarts<V>(parts: seq<seq<seq<Entry<V>>>>, after: seq<seq<seq<Entry<V>>>>, i: nat)
    requires i <= |parts| == |after| && forall p :: 0 <= p < |parts| ==> |after[p]| == |parts[p]|
    ensures Start(after, i) == Start(parts, i)
  {
    if i > 0 {
      GrownStarts(parts, after, i - 1);
    }
  }

  lemma MirrorsLand<V>(parts: seq<seq<seq<Entry<V>>>>)
    requires InMatrix(parts)
    ensures Lands(Flat(SentBy(parts, Mirror<V>)), |Flat(parts)|)
  {
    SentByAll<V>(parts, Mirror<V>);
    forall t | t in Flat(SentBy(parts, Mirror<V>))
      ensures t.col < |Flat(parts)|
    {
      var c, e := SentFrom(Flat(parts), 0, Mirror<V>, t);
      assert e in Flat(parts)[c];
    }
  }

  ghost function AllGrown<V>(parts: seq<seq<seq<Entry<V>>>>, dist: seq<int>, base: int): (r: seq<seq<seq<Entry<V>>>>)
    requires |dist| == |parts| + 1
    ensures |r| == |parts|
  {
    seq(|parts|, p requires 0 <= p < |parts| => GrownAt(parts, dist, base, Flat(SentBy(parts, Mirror<V>)), p))
  }

  lemma GrownAllStarts<V>(parts: seq<seq<seq<Entry<V>>>>, dist: seq<int>, base: int, p: nat)
    requires |dist| == |parts| + 1 && p <= |parts|
    ensures Start(AllGrown(parts, dist, base), p) == Start(parts, p)
  {
    GrownStarts(parts, AllGrown(parts, dist, base), p);
  }

  ghost predicate Settled<V(0)>(m: LocalMatrix<V>, parts: seq<seq<seq<Entry<V>>>>, p: nat, base: int, sorted: bool)
    requires p < |parts|
    reads m
  {
    Holding(m, parts, p, base) && m.sorted == sorted
  }

  /** What rank p received belongs to its columns and turns them into after[p]. */
  ghost predicate Due<V>(recv: seq<Triplet<V>>, parts: seq<seq<seq<Entry<V>>>>, after: seq<seq<seq<Entry<V>>>>, p: nat)
    requires p < |parts| == |after|
  {
    && Local(recv, Start(parts, p), |parts[p]|) && Start(after, p) == Start(parts, p)
    && after[p] == GrownAll(parts[p], recv, Start(parts, p))
  }

  lemma AllDue<V>(recvs: seq<seq<Triplet<V>>>, parts: seq<seq<seq<Entry<V>>>>, dist: seq<int>, base: int, p: nat)
    requires Splits(parts, dist, base) && InMatrix(parts) && p < |parts| == |recvs|
    requires recvs[p] == Bucket(Flat(SentBy(parts, Mirror<V>)), ByOwner(dist, base), p)
    ensures Due(recvs[p], parts, AllGrown(parts, dist, base), p)
  {
    MirrorsLand(parts);
    SplitsDistribution(parts, dist, base);
    BucketLocal(Flat(SentBy(parts, Mirror<V>)), |Flat(parts)|, dist, base, p, Start(parts, p), |parts[p]|);
    GrownAllStarts(parts, dist, base, p);
  }

  /** Every rank takes in what was sent to it. */
  method ReceiveAll<V(0)>(ranks: seq<LocalMatrix<V>>, recvs: seq<seq<Triplet<V>>>, base: int,
                          ghost parts: seq<seq<seq<Entry<V>>>>, ghost after: seq<seq<seq<Entry<V>>>>, ghost sorted: bool)
    requires |parts| == |ranks| == |after| == |recvs| && Distinct(ranks)
    requires forall p {:trigger recvs[p]} :: 0 <= p < |ranks| ==> Due(recvs[p], parts, after, p)
    requires forall p {:trigger ranks[p]} :: 0 <= p < |ranks| ==> Settled(ranks[p], parts, p, base, sorted)
    modifies ranks
    ensures forall p {:trigger ranks[p]} :: 0 <= p < |ranks| ==> ranks[p].expanded && Settled(ranks[p], after, p, base, sorted)
  {
    for p := 0 to |ranks|
      modifies ranks
      invariant forall q {:trigger ranks[q]} :: p <= q < |ranks| ==> Settled(ranks[q], parts, q, base, sorted)
      invariant forall q {:trigger ranks[q]} :: 0 <= q < p ==> ranks[q].expanded && Settled(ranks[q], after, q, base, sorted)
    {
      assert Due(recvs[p], parts, after, p);
      ranks[p].ReceiveMirrors(recvs[p]);
    }
  }

  lemma {:induction false} FlatRearranged<V>(before: seq<seq<seq<Entry<V>>>>, after: seq<seq<seq<Entry<V>>>>, n: nat)
    requires n <= |before| == |after| && forall p :: 0 <= p < |before| ==> AllRearranged(before[p], after[p], |before[p]|)
    ensures AllRearranged(Flat(before[..n]), Flat(after[..n]), |Flat(before[..n])|)
  {
    if n > 0 {
      FlatRearranged(before, after, n - 1);
      FlatOne(before, n - 1);
      FlatOne(after, n - 1);
      RearrangedConcat(Flat(before[..n - 1]), Flat(after[..n - 1]), before[n - 1], after[n - 1]);
    }
  }

  lemma RearrangedConcat<V>(a: seq<seq<Entry<V>>>, a': seq<seq<Entry<V>>>, b: seq<seq<Entry<V>>>, b': seq<seq<Entry<V>>>)
    requires AllRearranged(a, a', |a|) && AllRearranged(b, b', |b|)
    ensures AllRearranged(a + b, a' + b', |a + b|)
  {
    var s, t := a + b, a' + b';
    forall c {:trigger t[c]} | 0 <= c < |s|
      ensures Rearranged(s[c], t[c])
    {
      if c < |a| {
        assert t[c] == a'[c];
      } else {
        assert t[c] == b'[c - |a|];
      }
    }
  }

  /** Rank p holds its columns, each sorted. */
  ghost predicate Resorted<V(0)>(m: LocalMatrix<V>, parts: seq<seq<seq<Entry<V>>>>, p: nat, base: int)
    requires p < |parts|
    reads m
  {
    m.Valid() && m.sorted && m.baseval == base && m.first == Start(parts, p) && AllRearranged(parts[p], m.cols, |parts[p]|)
  }

  lemma AllResorted<V(0)>(ranks: seq<LocalMatrix<V>>, parts: seq<seq<seq<Entry<V>>>>, base: int)
    requires |parts| == |ranks| && forall p :: 0 <= p < |ranks| ==> Resorted(ranks[p], parts, p, base)
    ensures forall p :: 0 <= p < |ranks| ==> Holding(ranks[p], Parts(ranks), p, base)
    ensures AllRearranged(Flat(parts), Flat(Parts(ranks)), |Flat(parts)|)
  {
    var after := Parts(ranks);
    forall p | 0 <= p < |ranks|
      ensures |after[p]| == |parts[p]| && AllRearranged(parts[p], after[p], |parts[p]|)
    {
      assert Resorted(ranks[p], parts, p, base);
    }
    forall p | 0 <= p < |ranks|
      ensures Holding(ranks[p], after, p, base)
    {
      assert Resorted(ranks[p], parts, p, base);
      GrownStarts(parts, after, p);
    }
    FlatRearranged(parts, after, |parts|);
    assert parts[..|parts|] == parts && after[..|parts|] == after;
  }

  /** Every rank sorts its columns. */
  method SortAll<V(0)>(ranks: seq<LocalMatrix<V>>, base: int, ghost parts: seq<seq<seq<Entry<V>>>>)
    requires Distinct(ranks) && |parts| == |ranks| && forall p :: 0 <= p < |ranks| ==> Holding(ranks[p], parts, p, base)
    modifies ranks
    ensures forall p :: 0 <= p < |ranks| ==> Holding(ranks[p], Parts(ranks), p, base)
    ensures AllRearranged(Flat(parts), Flat(Parts(ranks)), |Flat(parts)|)
    ensures forall p :: 0 <= p < |ranks| ==> ranks[p].expanded == old(ranks[p].expanded) && ranks[p].keepDiag == old(ranks[p].keepDiag)
  {
    for p := 0 to |ranks|
      modifies ranks
      invariant forall q :: p <= q < |ranks| ==> Holding(ranks[q], parts, q, base)
      invariant forall q :: 0 <= q < p ==> Resorted(ranks[q], parts, q, base)
      invariant forall q :: 0 <= q < |ranks| ==> ranks[q].expanded == old(ranks[q].expanded) && ranks[q].keepDiag == old(ranks[q].keepDiag)
    {
      assert Holding(ranks[p], parts, p, base);
      ranks[p].SortGraph();
    }
    AllResorted(ranks, parts, base);
  }

  ghost predicate SameFlags<V(0)>(ranks: seq<LocalMatrix<V>>)
    reads ranks
  {
    forall p :: 0 <= p < |ranks| ==>
      ranks[p].expanded == ranks[0].expanded && ranks[p].sorted == ranks[0].sorted && ranks[p].keepDiag == ranks[0].keepDiag
  }

  /** The expansion on all ranks together: whatever the distribution, the ranks end up with the columns that
      one rank would have computed.  Storage that is expanded already is left alone.  A matrix that was sorted
      is sorted again; a graph is sorted only if it was not marked as sorted. */
  method ExpandSymmetric<V(0)>(ranks: seq<LocalMatrix<V>>, dist: seq<int>, base: int, isMatrix: bool)
    requires Distinct(ranks) && SameFlags(ranks) && Splits(Parts(ranks), dist, base) && InMatrix(Parts(ranks))
    requires forall p :: 0 <= p < |ranks| ==> Holding(ranks[p], Parts(ranks), p, base)
    modifies ranks
    ensures forall p :: 0 <= p < |ranks| ==> ranks[p].expanded && Holding(ranks[p], Parts(ranks), p, base)
    ensures old(ranks[0].expanded) ==> Parts(ranks) == old(Parts(ranks))
    ensures !old(ranks[0].expanded) && old(ranks[0].sorted) != isMatrix ==> Flat(Parts(ranks)) == Expanded(old(Flat(Parts(ranks))))
    ensures !old(ranks[0].expanded) && old(ranks[0].sorted) == isMatrix ==>
              AllRearranged(Expanded(old(Flat(Parts(ranks)))), Flat(Parts(ranks)), |Flat(Parts(ranks))|)
  {
    if !ranks[0].expanded {
      ghost var parts := Parts(ranks);
      MirrorsLand(parts);
      SplitsDistribution(parts, dist, base);
      var bufs, counts := SendAll(ranks, dist, base, Mirror<V>, parts, |Flat(parts)|);
      ghost var grown := AllGrown(parts, dist, base);
      var recvs := DeliverAll(bufs, counts, SentBy(parts, Mirror<V>), dist, base);
      forall p {:trigger recvs[p]} | 0 <= p < |ranks|
        ensures Due(recvs[p], parts, grown, p)
      {
        AllDue(recvs, parts, dist, base, p);
      }
      ReceiveAll(ranks, recvs, base, parts, grown, ranks[0].sorted);
      PartsHolding(ranks, grown, base);
      DistributedExpansion(parts, dist, base, grown);
      if ranks[0].sorted == isMatrix {
        SortAll(ranks, base, grown);
      }
    }
  }

  // ---------------------------------------------------------------------------------------------
  // Permutation on all ranks
  // ---------------------------------------------------------------------------------------------

  /** Every vertex of the n has its new position among them; an empty invp leaves all where they are. */
  ghost predicate PositionsBelow(invp: seq<nat>, n: nat) {
    forall v :: 0 <= v < n ==> New(invp, v) < n
  }

  lemma MovesLand<V>(parts: seq<seq<seq<Entry<V>>>>, invp: seq<nat>, keepDiag: bool, expanded: bool)
    requires InMatrix(parts) && PositionsBelow(invp, |Flat(parts)|)
    ensures Lands(Flat(SentBy(parts, Move<V>(invp, keepDiag, expanded))), |Flat(parts)|)
  {
    var route := Move<V>(invp, keepDiag, expanded);
    SentByAll<V>(parts, route);
    forall t | t in Flat(SentBy(parts, route))
      ensures t.col < |Flat(parts)|
    {
      var c, e := SentFrom(Flat(parts), 0, route, t);
      assert e in Flat(parts)[c];
      assert New(invp, c) < |Flat(parts)| && New(invp, e.row) < |Flat(parts)|;
    }
  }

  ghost predicate Ascending(newDist: seq<int>, base: int) {
    && |newDist| >= 1 && newDist[0] == base
    && forall p, q :: 0 <= p <= q < |newDist| ==> newDist[p] <= newDist[q]
  }

  /** What rank p of the new distribution assembles. */
  ghost function ArrivedIn<V>(sent: seq<Triplet<V>>, newDist: seq<int>, base: int, p: nat): (r: seq<seq<Entry<V>>>)
    requires Ascending(newDist, base) && p + 1 < |newDist|
    ensures |r| == newDist[p + 1] - newDist[p]
  {
    ArrivedAll(Bucket(sent, ByOwner(newDist, base), p), newDist[p] - base, newDist[p + 1] - newDist[p])
  }

  ghost function AllArrived<V>(sent: seq<Triplet<V>>, newDist: seq<int>, base: int): (r: seq<seq<seq<Entry<V>>>>)
    requires Ascending(newDist, base)
    ensures |r| == |newDist| - 1
  {
    seq(|newDist| - 1, p requires 0 <= p < |newDist| - 1 => ArrivedIn(sent, newDist, base, p))
  }

  lemma {:induction false} ArrivedStarts<V>(sent: seq<Triplet<V>>, newDist: seq<int>, base: int, i: nat)
    requires |newDist| > i && Ascending(newDist, base)
    ensures Start(AllArrived(sent, newDist, base), i) == newDist[i] - base
  {
    if i > 0 {
      ArrivedStarts(sent, newDist, base, i - 1);
    }
  }

  lemma ArrivedAssembled<V>(sent: seq<Triplet<V>>, newDist: seq<int>, base: int, p: nat)
    requires Ascending(newDist, base) && p + 1 < |newDist|
    ensures Assembled(AllArrived(sent, newDist, base), newDist, base, sent, p)
  {
    ArrivedStarts(sent, newDist, base, p);
    assert AllArrived(sent, newDist, base)[p] == ArrivedIn(sent, newDist, base, p);
  }

  lemma ArrivedSplits<V>(sent: seq<Triplet<V>>, newDist: seq<int>, base: int, n: nat)
    requires Ascending(newDist, base) && Distribution(newDist, base, n) && |newDist| >= 2
    ensures Splits(AllArrived(sent, newDist, base), newDist, base) && |Flat(AllArrived(sent, newDist, base))| == n
  {
    var after := AllArrived(sent, newDist, base);
    forall p {:trigger newDist[p]} | 0 <= p < |newDist|
      ensures newDist[p] == base + Start(after, p)
    {
      ArrivedStarts(sent, newDist, base, p);
    }
    FlatLength(after);
  }

  /** What rank p received belongs to its new range, and it assembles after[p] from it. */
  ghost predicate DueColumns<V>(recv: seq<Triplet<V>>, newDist: seq<int>, base: int, after: seq<seq<seq<Entry<V>>>>, p: nat)
    requires p + 1 < |newDist| == |after| + 1
  {
    && base <= newDist[p] <= newDist[p + 1] && Start(after, p) == newDist[p] - base
    && Local(recv, newDist[p] - base, newDist[p + 1] - newDist[p])
    && after[p] == ArrivedAll(recv, newDist[p] - base, newDist[p + 1] - newDist[p])
  }

  lemma AllDueColumns<V>(sent: seq<Triplet<V>>, newDist: seq<int>, base: int, n: nat, p: nat)
    requires Ascending(newDist, base) && Distribution(newDist, base, n) && p + 1 < |newDist| && Lands(sent, n)
    ensures DueColumns(Bucket(sent, ByOwner(newDist, base), p), newDist, base, AllArrived(sent, newDist, base), p)
  {
    ArrivedStarts(sent, newDist, base, p);
    assert AllArrived(sent, newDist, base)[p] == ArrivedIn(sent, newDist, base, p);
    assert base == newDist[0] <= newDist[p] <= newDist[p + 1];
    BucketLocal(sent, n, newDist, base, p, newDist[p] - base, newDist[p + 1] - newDist[p]);
  }

  method ReceiveColumnsAll<V(0)>(ranks: seq<LocalMatrix<V>>, recvs: seq<seq<Triplet<V>>>, newDist: seq<int>,
                                 base: int, ghost after: seq<seq<seq<Entry<V>>>>)
    requires Distinct(ranks) && |ranks| + 1 == |newDist| == |after| + 1 == |recvs| + 1
    requires forall p {:trigger recvs[p]} :: 0 <= p < |ranks| ==> DueColumns(recvs[p], newDist, base, after, p)
    requires forall p {:trigger ranks[p]} :: 0 <= p < |ranks| ==> ranks[p].Based(base)
    modifies ranks
    ensures forall p {:trigger ranks[p]} :: 0 <= p < |ranks| ==> Holding(ranks[p], after, p, base)
    ensures forall p {:trigger ranks[p]} :: 0 <= p < |ranks| ==> ranks[p].Flags() == old(ranks[p].Flags())
  {
    for p := 0 to |ranks|
      modifies ranks
      invariant forall q {:trigger ranks[q]} :: 0 <= q < |ranks| ==> ranks[q].Based(base) && ranks[q].Flags() == old(ranks[q].Flags())
      invariant forall q {:trigger ranks[q]} :: 0 <= q < p ==> Holding(ranks[q], after, q, base)
    {
      assert DueColumns(recvs[p], newDist, base, after, p);
      ranks[p].ReceiveColumns(recvs[p], newDist[p] - base, newDist[p + 1] - newDist[p]);
    }
  }

  /** The permutation on all ranks together: whatever the distribution before and after, the ranks end up with
      the columns that one rank would have computed, sorted if they were sorted before. */
  method Permute<V(0)>(ranks: seq<LocalMatrix<V>>, dist: seq<int>, newDist: seq<int>, base: int, invp: seq<nat>)
    requires Distinct(ranks) && SameFlags(ranks) && Splits(Parts(ranks), dist, base) && InMatrix(Parts(ranks))
    requires forall p :: 0 <= p < |ranks| ==> Holding(ranks[p], Parts(ranks), p, base)
    requires |newDist| == |ranks| + 1 && Distribution(newDist, base, |Flat(Parts(ranks))|)
    requires PositionsBelow(invp, |Flat(Parts(ranks))|)
    modifies ranks
    ensures forall p :: 0 <= p < |ranks| ==> Holding(ranks[p], Parts(ranks), p, base)
    ensures var keepDiag, expanded := old(ranks[0].keepDiag), old(ranks[0].expanded);
            var onOneRank := Permuted(old(Flat(Parts(ranks))), invp, keepDiag, expanded);
            if old(ranks[0].sorted) then AllRearranged(onOneRank, Flat(Parts(ranks)), |onOneRank|)
            else Flat(Parts(ranks)) == onOneRank
  {
    ghost var parts := Parts(ranks);
    var route := Move<V>(invp, ranks[0].keepDiag, ranks[0].expanded);
    ghost var lists := SentBy(parts, route);
    MovesLand(parts, invp, ranks[0].keepDiag, ranks[0].expanded);
    var bufs, counts := SendAll(ranks, newDist, base, route, parts, |Flat(parts)|);
    forall p | 0 <= p < |ranks|
      ensures ranks[p].Based(base)
    {
      assert Holding(ranks[p], parts, p, base);
    }
    assert Ascending(newDist, base);
    ghost var after := AllArrived(Flat(lists), newDist, base);
    var recvs := DeliverAll(bufs, counts, lists, newDist, base);
    forall p {:trigger recvs[p]} | 0 <= p < |ranks|
      ensures DueColumns(recvs[p], newDist, base, after, p)
    {
      AllDueColumns(Flat(lists), newDist, base, |Flat(parts)|, p);
    }
    ReceiveColumnsAll(ranks, recvs, newDist, base, after);
    PartsHolding(ranks, after, base);
    ArrivedSplits(Flat(lists), newDist, base, |Flat(parts)|);
    forall p | 0 <= p < |after|
      ensures Assembled(after, newDist, base, Flat(lists), p)
    {
      ArrivedAssembled(Flat(lists), newDist, base, p);
    }
    DistributedPermutation(parts, after, newDist, base, invp, ranks[0].keepDiag, ranks[0].expanded);
    if ranks[0].sorted {
      SortAll(ranks, base, after);
    }
  }
}
