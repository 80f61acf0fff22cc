/** Expansion of lower storage to both triangles, and the way back: what the in-place passes compute, and why
    every distribution over ranks computes the same. */
module Expansion {
  import opened Segments
  import opened DistMatrix
  import opened Assembly

  /** An entry strictly below the diagonal is sent to the owner of its row, transposed. */
  function Mirror<V>(c: nat, e: Entry<V>): Option<Triplet<V>> {
    if e.row > c then Some(Triplet(c, e.row, e.val)) else None
  }

  function Mirrors<V>(cols: seq<seq<Entry<V>>>, first: nat): seq<Triplet<V>> {
    Sent(cols, first, Mirror)
  }

  /** The result on one rank. */
  function Expanded<V>(cols: seq<seq<Entry<V>>>): (r: seq<seq<Entry<V>>>)
    ensures |r| == |cols|
  {
    GrownAll(cols, Mirrors(cols, 0), 0)
  }

  // ---------------------------------------------------------------------------------------------
  // Any distribution gives the one-rank result
  // ---------------------------------------------------------------------------------------------

  lemma {:induction false} SentConcat<V>(a: seq<seq<Entry<V>>>, b: seq<seq<Entry<V>>>, first: nat, route: Route<V>)
    ensures Sent(a + b, first, route) == Sent(a, first, route) + Sent(b, first + |a|, route)
  {
    if b == [] {
      assert a + b == a;
    } else {
      var n := |b| - 1;
      assert (a + b)[..|a + b| - 1] == a + b[..n];
      SentConcat(a, b[..n], first, route);
      Associative(Sent(a, first, route), Sent(b[..n], first + |a|, route), SentColumn(b[n], first + |a| + n, route));
    }
  }

  lemma {:induction false} SentColumnFrom<V>(col: seq<Entry<V>>, c: nat, route: Route<V>, t: Triplet<V>) returns (e: Entry<V>)
    requires t in SentColumn(col, c, route)
    ensures e in col && route(c, e) == Some(t)
  {
    var n := |col| - 1;
    if route(c, col[n]) == Some(t) {
      e := col[n];
    } else {
      e := SentColumnFrom(col[..n], c, route, t);
    }
  }

  /** Everything sent comes from a stored entry. */
  lemma {:induction false} SentFrom<V>(cols: seq<seq<Entry<V>>>, first: nat, route: Route<V>, t: Triplet<V>) returns (c: nat, e: Entry<V>)
    requires t in Sent(cols, first, route)
    ensures c < |cols| && e in cols[c] && route(first + c, e) == Some(t)
  {
    var n := |cols| - 1;
    if t in SentColumn(cols[n], first + n, route) {
      c := n;
      e := SentColumnFrom(cols[n], first + n, route, t);
    } else {
      c, e := SentFrom(cols[..n], first, route, t);
    }
  }

  /** What each rank sends, in rank order. */
  ghost function SentBy<V>(parts: seq<seq<seq<Entry<V>>>>, route: Route<V>): (r: seq<seq<Triplet<V>>>)
    ensures |r| == |parts|
  {
    seq(|parts|, p requires 0 <= p < |parts| => Sent(parts[p], Start(parts, p), route))
  }

  lemma SentByNext<V>(parts: seq<seq<seq<Entry<V>>>>, route: Route<V>, n: nat)
    requires n < |parts|
    ensures Sent(Flat(parts[..n + 1]), 0, route) == Sent(Flat(parts[..n]), 0, route) + SentBy(parts, route)[n]
  {
    FlatOne(parts, n);
    FlatPrefixLength(parts, n);
    SentConcat(Flat(parts[..n]), parts[n], 0, route);
  }

  lemma {:induction false} SentByFirst<V>(parts: seq<seq<seq<Entry<V>>>>, route: Route<V>, n: nat)
    requires n <= |parts|
    ensures Flat(SentBy(parts, route)[..n]) == Sent(Flat(parts[..n]), 0, route)
  {
    if n > 0 {
      SentByFirst(parts, route, n - 1);
      SentByNext(parts, route, n - 1);
      FlatOne(SentBy(parts, route), n - 1);
    }
  }

  lemma SentByAll<V>(parts: seq<seq<seq<Entry<V>>>>, route: Route<V>)
    ensures Flat(SentBy(parts, route)) == Sent(Flat(parts), 0, route)
  {
    SentByFirst(parts, route, |parts|);
    assert SentBy(parts, route)[..|parts|] == SentBy(parts, route) && parts[..|parts|] == parts;
  }

  lemma {:induction false} ArrivedInBucket<V>(s: seq<Triplet<V>>, dest: Triplet<V> -> nat, p: nat, c: nat)
    requires forall t <- s :: t.col == c ==> dest(t) == p
    ensures Arrived(Bucket(s, dest, p), c) == Arrived(s, c)
  {
    if s != [] {
      var n := |s| - 1;
      ArrivedInBucket(s[..n], dest, p, c);
      assert s[n] in s;
      var front := Bucket(s[..n], dest, p);
      assert (front + [s[n]])[..|front|] == front;
    }
  }

  /** dist gives rank p as many columns as parts[p] has. */
  ghost predicate Splits<V>(parts: seq<seq<seq<Entry<V>>>>, dist: seq<int>, base: int) {
    && |dist| == |parts| + 1 && parts != []
    && forall p {:trigger dist[p]} :: 0 <= p <= |parts| ==> dist[p] == base + Start(parts, p)
  }

  lemma SplitsDistribution<V>(parts: seq<seq<seq<Entry<V>>>>, dist: seq<int>, base: int)
    requires Splits(parts, dist, base)
    ensures Distribution(dist, base, |Flat(parts)|)
  {
    FlatLength(parts);
    forall p, q | 0 <= p <= q < |dist|
      ensures dist[p] <= dist[q]
    {
      if p < q {
        StartMonotone(parts, p, q);
      }
    }
  }

  lemma ArrivedAtOwner<V>(parts: seq<seq<seq<Entry<V>>>>, dist: seq<int>, base: int, sent: seq<Triplet<V>>, p: nat, c: nat)
    requires Splits(parts, dist, base) && p < |parts| && Start(parts, p) <= c < Start(parts, p) + |parts[p]|
    ensures Arrived(Bucket(sent, ByOwner(dist, base), p), c) == Arrived(sent, c)
  {
    SplitsDistribution(parts, dist, base);
    assert dist[p] - base <= c < dist[p + 1] - base;
    OwnerUnique(dist, base, |Flat(parts)|, c, p);
    ArrivedInBucket(sent, ByOwner(dist, base), p, c);
  }

  /** The columns of rank p after the exchange. */
  ghost function GrownAt<V>(parts: seq<seq<seq<Entry<V>>>>, dist: seq<int>, base: int, sent: seq<Triplet<V>>, p: nat): seq<seq<Entry<V>>>
    requires |dist| == |parts| + 1 && p < |parts|
  {
    GrownAll(parts[p], Bucket(sent, ByOwner(dist, base), p), Start(parts, p))
  }

  lemma GrownAtOwner<V>(parts: seq<seq<seq<Entry<V>>>>, dist: seq<int>, base: int, sent: seq<Triplet<V>>, p: nat)
    requires Splits(parts, dist, base) && p < |parts|
    ensures GrownAt(parts, dist, base, sent, p) == GrownAll(parts[p], sent, Start(parts, p))
  {
    var a, b := GrownAt(parts, dist, base, sent, p), GrownAll(parts[p], sent, Start(parts, p));
    forall c {:trigger a[c]} | 0 <= c < |parts[p]|
      ensures a[c] == b[c]
    {
      ArrivedAtOwner(parts, dist, base, sent, p, Start(parts, p) + c);
    }
  }

  lemma GrownConcat<V>(a: seq<seq<Entry<V>>>, b: seq<seq<Entry<V>>>, recv: seq<Triplet<V>>, first: nat)
    ensures GrownAll(a + b, recv, first) == GrownAll(a, recv, first) + GrownAll(b, recv, first + |a|)
  {
    forall c | 0 <= c < |a + b|
      ensures GrownAll(a + b, recv, first)[c] == (GrownAll(a, recv, first) + GrownAll(b, recv, first + |a|))[c]
    {
    }
  }

  lemma GrownNext<V>(parts: seq<seq<seq<Entry<V>>>>, sent: seq<Triplet<V>>, n: nat)
    requires n < |parts|
    ensures GrownAll(Flat(parts[..n + 1]), sent, 0)
         == GrownAll(Flat(parts[..n]), sent, 0) + GrownAll(parts[n], sent, Start(parts, n))
  {
    FlatOne(parts, n);
    FlatPrefixLength(parts, n);
    GrownConcat(Flat(parts[..n]), parts[n], sent, 0);
  }

  lemma {:induction false} GrownParts<V>(parts: seq<seq<seq<Entry<V>>>>, after: seq<seq<seq<Entry<V>>>>, sent: seq<Triplet<V>>, n: nat)
    requires n <= |parts| == |after|
    requires forall p :: 0 <= p < n ==> after[p] == GrownAll(parts[p], sent, Start(parts, p))
    ensures Flat(after[..n]) == GrownAll(Flat(parts[..n]), sent, 0)
  {
    if n > 0 {
      GrownParts(parts, after, sent, n - 1);
      FlatOne(after, n - 1);
      GrownNext(parts, sent, n - 1);
    }
  }

  /** Whatever the number of ranks and the distribution, the ranks' results side by side are the result of
      one rank holding all columns. */
  lemma DistributedExpansion<V>(parts: seq<seq<seq<Entry<V>>>>, dist: seq<int>, base: int, after: seq<seq<seq<Entry<V>>>>)
    requires Splits(parts, dist, base) && |after| == |parts|
    requires forall p :: 0 <= p < |parts| ==> after[p] == GrownAt(parts, dist, base, Flat(SentBy(parts, Mirror)), p)
    ensures Flat(after) == Expanded(Flat(parts))
  {
    var sent := Flat(SentBy(parts, Mirror));
    SentByAll<V>(parts, Mirror);
    forall p | 0 <= p < |parts|
      ensures after[p] == GrownAll(parts[p], sent, Start(parts, p))
    {
      GrownAtOwner(parts, dist, base, sent, p);
    }
    GrownParts(parts, after, sent, |parts|);
    assert after[..|parts|] == after && parts[..|parts|] == parts;
  }

  // ---------------------------------------------------------------------------------------------
  // What the expansion means
  // ---------------------------------------------------------------------------------------------

  /** The values a column stores for a row, in order. */
  function Values<V>(col: seq<Entry<V>>, r: nat): seq<V> {
    if col == [] then []
    else
      var front, e := Values(col[..|col| - 1], r), col[|col| - 1];
      if e.row == r then front + [e.val] else front
  }

  lemma {:induction false} ValuesConcat<V>(a: seq<Entry<V>>, b: seq<Entry<V>>, r: nat)
    ensures Values(a + b, r) == Values(a, r) + Values(b, r)
  {
    if b == [] {
      assert a + b == a;
    } else {
      assert (a + b)[..|a + b| - 1] == a + b[..|b| - 1];
      ValuesConcat(a, b[..|b| - 1], r);
    }
  }

  lemma ReversedOne<T>(s: seq<T>, x: T)
    ensures Reversed(s + [x]) == [x] + Reversed(s)
  {
    assert (s + [x])[..|s|] == s;
  }

  lemma {:induction false} ValuesReversed<V>(col: seq<Entry<V>>, r: nat)
    ensures Values(Reversed(col), r) == Reversed(Values(col, r))
  {
    if col != [] {
      var front, e := col[..|col| - 1], col[|col| - 1];
      ValuesReversed(front, r);
      ValuesConcat([e], Reversed(front), r);
      assert [e][..0] == [];
      if e.row == r {
        ReversedOne(Values(front, r), e.val);
        assert Values([e], r) == [e.val];
      } else {
        assert Values([e], r) == [];
      }
    }
  }

  lemma {:induction false} ArrivedConcat<V>(a: seq<Triplet<V>>, b: seq<Triplet<V>>, c: nat)
    ensures Arrived(a + b, c) == Arrived(a, c) + Arrived(b, c)
  {
    if b == [] {
      assert a + b == a;
    } else {
      assert (a + b)[..|a + b| - 1] == a + b[..|b| - 1];
      ArrivedConcat(a, b[..|b| - 1], c);
    }
  }

  /** Column n contributes to column c > n, as row n, the values it stores for row c. */
  lemma {:induction false} ColumnArrives<V>(col: seq<Entry<V>>, n: nat, c: nat, r: nat)
    ensures Values(Arrived(SentColumn(col, n, Mirror), c), r) == if r == n < c then Values(col, c) else []
  {
    if col != [] {
      var front, e := col[..|col| - 1], col[|col| - 1];
      var sent := SentColumn(front, n, Mirror);
      ColumnArrives(front, n, c, r);
      if e.row > n {
        var t := Triplet(n, e.row, e.val);
        assert (sent + [t])[..|sent|] == sent;
        var got := Arrived(sent, c);
        assert (got + [Entry(n, e.val)])[..|got|] == got;
      }
    }
  }

  /** Column c receives, as row r < c, exactly the values column r stores for row c. */
  lemma {:induction false} MirrorsArrive<V>(cols: seq<seq<Entry<V>>>, c: nat, r: nat)
    ensures Values(Arrived(Mirrors(cols, 0), c), r) == if r < |cols| && r < c then Values(cols[r], c) else []
  {
    if cols != [] {
      var n := |cols| - 1;
      MirrorsArrive(cols[..n], c, r);
      var front, last := Mirrors(cols[..n], 0), SentColumn(cols[n], n, Mirror);
      ArrivedConcat(front, last, c);
      ValuesConcat(Arrived(front, c), Arrived(last, c), r);
      ColumnArrives(cols[n], n, c, r);
    }
  }

  /** Only entries on or below the diagonal. */
  ghost predicate Lower<V>(cols: seq<seq<Entry<V>>>) {
    forall c, e {:trigger e in cols[c]} :: 0 <= c < |cols| && e in cols[c] ==> c <= e.row
  }

  lemma {:induction false} NoValues<V>(col: seq<Entry<V>>, r: nat)
    requires forall e <- col :: e.row != r
    ensures Values(col, r) == []
  {
    if col != [] {
      assert col[|col| - 1] in col;
      NoValues(col[..|col| - 1], r);
    }
  }

  /** From lower storage: on and below the diagonal every column keeps exactly its values; above it, position
      (r, c) holds exactly the values of position (c, r), last one first.  So every entry strictly below the
      diagonal gains exactly one mirror image and none is lost. */
  lemma ExpandedValues<V>(cols: seq<seq<Entry<V>>>, c: nat, r: nat)
    requires Lower(cols) && c < |cols|
    ensures Values(Expanded(cols)[c], r) == if r < c then Reversed(Values(cols[r], c)) else Values(cols[c], r)
  {
    var got := Arrived(Mirrors(cols, 0), c);
    ValuesConcat(Reversed(got), cols[c], r);
    ValuesReversed(got, r);
    MirrorsArrive(cols, c, r);
    if r < c {
      NoValues(cols[c], r);
    }
  }

  lemma {:induction false} ReversedTwice<T>(s: seq<T>)
    ensures Reversed(Reversed(s)) == s
  {
    if s != [] {
      var front, x := s[..|s| - 1], s[|s| - 1];
      ReversedTwice(front);
      ReversedConcat([x], Reversed(front));
      assert Reversed([x]) == [x];
    }
  }

  lemma {:induction false} ReversedConcat<T>(a: seq<T>, b: seq<T>)
    ensures Reversed(a + b) == Reversed(b) + Reversed(a)
  {
    if b == [] {
      assert a + b == a;
    } else {
      assert (a + b)[..|a + b| - 1] == a + b[..|b| - 1];
      ReversedConcat(a, b[..|b| - 1]);
    }
  }

  /** The expanded matrix is symmetric. */
  lemma ExpandedSymmetric<V>(cols: seq<seq<Entry<V>>>, c: nat, r: nat)
    requires Lower(cols) && c < |cols| && r < |cols| && r != c
    ensures Values(Expanded(cols)[c], r) == Reversed(Values(Expanded(cols)[r], c))
  {
    ExpandedValues(cols, c, r);
    ExpandedValues(cols, r, c);
    if r > c {
      ReversedTwice(Values(cols[c], r));
    }
  }

  // ---------------------------------------------------------------------------------------------
  // And back
  // ---------------------------------------------------------------------------------------------

  /** The entries of column c that lie below the diagonal, and those on it if `diag`. */
  function Kept<V>(col: seq<Entry<V>>, c: nat, diag: bool): seq<Entry<V>> {
    if col == [] then []
    else
      var front, e := Kept(col[..|col| - 1], c, diag), col[|col| - 1];
      if e.row > c || (diag && e.row == c) then front + [e] else front
  }

  function KeptAll<V>(cols: seq<seq<Entry<V>>>, first: nat, diag: bool): (r: seq<seq<Entry<V>>>)
    ensures |r| == |cols|
  {
    seq(|cols|, c requires 0 <= c < |cols| => Kept(cols[c], first + c, diag))
  }

  lemma {:induction false} KeptConcat<V>(a: seq<Entry<V>>, b: seq<Entry<V>>, c: nat, diag: bool)
    ensures Kept(a + b, c, diag) == Kept(a, c, diag) + Kept(b, c, diag)
  {
    if b == [] {
      assert a + b == a;
    } else {
      assert (a + b)[..|a + b| - 1] == a + b[..|b| - 1];
      KeptConcat(a, b[..|b| - 1], c, diag);
    }
  }

  lemma {:induction false} KeptAllOf<V>(col: seq<Entry<V>>, c: nat)
    requires forall e <- col :: e.row >= c
    ensures Kept(col, c, true) == col
  {
    if col != [] {
      assert col[|col| - 1] in col;
      KeptAllOf(col[..|col| - 1], c);
    }
  }

  lemma {:induction false} KeptNone<V>(col: seq<Entry<V>>, c: nat, diag: bool)
    requires forall e <- col :: e.row < c
    ensures Kept(col, c, diag) == []
  {
    if col != [] {
      assert col[|col| - 1] in col;
      KeptNone(col[..|col| - 1], c, diag);
    }
  }

  lemma {:induction false} ReversedMembers<T>(s: seq<T>, x: T)
    ensures x in Reversed(s) <==> x in s
  {
    if s != [] {
      ReversedMembers(s[..|s| - 1], x);
      assert s == s[..|s| - 1] + [s[|s| - 1]];
    }
  }

  lemma {:induction false} ValuesMember<V>(col: seq<Entry<V>>, e: Entry<V>)
    requires e in col
    ensures Values(col, e.row) != []
  {
    if e != col[|col| - 1] {
      ValuesMember(col[..|col| - 1], e);
    }
  }

  lemma ArrivalsAbove<V>(cols: seq<seq<Entry<V>>>, c: nat, e: Entry<V>)
    requires e in Arrived(Mirrors(cols, 0), c)
    ensures e.row < c
  {
    MirrorsArrive(cols, c, e.row);
    ValuesMember(Arrived(Mirrors(cols, 0), c), e);
  }

  lemma RoundTripColumn<V>(cols: seq<seq<Entry<V>>>, c: nat)
    requires Lower(cols) && c < |cols|
    ensures Kept(Expanded(cols)[c], c, true) == cols[c]
  {
    var got := Arrived(Mirrors(cols, 0), c);
    KeptConcat(Reversed(got), cols[c], c, true);
    forall e | e in Reversed(got)
      ensures e.row < c
    {
      ReversedMembers(got, e);
      ArrivalsAbove(cols, c, e);
    }
    KeptNone(Reversed(got), c, true);
    KeptAllOf(cols[c], c);
  }

  /** Dropping the upper triangle of the expanded columns restores the lower storage, entry by entry. */
  lemma RoundTrip<V>(cols: seq<seq<Entry<V>>>)
    requires Lower(cols)
    ensures KeptAll(Expanded(cols), 0, true) == cols
  {
    forall c | 0 <= c < |cols|
      ensures KeptAll(Expanded(cols), 0, true)[c] == cols[c]
    {
      RoundTripColumn(cols, c);
    }
  }
}
