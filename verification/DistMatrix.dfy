/** Compressed-column storage of the columns one rank owns, and the passes over it that every graph and
    matrix transformation is made of: count and pack by destination rank, then either shift and unpack in
    place, or assemble from scratch. */
module DistMatrix {
  import opened Segments

  datatype Option<T> = None | Some(value: T)

  /** A stored entry of a column, with a 0-based row. */
  datatype Entry<V> = Entry(row: nat, val: V)

  /** An entry on its way to the rank that owns its column, 0-based. */
  datatype Triplet<V> = Triplet(row: nat, col: nat, val: V)

  // ---------------------------------------------------------------------------------------------
  // The storage
  // ---------------------------------------------------------------------------------------------

  ghost function Rows<V>(col: seq<Entry<V>>, base: int): (s: seq<int>)
    ensures |s| == |col|
  {
    seq(|col|, j requires 0 <= j < |col| => base + col[j].row)
  }

  ghost function Vals<V>(col: seq<Entry<V>>): (s: seq<V>)
    ensures |s| == |col|
  {
    seq(|col|, j requires 0 <= j < |col| => col[j].val)
  }

  /** The two parallel arrays hold the entries of `col` from position `at` on. */
  ghost predicate Stored<V>(rowind: seq<int>, nzval: seq<V>, base: int, at: nat, col: seq<Entry<V>>) {
    Holds(rowind, at, Rows(col, base)) && Holds(nzval, at, Vals(col))
  }

  /** colptr, rowind and nzval, all counted from `base`, hold the columns `cols` one after the other. */
  ghost predicate Represents<V>(base: int, colptr: seq<int>, rowind: seq<int>, nzval: seq<V>, cols: seq<seq<Entry<V>>>) {
    && |colptr| == |cols| + 1
    && (forall c {:trigger colptr[c]} :: 0 <= c <= |cols| ==> colptr[c] == base + Start(cols, c))
    && |rowind| == |nzval| == Start(cols, |cols|)
    && (forall c :: 0 <= c < |cols| ==> ColumnStored(rowind, nzval, base, cols, c))
  }

  ghost predicate ColumnStored<V>(rowind: seq<int>, nzval: seq<V>, base: int, cols: seq<seq<Entry<V>>>, c: nat)
    requires c < |cols|
  {
    Stored(rowind, nzval, base, Start(cols, c), cols[c])
  }

  lemma StoredEntry<V>(rowind: seq<int>, nzval: seq<V>, base: int, at: nat, col: seq<Entry<V>>, j: nat)
    requires Stored(rowind, nzval, base, at, col) && j < |col|
    ensures at + j < |rowind| && at + j < |nzval|
    ensures rowind[at + j] == base + col[j].row && nzval[at + j] == col[j].val
  {
    assert rowind[at..at + |col|][j] == Rows(col, base)[j];
    assert nzval[at..at + |col|][j] == Vals(col)[j];
  }

  // ---------------------------------------------------------------------------------------------
  // Owners
  // ---------------------------------------------------------------------------------------------

  /** dist[p] is the first column of rank p, counted from base; the last entry is one past the last column. */
  ghost predicate Distribution(dist: seq<int>, base: int, n: nat) {
    && |dist| >= 1 && dist[0] == base && dist[|dist| - 1] == base + n
    && forall p, q :: 0 <= p <= q < |dist| ==> dist[p] <= dist[q]
  }

  function Owner(dist: seq<int>, base: int, v: nat, p: nat): (r: nat)
    requires p < |dist|
    ensures p <= r < |dist|
    decreases |dist| - p
  {
    if p + 1 < |dist| && !(dist[p] - base <= v < dist[p + 1] - base) then Owner(dist, base, v, p + 1) else p
  }

  lemma {:induction false} OwnerOwns(dist: seq<int>, base: int, n: nat, v: nat, p: nat)
    requires Distribution(dist, base, n) && p < |dist| && dist[p] - base <= v < n
    ensures Owner(dist, base, v, p) + 1 < |dist|
    ensures dist[Owner(dist, base, v, p)] - base <= v < dist[Owner(dist, base, v, p) + 1] - base
    decreases |dist| - p
  {
    if p + 1 < |dist| && !(dist[p] - base <= v < dist[p + 1] - base) {
      OwnerOwns(dist, base, n, v, p + 1);
    }
  }

  /** The linear search finds the one rank whose range holds v. */
  lemma OwnerUnique(dist: seq<int>, base: int, n: nat, v: nat, p: nat)
    requires Distribution(dist, base, n) && p + 1 < |dist| && dist[p] - base <= v < dist[p + 1] - base
    ensures Owner(dist, base, v, 0) == p
  {
    OwnerOwns(dist, base, n, v, 0);
  }

  /** The first rank whose range holds v; the last place of dist if there is none. */
  method FindRank(dist: seq<int>, base: int, v: nat) returns (p: nat)
    requires |dist| >= 1
    ensures p < |dist| && (p + 1 < |dist| ==> dist[p] - base <= v < dist[p + 1] - base)
    ensures forall q :: 0 <= q < p ==> !(dist[q] - base <= v < dist[q + 1] - base)
    ensures p == Owner(dist, base, v, 0)
  {
    p := 0;
    while p + 1 < |dist| && !(dist[p] - base <= v < dist[p + 1] - base)
      invariant p < |dist| && Owner(dist, base, v, 0) == Owner(dist, base, v, p)
      invariant forall q :: 0 <= q < p ==> !(dist[q] - base <= v < dist[q + 1] - base)
    {
      p := p + 1;
    }
  }

  ghost function ByOwner<V>(dist: seq<int>, base: int): Triplet<V> -> nat
    requires |dist| >= 1
  {
    (t: Triplet<V>) => Owner(dist, base, t.col, 0)
  }

  // ---------------------------------------------------------------------------------------------
  // What a rank sends
  // ---------------------------------------------------------------------------------------------

  /** What becomes of an entry of column c: nothing, or one triplet to send. */
  type Route<!V> = (nat, Entry<V>) -> Option<Triplet<V>>

  function SentColumn<V>(col: seq<Entry<V>>, c: nat, route: Route<V>): seq<Triplet<V>> {
    if col == [] then []
    else
      var front := SentColumn(col[..|col| - 1], c, route);
      match route(c, col[|col| - 1])
      case None => front
      case Some(t) => front + [t]
  }

  /** Everything sent for the columns first, first + 1, ..., in storage order. */
  function Sent<V>(cols: seq<seq<Entry<V>>>, first: nat, route: Route<V>): seq<Triplet<V>> {
    if cols == [] then []
    else Sent(cols[..|cols| - 1], first, route) + SentColumn(cols[|cols| - 1], first + |cols| - 1, route)
  }

  lemma SentOne<V>(col: seq<Entry<V>>, c: nat, j: nat, route: Route<V>)
    requires j < |col|
    ensures SentColumn(col[..j + 1], c, route)
         == SentColumn(col[..j], c, route) + (match route(c, col[j]) case None => [] case Some(t) => [t])
  {
    assert col[..j + 1][..j] == col[..j];
  }

  lemma {:induction false} SentColumnPrefix<V>(col: seq<Entry<V>>, c: nat, j: nat, route: Route<V>)
    requires j <= |col|
    ensures SentColumn(col[..j], c, route) <= SentColumn(col, c, route)
    decreases |col| - j
  {
    if j == |col| {
      assert col[..j] == col;
    } else {
      SentColumnPrefix(col, c, j + 1, route);
      SentOne(col, c, j, route);
    }
  }

  lemma SentNext<V>(cols: seq<seq<Entry<V>>>, first: nat, i: nat, route: Route<V>)
    requires i < |cols|
    ensures Sent(cols[..i + 1], first, route) == Sent(cols[..i], first, route) + SentColumn(cols[i], first + i, route)
  {
    assert cols[..i + 1][..i] == cols[..i];
  }

  lemma {:induction false} SentPrefix<V>(cols: seq<seq<Entry<V>>>, first: nat, i: nat, route: Route<V>)
    requires i <= |cols|
    ensures Sent(cols[..i], first, route) <= Sent(cols, first, route)
    decreases |cols| - i
  {
    if i == |cols| {
      assert cols[..i] == cols;
    } else {
      SentPrefix(cols, first, i + 1, route);
      SentNext(cols, first, i, route);
    }
  }

  /** Everything sent has an owner. */
  ghost predicate Owned<V>(sent: seq<Triplet<V>>, dist: seq<int>, base: int) {
    && |dist| >= 1
    && forall t <- sent :: Owner(dist, base, t.col, 0) < |dist| - 1
  }

  /** sizes[p] elements of `done` go to rank p. */
  ghost predicate Counted<V>(sizes: seq<nat>, done: seq<Triplet<V>>, dist: seq<int>, base: int) {
    && |sizes| + 1 == |dist|
    && forall p {:trigger sizes[p]} :: 0 <= p < |sizes| ==> sizes[p] == |Bucket(done, ByOwner(dist, base), p)|
  }

  lemma CountOne<V>(sizes: seq<nat>, done: seq<Triplet<V>>, t: Triplet<V>, dist: seq<int>, base: int)
    requires Counted(sizes, done, dist, base) && Owner(dist, base, t.col, 0) < |sizes|
    ensures var p := Owner(dist, base, t.col, 0); Counted(sizes[p := sizes[p] + 1], done + [t], dist, base)
  {
    var q := Owner(dist, base, t.col, 0);
    var sizes' := sizes[q := sizes[q] + 1];
    forall p {:trigger sizes'[p]} | 0 <= p < |sizes|
      ensures sizes'[p] == |Bucket(done + [t], ByOwner(dist, base), p)|
    {
      BucketOne(done, t, ByOwner(dist, base), p);
    }
  }

  /** The count pass over one column. */
  method CountColumn<V>(base: int, rowind: seq<int>, nzval: seq<V>, colbeg: nat, colend: nat, c: nat, dist: seq<int>,
                        route: Route<V>, sizes0: seq<nat>, ghost before: seq<Triplet<V>>, ghost col: seq<Entry<V>>)
    returns (sizes: seq<nat>)
    requires Stored(rowind, nzval, base, colbeg, col) && colend == colbeg + |col|
    requires Counted(sizes0, before, dist, base) && Owned(SentColumn(col, c, route), dist, base)
    ensures Counted(sizes, before + SentColumn(col, c, route), dist, base)
  {
    sizes := sizes0;
    assert before + SentColumn(col[..0], c, route) == before;
    for k := colbeg to colend
      invariant Counted(sizes, before + SentColumn(col[..k - colbeg], c, route), dist, base)
    {
      ghost var j := k - colbeg;
      StoredEntry(rowind, nzval, base, colbeg, col, j);
      SentOne(col, c, j, route);
      SentColumnPrefix(col, c, j + 1, route);
      match route(c, Entry(rowind[k] - base, nzval[k])) {
        case None =>
          assert SentColumn(col[..j + 1], c, route) == SentColumn(col[..j], c, route);
        case Some(t) =>
          assert t in SentColumn(col[..j + 1], c, route);
          CountOne(sizes, before + SentColumn(col[..j], c, route), t, dist, base);
          assert before + SentColumn(col[..j], c, route) + [t] == before + SentColumn(col[..j + 1], c, route);
          var p := FindRank(dist, base, t.col);
          sizes := sizes[p := sizes[p] + 1];
      }
    }
    assert col[..|col|] == col;
  }

  lemma OwnedColumn<V>(cols: seq<seq<Entry<V>>>, first: nat, i: nat, route: Route<V>, dist: seq<int>, base: int)
    requires i < |cols| && Owned(Sent(cols, first, route), dist, base)
    ensures Owned(SentColumn(cols[i], first + i, route), dist, base)
  {
    SentNext(cols, first, i, route);
    SentPrefix(cols, first, i + 1, route);
    forall t | t in SentColumn(cols[i], first + i, route)
      ensures t in Sent(cols, first, route)
    {
      assert t in Sent(cols[..i + 1], first, route);
    }
  }

  lemma CountNone<V>(sizes: seq<nat>, dist: seq<int>, base: int)
    requires |sizes| + 1 == |dist| && forall p :: 0 <= p < |sizes| ==> sizes[p] == 0
    ensures Counted<V>(sizes, [], dist, base)
  {
  }

  lemma PassStep<V>(base: int, colptr: seq<int>, rowind: seq<int>, nzval: seq<V>, first: nat, dist: seq<int>,
                    route: Route<V>, cols: seq<seq<Entry<V>>>, i: nat)
    requires Represents(base, colptr, rowind, nzval, cols) && Owned(Sent(cols, first, route), dist, base) && i < |cols|
    ensures 0 <= colptr[i] - base && colptr[i + 1] - base == colptr[i] - base + |cols[i]|
    ensures Stored(rowind, nzval, base, colptr[i] - base, cols[i])
    ensures Owned(SentColumn(cols[i], first + i, route), dist, base)
    ensures Sent(cols[..i], first, route) + SentColumn(cols[i], first + i, route) == Sent(cols[..i + 1], first, route)
    ensures Sent(cols[..i + 1], first, route) <= Sent(cols, first, route)
  {
    assert ColumnStored(rowind, nzval, base, cols, i);
    OwnedColumn(cols, first, i, route, dist, base);
    SentNext(cols, first, i, route);
    SentPrefix(cols, first, i + 1, route);
  }

  /** The count pass. */
  method CountPass<V>(base: int, colptr: seq<int>, rowind: seq<int>, nzval: seq<V>, first: nat, dist: seq<int>,
                      route: Route<V>, ghost cols: seq<seq<Entry<V>>>) returns (sizes: seq<nat>)
    requires Represents(base, colptr, rowind, nzval, cols) && Owned(Sent(cols, first, route), dist, base)
    ensures Counted(sizes, Sent(cols, first, route), dist, base)
  {
    sizes := seq(|dist| - 1, _ => 0);
    CountNone<V>(sizes, dist, base);
    for i := 0 to |colptr| - 1
      invariant Counted(sizes, Sent(cols[..i], first, route), dist, base)
    {
      PassStep(base, colptr, rowind, nzval, first, dist, route, cols, i);
      sizes := CountColumn(base, rowind, nzval, colptr[i] - base, colptr[i + 1] - base, first + i, dist, route, sizes,
                           Sent(cols[..i], first, route), cols[i]);
    }
    assert cols[..|cols|] == cols;
  }

  /** sbuf is being filled: `done` is placed, cursor[p] is the next free slot of the part for rank p. */
  ghost predicate Packing<V>(sbuf: seq<Triplet<V>>, cursor: seq<int>, done: seq<Triplet<V>>, sent: seq<Triplet<V>>,
                             dist: seq<int>, base: int) {
    && |cursor| == |dist| >= 1
    && |sbuf| == Start(Buckets(sent, ByOwner<V>(dist, base), |dist| - 1), |dist| - 1)
    && forall p {:trigger cursor[p]} :: 0 <= p < |dist| - 1 ==>
         PackedAt(sbuf, cursor[p], done, sent, ByOwner<V>(dist, base), |dist| - 1, p)
  }

  ghost predicate PackedAt<V>(sbuf: seq<Triplet<V>>, free: int, done: seq<Triplet<V>>, sent: seq<Triplet<V>>,
                              dest: Triplet<V> -> nat, np: nat, p: nat)
    requires p < np
  {
    && free == Start(Buckets(sent, dest, np), p) + |Bucket(done, dest, p)|
    && Holds(sbuf, Start(Buckets(sent, dest, np), p), Bucket(done, dest, p))
  }

  /** The part for rank p has room for every prefix of what is sent, and ends before the next part begins. */
  lemma PartRoom<V>(done: seq<Triplet<V>>, sent: seq<Triplet<V>>, dest: Triplet<V> -> nat, np: nat, p: nat, q: nat)
    requires done <= sent && p < q <= np
    ensures Start(Buckets(sent, dest, np), p) + |Bucket(done, dest, p)| <= Start(Buckets(sent, dest, np), q)
  {
    BucketPrefix(done, sent, dest, p);
    StartMonotone(Buckets(sent, dest, np), p, q);
  }

  lemma PackOther<V>(sbuf: seq<Triplet<V>>, done: seq<Triplet<V>>, sent: seq<Triplet<V>>, t: Triplet<V>,
                     dest: Triplet<V> -> nat, np: nat, p: nat, at: nat)
    requires p < np && dest(t) < np && p != dest(t) && done + [t] <= sent
    requires at == Start(Buckets(sent, dest, np), dest(t)) + |Bucket(done, dest, dest(t))| < |sbuf|
    requires Holds(sbuf, Start(Buckets(sent, dest, np), p), Bucket(done, dest, p))
    ensures Holds(sbuf[at := t], Start(Buckets(sent, dest, np), p), Bucket(done + [t], dest, p))
  {
    BucketOne(done, t, dest, p);
    BucketOne(done, t, dest, dest(t));
    if p < dest(t) {
      PartRoom(done, sent, dest, np, p, dest(t));
    } else {
      PartRoom(done + [t], sent, dest, np, dest(t), p);
    }
    HoldsElsewhere(sbuf, Start(Buckets(sent, dest, np), p), Bucket(done, dest, p), at, t);
  }

  lemma PackHere<V>(sbuf: seq<Triplet<V>>, free: int, done: seq<Triplet<V>>, sent: seq<Triplet<V>>, t: Triplet<V>,
                    dest: Triplet<V> -> nat, np: nat)
    requires dest(t) < np && done + [t] <= sent && |sbuf| == Start(Buckets(sent, dest, np), np)
    requires PackedAt(sbuf, free, done, sent, dest, np, dest(t))
    ensures 0 <= free < |sbuf| && PackedAt(sbuf[free := t], free + 1, done + [t], sent, dest, np, dest(t))
  {
    BucketOne(done, t, dest, dest(t));
    PartRoom(done + [t], sent, dest, np, dest(t), np);
    HoldsAppend(sbuf, Start(Buckets(sent, dest, np), dest(t)), Bucket(done, dest, dest(t)), t);
  }

  lemma PackThere<V>(sbuf: seq<Triplet<V>>, free: int, done: seq<Triplet<V>>, sent: seq<Triplet<V>>, t: Triplet<V>,
                     dest: Triplet<V> -> nat, np: nat, p: nat, at: int)
    requires p < np && dest(t) < np && p != dest(t) && done + [t] <= sent && 0 <= at < |sbuf|
    requires PackedAt(sbuf, at, done, sent, dest, np, dest(t)) && PackedAt(sbuf, free, done, sent, dest, np, p)
    ensures PackedAt(sbuf[at := t], free, done + [t], sent, dest, np, p)
  {
    BucketOne(done, t, dest, p);
    PackOther(sbuf, done, sent, t, dest, np, p, at);
  }

  lemma PackOne<V>(sbuf: seq<Triplet<V>>, cursor: seq<int>, done: seq<Triplet<V>>, sent: seq<Triplet<V>>,
                   t: Triplet<V>, dist: seq<int>, base: int, q: nat)
    requires Packing(sbuf, cursor, done, sent, dist, base)
    requires q == Owner(dist, base, t.col, 0) < |dist| - 1 && done + [t] <= sent
    ensures 0 <= cursor[q] < |sbuf|
    ensures Packing(sbuf[cursor[q] := t], cursor[q := cursor[q] + 1], done + [t], sent, dist, base)
  {
    var dest, np := ByOwner<V>(dist, base), |dist| - 1;
    PackHere(sbuf, cursor[q], done, sent, t, dest, np);
    var at, cursor' := cursor[q], cursor[q := cursor[q] + 1];
    forall p {:trigger cursor'[p]} | 0 <= p < np
      ensures PackedAt(sbuf[at := t], cursor'[p], done + [t], sent, dest, np, p)
    {
      if p != q {
        PackThere(sbuf, cursor[p], done, sent, t, dest, np, p, at);
      }
    }
  }

  lemma PackNone<V>(sbuf: seq<Triplet<V>>, cursor: seq<int>, sizes: seq<nat>, sent: seq<Triplet<V>>, dist: seq<int>, base: int)
    requires Counted(sizes, sent, dist, base) && |cursor| == |dist|
    requires forall i :: 0 <= i <= |sizes| ==> cursor[i] == Total(sizes, i)
    requires |sbuf| == Total(sizes, |sizes|)
    ensures Packing(sbuf, cursor, [], sent, dist, base)
  {
    var dest, np := ByOwner<V>(dist, base), |dist| - 1;
    TotalIsStart(sizes, Buckets(sent, dest, np), np);
    forall p {:trigger cursor[p]} | 0 <= p < np
      ensures PackedAt(sbuf, cursor[p], [], sent, dest, np, p)
    {
      TotalIsStart(sizes, Buckets(sent, dest, np), p);
      TotalMonotone(sizes, p, np);
    }
  }

  lemma PackAll<V>(sbuf: seq<Triplet<V>>, cursor: seq<int>, sent: seq<Triplet<V>>, dist: seq<int>, base: int)
    requires Packing(sbuf, cursor, sent, sent, dist, base)
    ensures Laid(sbuf, Buckets(sent, ByOwner(dist, base), |dist| - 1))
  {
    var dest, np := ByOwner<V>(dist, base), |dist| - 1;
    var g := Buckets(sent, dest, np);
    forall p | 0 <= p < np
      ensures LaidAt(sbuf, g, p)
    {
      assert PackedAt(sbuf, cursor[p], sent, sent, dest, np, p);
    }
  }

  /** The packing pass over one column: it takes the same branches as the count pass, so every write lands in
      the part of its rank. */
  method PackColumn<V>(sbuf: array<Triplet<V>>, displs0: seq<int>, base: int, rowind: seq<int>, nzval: seq<V>,
                       colbeg: nat, colend: nat, c: nat, dist: seq<int>, route: Route<V>,
                       ghost before: seq<Triplet<V>>, ghost sent: seq<Triplet<V>>, ghost col: seq<Entry<V>>)
    returns (displs: seq<int>)
    requires Stored(rowind, nzval, base, colbeg, col) && colend == colbeg + |col|
    requires Packing(sbuf[..], displs0, before, sent, dist, base)
    requires before + SentColumn(col, c, route) <= sent && Owned(SentColumn(col, c, route), dist, base)
    modifies sbuf
    ensures Packing(sbuf[..], displs, before + SentColumn(col, c, route), sent, dist, base)
  {
    displs := displs0;
    assert before + SentColumn(col[..0], c, route) == before;
    for k := colbeg to colend
      invariant Packing(sbuf[..], displs, before + SentColumn(col[..k - colbeg], c, route), sent, dist, base)
    {
      ghost var j := k - colbeg;
      StoredEntry(rowind, nzval, base, colbeg, col, j);
      SentOne(col, c, j, route);
      SentColumnPrefix(col, c, j + 1, route);
      match route(c, Entry(rowind[k] - base, nzval[k])) {
        case None =>
          assert SentColumn(col[..j + 1], c, route) == SentColumn(col[..j], c, route);
        case Some(t) =>
          assert t in SentColumn(col[..j + 1], c, route);
          ghost var done := before + SentColumn(col[..j], c, route);
          assert done + [t] == before + SentColumn(col[..j + 1], c, route);
          PrefixOfPrefix(before, SentColumn(col[..j + 1], c, route), SentColumn(col, c, route), sent);
          var p := FindRank(dist, base, t.col);
          PackOne(sbuf[..], displs, done, sent, t, dist, base, p);
          ghost var was := sbuf[..];
          sbuf[displs[p]] := t;
          assert sbuf[..] == was[displs[p] := t];
          displs := displs[p := displs[p] + 1];
      }
    }
    assert col[..|col|] == col;
  }

  lemma PrefixOfPrefix<T>(a: seq<T>, b: seq<T>, b': seq<T>, all: seq<T>)
    requires b <= b' && a + b' <= all
    ensures a + b <= all
  {
  }

  /** The packing pass. */
  method PackPass<V>(sbuf: array<Triplet<V>>, displs0: seq<int>, base: int, colptr: seq<int>, rowind: seq<int>, nzval: seq<V>,
                     first: nat, dist: seq<int>, route: Route<V>, ghost cols: seq<seq<Entry<V>>>)
    requires Represents(base, colptr, rowind, nzval, cols) && Owned(Sent(cols, first, route), dist, base)
    requires Packing(sbuf[..], displs0, [], Sent(cols, first, route), dist, base)
    modifies sbuf
    ensures Laid(sbuf[..], Buckets(Sent(cols, first, route), ByOwner(dist, base), |dist| - 1))
  {
    var displs := displs0;
    for i := 0 to |colptr| - 1
      invariant Packing(sbuf[..], displs, Sent(cols[..i], first, route), Sent(cols, first, route), dist, base)
    {
      PassStep(base, colptr, rowind, nzval, first, dist, route, cols, i);
      displs := PackColumn(sbuf, displs, base, rowind, nzval, colptr[i] - base, colptr[i + 1] - base, first + i, dist,
                           route, Sent(cols[..i], first, route), Sent(cols, first, route), cols[i]);
    }
    assert cols[..|cols|] == cols;
    PackAll(sbuf[..], displs, Sent(cols, first, route), dist, base);
  }

  /** Count, sum up, and pack: the buffer holds one part per rank, in rank order, each in storage order. */
  method Pack<V(0)>(base: int, colptr: seq<int>, rowind: seq<int>, nzval: seq<V>, first: nat, dist: seq<int>,
                    route: Route<V>, ghost cols: seq<seq<Entry<V>>>) returns (sizes: seq<nat>, sbuf: array<Triplet<V>>)
    requires Represents(base, colptr, rowind, nzval, cols) && Owned(Sent(cols, first, route), dist, base)
    ensures Counted(sizes, Sent(cols, first, route), dist, base)
    ensures Laid(sbuf[..], Buckets(Sent(cols, first, route), ByOwner(dist, base), |dist| - 1))
    ensures fresh(sbuf)
  {
    sizes := CountPass(base, colptr, rowind, nzval, first, dist, route, cols);
    var displs := PartialSums(sizes, 0);
    sbuf := new Triplet<V>[displs[|sizes|]];
    PackNone(sbuf[..], displs, sizes, Sent(cols, first, route), dist, base);
    PackPass(sbuf, displs, base, colptr, rowind, nzval, first, dist, route, cols);
  }
}
