/** Gathering the distributed graph on every rank: the local pointers are put side by side and then shifted by
    the number of edges of the ranks before. */
module Gathering {
  import opened Segments
  import opened DistMatrix
  import opened Assembly
  import opened Restriction
  import opened Diagonal
  import opened Expansion
  import opened Permutation
  import opened Sorting
  import opened Ranks

  /** What one rank contributes. */
  datatype Part = Part(colptr: seq<int>, rowind: seq<int>)

  ghost predicate IsPart(g: Part, base: int, cols: seq<Column>) { GraphRepresents(base, g.colptr, g.rowind, cols) }

  /** From position `at` on, ptr holds the pointers of cols counted from base, without the final one. */
  ghost predicate Points(ptr: seq<int>, at: nat, cols: seq<Column>, base: int) {
    at + |cols| <= |ptr| && forall c :: 0 <= c < |cols| ==> PointsAt(ptr, at, cols, base, c)
  }

  ghost predicate PointsAt(ptr: seq<int>, at: nat, cols: seq<Column>, base: int, c: nat)
    requires c < |cols| && at + |cols| <= |ptr|
  {
    ptr[at + c] == base + Start(cols, c)
  }

  lemma {:induction false} StartConcat(a: seq<Column>, b: seq<Column>, i: nat)
    requires i <= |b|
    ensures Start(a + b, |a| + i) == Start(a, |a|) + Start(b, i)
  {
    if i == 0 {
      StartPrefix(a + b, a, |a|);
    } else {
      StartConcat(a, b, i - 1);
    }
  }

  /** Pointers of a followed by those of b, shifted by the entries of a, are the pointers of a + b. */
  lemma PointsConcat(ptr: seq<int>, a: seq<Column>, b: seq<Column>, base: int)
    requires Points(ptr, 0, a, base) && Points(ptr, |a|, b, base + Start(a, |a|))
    ensures Points(ptr, 0, a + b, base)
  {
    forall c | 0 <= c < |a + b|
      ensures PointsAt(ptr, 0, a + b, base, c)
    {
      if c < |a| {
        assert PointsAt(ptr, 0, a, base, c);
        assert (a + b)[..c] == a[..c];
        StartPrefix(a + b, a, c);
      } else {
        assert PointsAt(ptr, |a|, b, base + Start(a, |a|), c - |a|);
        StartConcat(a, b, c - |a|);
      }
    }
  }

  lemma PointsShift(ptr: seq<int>, r: seq<int>, at: nat, cols: seq<Column>, base: int, offset: int)
    requires Points(ptr, at, cols, base) && at + |cols| <= |r|
    requires forall k {:trigger r[k]} :: at <= k < at + |cols| ==> r[k] == ptr[k] + offset
    ensures Points(r, at, cols, base + offset)
  {
    var shifted := base + offset;
    forall c {:trigger PointsAt(r, at, cols, shifted, c)} | 0 <= c < |cols|
      ensures PointsAt(r, at, cols, shifted, c)
    {
      assert PointsAt(ptr, at, cols, base, c);
    }
  }

  lemma PointsKept(ptr: seq<int>, r: seq<int>, at: nat, cols: seq<Column>, base: int)
    requires Points(ptr, at, cols, base) && at + |cols| <= |r|
    requires forall k {:trigger r[k]} :: at <= k < at + |cols| ==> r[k] == ptr[k]
    ensures Points(r, at, cols, base)
  {
    PointsShift(ptr, r, at, cols, base, 0);
  }

  /** The pointers of one rank are shifted; all others stay. */
  method Shift(colptr: seq<int>, pos: nat, count: nat, offset: int) returns (r: seq<int>)
    requires pos + count <= |colptr|
    ensures |r| == |colptr|
    ensures forall k {:trigger r[k]} :: 0 <= k < |r| ==> r[k] == if pos <= k < pos + count then colptr[k] + offset else colptr[k]
  {
    r := colptr;
    for lv := 0 to count
      invariant |r| == |colptr|
      invariant forall k {:trigger r[k]} :: 0 <= k < |r| ==> r[k] == if pos <= k < pos + lv then colptr[k] + offset else colptr[k]
    {
      r := r[pos + lv := r[pos + lv] + offset];
    }
  }

  // ---------------------------------------------------------------------------------------------
  // The gather
  // ---------------------------------------------------------------------------------------------

  /** The pointers of rank q are in its place, counted from its own first edge. */
  ghost predicate Local(colptr: seq<int>, cols: seq<seq<Column>>, q: nat, base: int)
    requires q < |cols|
  {
    Points(colptr, Start(cols, q), cols[q], base)
  }

  lemma LocalKept(colptr: seq<int>, r: seq<int>, cols: seq<seq<Column>>, q: nat, base: int)
    requires q < |cols| && Local(colptr, cols, q, base) && |r| >= |colptr|
    requires forall k {:trigger r[k]} :: Start(cols, q) <= k < Start(cols, q) + |cols[q]| ==> r[k] == colptr[k]
    ensures Local(r, cols, q, base)
  {
    PointsKept(colptr, r, Start(cols, q), cols[q], base);
  }

  method Append(colptr: seq<int>, g: Part, base: int, ghost cols: seq<seq<Column>>, ghost p: nat) returns (r: seq<int>)
    requires p < |cols| && IsPart(g, base, cols[p]) && |colptr| == Start(cols, p)
    ensures |r| == Start(cols, p + 1) && Local(r, cols, p, base)
    ensures forall k {:trigger r[k]} :: 0 <= k < |colptr| ==> r[k] == colptr[k]
  {
    r := colptr + g.colptr[..|g.colptr| - 1];
    forall c | 0 <= c < |cols[p]|
      ensures PointsAt(r, |colptr|, cols[p], base, c)
    {
      assert g.colptr[c] == base + Start(cols[p], c);
    }
  }

  lemma AllLocalKept(colptr: seq<int>, r: seq<int>, cols: seq<seq<Column>>, n: nat, base: int)
    requires n <= |cols| && |colptr| == Start(cols, n) && |r| >= |colptr|
    requires forall k {:trigger r[k]} :: 0 <= k < |colptr| ==> r[k] == colptr[k]
    requires forall q :: 0 <= q < n ==> Local(colptr, cols, q, base)
    ensures forall q :: 0 <= q < n ==> Local(r, cols, q, base)
  {
    forall q | 0 <= q < n
      ensures Local(r, cols, q, base)
    {
      StartMonotone(cols, q, n);
      LocalKept(colptr, r, cols, q, base);
    }
  }

  /** MPI_Allgatherv of the local pointers, each without its final one, with room for one more. */
  method GatherPointers(parts: seq<Part>, base: int, ghost cols: seq<seq<Column>>) returns (colptr: seq<int>)
    requires |parts| == |cols| && forall p {:trigger parts[p]} :: 0 <= p < |parts| ==> IsPart(parts[p], base, cols[p])
    ensures |colptr| == Start(cols, |cols|) + 1
    ensures forall p :: 0 <= p < |cols| ==> Local(colptr, cols, p, base)
  {
    colptr := [];
    for p := 0 to |parts|
      invariant |colptr| == Start(cols, p)
      invariant forall q :: 0 <= q < p ==> Local(colptr, cols, q, base)
    {
      ghost var was := colptr;
      colptr := Append(colptr, parts[p], base, cols, p);
      AllLocalKept(was, colptr, cols, p, base);
    }
    AllLocalKept(colptr, colptr + [0], cols, |cols|, base);
    colptr := colptr + [0];
  }

  /** The pointers of the ranks before p count from the first edge of all, the others still from their own. */
  ghost predicate Fixed(colptr: seq<int>, cols: seq<seq<Column>>, base: int, p: nat)
    requires p <= |cols|
  {
    && |colptr| == Start(cols, |cols|) + 1
    && Points(colptr, 0, Flat(cols[..p]), base)
    && forall q :: p <= q < |cols| ==> Local(colptr, cols, q, base)
  }

  /** The number of edges of the ranks before p. */
  ghost function Edges(cols: seq<seq<Column>>, p: nat): nat
    requires p <= |cols|
  {
    Start(Flat(cols[..p]), |Flat(cols[..p])|)
  }

  lemma EdgesNext(cols: seq<seq<Column>>, p: nat)
    requires p < |cols|
    ensures Edges(cols, p + 1) == Edges(cols, p) + Start(cols[p], |cols[p]|)
  {
    FlatOne(cols, p);
    StartConcat(Flat(cols[..p]), cols[p], |cols[p]|);
  }

  lemma FixFront(colptr: seq<int>, r: seq<int>, cols: seq<seq<Column>>, base: int, p: nat)
    requires p < |cols| && |r| == |colptr| && Points(colptr, 0, Flat(cols[..p]), base) && Local(colptr, cols, p, base)
    requires forall k {:trigger r[k]} :: 0 <= k < |r| ==>
               r[k] == if Start(cols, p) <= k < Start(cols, p) + |cols[p]| then colptr[k] + Edges(cols, p) else colptr[k]
    ensures Points(r, 0, Flat(cols[..p + 1]), base)
  {
    var front := Flat(cols[..p]);
    FlatPrefixLength(cols, p);
    PointsKept(colptr, r, 0, front, base);
    PointsShift(colptr, r, |front|, cols[p], base, Edges(cols, p));
    PointsConcat(r, front, cols[p], base);
    FlatOne(cols, p);
  }

  lemma FixNext(colptr: seq<int>, r: seq<int>, cols: seq<seq<Column>>, base: int, p: nat)
    requires p < |cols| && Fixed(colptr, cols, base, p) && |r| == |colptr|
    requires forall k {:trigger r[k]} :: 0 <= k < |r| ==>
               r[k] == if Start(cols, p) <= k < Start(cols, p) + |cols[p]| then colptr[k] + Edges(cols, p) else colptr[k]
    ensures Fixed(r, cols, base, p + 1)
  {
    FixFront(colptr, r, cols, base, p);
    forall q | p + 1 <= q < |cols|
      ensures Local(r, cols, q, base)
    {
      StartMonotone(cols, p, q);
      LocalKept(colptr, r, cols, q, base);
    }
  }

  lemma FixNothing(colptr: seq<int>, cols: seq<seq<Column>>, base: int)
    requires Fixed(colptr, cols, base, 0) && |cols| > 0
    ensures Fixed(colptr, cols, base, 1)
  {
    assert Edges(cols, 0) == 0;
    FixNext(colptr, colptr, cols, base, 0);
  }

  /** The row indices of all ranks side by side. */
  ghost function Rowinds(parts: seq<Part>, p: nat): seq<int>
    requires p <= |parts|
  {
    if p == 0 then [] else Rowinds(parts, p - 1) + parts[p - 1].rowind
  }

  lemma PartEdges(g: Part, base: int, cols: seq<Column>)
    requires IsPart(g, base, cols)
    ensures |g.rowind| == Start(cols, |cols|) && |g.colptr| == |cols| + 1
  {
  }

  /** The fix-up loop over the ranks, starting with the second. */
  method FixPointers(colptr0: seq<int>, parts: seq<Part>, base: int, ghost cols: seq<seq<Column>>)
    returns (colptr: seq<int>, totalEdgeCnt: nat)
    requires |parts| == |cols| > 0 && forall p {:trigger parts[p]} :: 0 <= p < |parts| ==> IsPart(parts[p], base, cols[p])
    requires Fixed(colptr0, cols, base, 0)
    ensures Fixed(colptr, cols, base, |cols|) && totalEdgeCnt == Edges(cols, |cols|)
  {
    PartEdges(parts[0], base, cols[0]);
    colptr := colptr0;
    var pos: nat := |parts[0].colptr| - 1;
    var offset: nat := 0;
    FixNothing(colptr, cols, base);
    for p := 1 to |parts|
      invariant pos == Start(cols, p) && offset == Edges(cols, p - 1) && Fixed(colptr, cols, base, p)
    {
      PartEdges(parts[p - 1], base, cols[p - 1]);
      PartEdges(parts[p], base, cols[p]);
      EdgesNext(cols, p - 1);
      offset := offset + |parts[p - 1].rowind|;
      StartMonotone(cols, p, |cols|);
      ghost var was := colptr;
      colptr := Shift(colptr, pos, |parts[p].colptr| - 1, offset);
      FixNext(was, colptr, cols, base, p);
      pos := pos + (|parts[p].colptr| - 1);
    }
    EdgesNext(cols, |cols| - 1);
    PartEdges(parts[|parts| - 1], base, cols[|cols| - 1]);
    totalEdgeCnt := offset + |parts[|parts| - 1].rowind|;
  }

  // ---------------------------------------------------------------------------------------------
  // The gathered graph
  // ---------------------------------------------------------------------------------------------

  ghost predicate RowsStored(rows: seq<int>, base: int, cols: seq<Column>) {
    && |rows| == Start(cols, |cols|)
    && forall c :: 0 <= c < |cols| ==> RowsAt(rows, base, cols, c)
  }

  ghost predicate RowsAt(rows: seq<int>, base: int, cols: seq<Column>, c: nat)
    requires c < |cols|
  {
    Holds(rows, Start(cols, c), Rows(cols[c], base))
  }

  lemma PartStored(g: Part, base: int, cols: seq<Column>)
    requires IsPart(g, base, cols)
    ensures RowsStored(g.rowind, base, cols)
  {
    forall c | 0 <= c < |cols|
      ensures RowsAt(g.rowind, base, cols, c)
    {
      assert ColumnStored(g.rowind, seq(|g.rowind|, _ => ()), base, cols, c);
    }
  }

  lemma HoldsLeft<T>(s: seq<T>, t: seq<T>, at: nat, x: seq<T>)
    requires Holds(s, at, x)
    ensures Holds(s + t, at, x)
  {
    assert (s + t)[at..at + |x|] == s[at..at + |x|];
  }

  lemma HoldsRight<T>(s: seq<T>, t: seq<T>, at: nat, x: seq<T>)
    requires Holds(t, at, x)
    ensures Holds(s + t, |s| + at, x)
  {
    assert (s + t)[|s| + at..|s| + at + |x|] == t[at..at + |x|];
  }

  lemma StoredConcat(r: seq<int>, s: seq<int>, base: int, a: seq<Column>, b: seq<Column>)
    requires RowsStored(r, base, a) && RowsStored(s, base, b)
    ensures RowsStored(r + s, base, a + b)
  {
    StartConcat(a, b, |b|);
    forall c | 0 <= c < |a + b|
      ensures RowsAt(r + s, base, a + b, c)
    {
      if c < |a| {
        assert RowsAt(r, base, a, c);
        assert (a + b)[..c] == a[..c];
        StartPrefix(a + b, a, c);
        HoldsLeft(r, s, Start(a, c), Rows(a[c], base));
      } else {
        assert RowsAt(s, base, b, c - |a|);
        StartConcat(a, b, c - |a|);
        HoldsRight(r, s, Start(b, c - |a|), Rows(b[c - |a|], base));
      }
    }
  }

  lemma {:induction false} RowindsStored(parts: seq<Part>, base: int, cols: seq<seq<Column>>, p: nat)
    requires p <= |parts| == |cols| && forall q {:trigger parts[q]} :: 0 <= q < |parts| ==> IsPart(parts[q], base, cols[q])
    ensures RowsStored(Rowinds(parts, p), base, Flat(cols[..p]))
  {
    if p > 0 {
      RowindsStored(parts, base, cols, p - 1);
      assert IsPart(parts[p - 1], base, cols[p - 1]);
      PartStored(parts[p - 1], base, cols[p - 1]);
      FlatOne(cols, p - 1);
      StoredConcat(Rowinds(parts, p - 1), parts[p - 1].rowind, base, Flat(cols[..p - 1]), cols[p - 1]);
    }
  }

  lemma GatheredRepresents(colptr: seq<int>, rowind: seq<int>, base: int, cols: seq<Column>)
    requires |colptr| == |cols| + 1 && Points(colptr, 0, cols, base) && RowsStored(rowind, base, cols)
    ensures GraphRepresents(base, colptr[|cols| := |rowind| + base], rowind, cols)
  {
    var ptr := colptr[|cols| := |rowind| + base];
    forall c {:trigger ptr[c]} | 0 <= c <= |cols|
      ensures ptr[c] == base + Start(cols, c)
    {
      if c < |cols| {
        assert PointsAt(colptr, 0, cols, base, c);
      }
    }
    var vals := seq(|rowind|, _ => ());
    forall c {:trigger ColumnStored(rowind, vals, base, cols, c)} | 0 <= c < |cols|
      ensures ColumnStored(rowind, vals, base, cols, c)
    {
      assert RowsAt(rowind, base, cols, c);
      StartMonotone(cols, c, |cols|);
      UnitVals(vals[Start(cols, c)..Start(cols, c) + |cols[c]|], Vals(cols[c]));
    }
  }

  method GatherRows(parts: seq<Part>) returns (rowind: seq<int>)
    ensures rowind == Rowinds(parts, |parts|)
  {
    rowind := [];
    for p := 0 to |parts|
      invariant rowind == Rowinds(parts, p)
    {
      rowind := rowind + parts[p].rowind;
    }
  }

  /** The gathered arrays represent the columns of all ranks, in rank order. */
  method AllGatherStructure(parts: seq<Part>, base: int, ghost cols: seq<seq<Column>>) returns (g: Part)
    requires |parts| == |cols| > 0 && forall p {:trigger parts[p]} :: 0 <= p < |parts| ==> IsPart(parts[p], base, cols[p])
    ensures IsPart(g, base, Flat(cols))
  {
    var colptr := GatherPointers(parts, base, cols);
    var rowind := GatherRows(parts);
    FlatPrefixLength(cols, |cols|);
    assert cols[..|cols|] == cols;
    assert Flat(cols[..0]) == [];
    var totalEdgeCnt;
    colptr, totalEdgeCnt := FixPointers(colptr, parts, base, cols);
    RowindsStored(parts, base, cols, |parts|);
    GatheredRepresents(colptr, rowind, base, Flat(cols));
    g := Part(colptr[|colptr| - 1 := totalEdgeCnt + base], rowind);
  }

  // ---------------------------------------------------------------------------------------------
  // Permuting and gathering
  // ---------------------------------------------------------------------------------------------

  lemma LastRow(a: Column, b: Column)
    requires Sorted(a) && Sorted(b) && multiset(a) == multiset(b) && a != [] && b != []
    ensures a[|a| - 1] == b[|b| - 1]
  {
    var x, y := a[|a| - 1], b[|b| - 1];
    assert x in multiset(b) && y in multiset(a);
    var i :| 0 <= i < |b| && b[i] == x;
    var k :| 0 <= k < |a| && a[k] == y;
    assert x.row <= y.row && y.row <= x.row;
    UnitVals([x.val], [y.val]);
    assert x.val == [x.val][0] == [y.val][0] == y.val;
  }

  /** Sorting a column without values has one result. */
  lemma {:induction false} OneOrder(a: Column, b: Column)
    requires Sorted(a) && Sorted(b) && multiset(a) == multiset(b)
    ensures a == b
  {
    assert |a| == |multiset(a)| == |multiset(b)| == |b|;
    if a != [] {
      LastRow(a, b);
      DropLast(a, b);
      OneOrder(a[..|a| - 1], b[..|b| - 1]);
      assert a == a[..|a| - 1] + [a[|a| - 1]] && b == b[..|b| - 1] + [b[|b| - 1]];
    }
  }

  lemma OneArrangement(cols: seq<Column>, a: seq<Column>, b: seq<Column>)
    requires AllRearranged(cols, a, |cols|) && AllRearranged(cols, b, |cols|)
    ensures a == b
  {
    forall c | 0 <= c < |cols|
      ensures a[c] == b[c]
    {
      assert Rearranged(cols[c], a[c]) && Rearranged(cols[c], b[c]);
      OneOrder(a[c], b[c]);
    }
  }

  lemma {:induction false} RowsDetermined(r: seq<int>, s: seq<int>, base: int, cols: seq<Column>, n: nat)
    requires n <= |cols| && |r| == |s| && Start(cols, n) <= |r|
    requires forall c :: 0 <= c < n ==> RowsAt(r, base, cols, c) && RowsAt(s, base, cols, c)
    ensures r[..Start(cols, n)] == s[..Start(cols, n)]
  {
    if n > 0 {
      RowsDetermined(r, s, base, cols, n - 1);
      assert RowsAt(r, base, cols, n - 1) && RowsAt(s, base, cols, n - 1);
      SameUpTo(r, s, Start(cols, n - 1), Rows(cols[n - 1], base));
    }
  }

  lemma SameUpTo(r: seq<int>, s: seq<int>, at: nat, x: seq<int>)
    requires Holds(r, at, x) && Holds(s, at, x) && r[..at] == s[..at]
    ensures r[..at + |x|] == s[..at + |x|]
  {
    assert r[..at + |x|] == r[..at] + r[at..at + |x|];
    assert s[..at + |x|] == s[..at] + s[at..at + |x|];
  }

  /** The columns determine both arrays. */
  lemma PartDetermined(g: Part, h: Part, base: int, cols: seq<Column>)
    requires IsPart(g, base, cols) && IsPart(h, base, cols)
    ensures g == h
  {
    PartStored(g, base, cols);
    PartStored(h, base, cols);
    RowsDetermined(g.rowind, h.rowind, base, cols, |cols|);
    assert g.rowind == g.rowind[..Start(cols, |cols|)] && h.rowind == h.rowind[..Start(cols, |cols|)];
    assert g.colptr == h.colptr;
  }

  /** g is the sorted permuted graph. */
  ghost predicate IsPermuted(g: Part, base: int, cols: seq<Column>, invp: seq<nat>, keepDiag: bool, expanded: bool) {
    exists after :: AllRearranged(Permuted(cols, invp, keepDiag, expanded), after, |cols|) && IsPart(g, base, after)
  }

  /** What the ranks gather does not depend on the number of ranks or on either distribution. */
  lemma GatheredOnce(g: Part, h: Part, base: int, cols: seq<Column>, invp: seq<nat>, keepDiag: bool, expanded: bool)
    requires IsPermuted(g, base, cols, invp, keepDiag, expanded) && IsPermuted(h, base, cols, invp, keepDiag, expanded)
    ensures g == h
  {
    var a :| AllRearranged(Permuted(cols, invp, keepDiag, expanded), a, |cols|) && IsPart(g, base, a);
    var b :| AllRearranged(Permuted(cols, invp, keepDiag, expanded), b, |cols|) && IsPart(h, base, b);
    OneArrangement(Permuted(cols, invp, keepDiag, expanded), a, b);
    PartDetermined(g, h, base, a);
  }

  lemma LocalIsPart(m: LocalMatrix<()>, parts: seq<seq<Column>>, p: nat, base: int)
    requires p < |parts| && Holding(m, parts, p, base)
    ensures IsPart(Part(m.colptr, m.rowind), base, parts[p])
  {
    UnitVals(m.nzval, seq(|m.rowind|, _ => ()));
  }

  method Collect(ranks: seq<LocalMatrix<()>>, base: int, ghost cols: seq<seq<Column>>) returns (parts: seq<Part>)
    requires |cols| == |ranks| && forall p :: 0 <= p < |ranks| ==> Holding(ranks[p], cols, p, base)
    ensures |parts| == |ranks| && forall q {:trigger parts[q]} :: 0 <= q < |ranks| ==> IsPart(parts[q], base, cols[q])
  {
    parts := [];
    for p := 0 to |ranks|
      invariant |parts| == p && forall q {:trigger parts[q]} :: 0 <= q < p ==> IsPart(parts[q], base, cols[q])
    {
      LocalIsPart(ranks[p], cols, p, base);
      parts := parts + [Part(ranks[p].colptr, ranks[p].rowind)];
    }
  }

  /** Permutation of a sorted distributed graph, followed by the gather. */
  method PermuteAndGather(ranks: seq<LocalMatrix<()>>, dist: seq<int>, newDist: seq<int>, base: int, invp: seq<nat>) returns (g: Part)
    requires Distinct(ranks) && SameFlags(ranks) && Splits(Parts(ranks), dist, base) && InMatrix(Parts(ranks))
    requires forall p :: 0 <= p < |ranks| ==> Holding(ranks[p], Parts(ranks), p, base)
    requires |newDist| == |ranks| + 1 && Distribution(newDist, base, |Flat(Parts(ranks))|)
    requires PositionsBelow(invp, |Flat(Parts(ranks))|) && ranks[0].sorted
    modifies ranks
    ensures IsPermuted(g, base, old(Flat(Parts(ranks))), invp, old(ranks[0].keepDiag), old(ranks[0].expanded))
  {
    ghost var before, keepDiag, expanded := Flat(Parts(ranks)), ranks[0].keepDiag, ranks[0].expanded;
    Permute(ranks, dist, newDist, base, invp);
    ghost var after := Parts(ranks);
    var parts := Collect(ranks, base, after);
    g := AllGatherStructure(parts, base, after);
    assert AllRearranged(Permuted(before, invp, keepDiag, expanded), Flat(after), |before|);
  }
}
