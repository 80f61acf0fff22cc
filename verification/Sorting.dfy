/** Sorting the rows of every column with their values: a sorting permutation of the rows, applied to both
    arrays. */
module Sorting {
  import opened Segments
  import opened DistMatrix
  import opened Assembly
  import opened Expansion
  import opened Restriction

  function Iota(n: nat): (s: seq<nat>)
    ensures |s| == n
  {
    seq<nat>(n, i requires 0 <= i < n => i)
  }

  ghost predicate Permutes(p: seq<nat>, n: nat) { |p| == n && multiset(p) == multiset(Iota(n)) }

  function Applied<T>(s: seq<T>, p: seq<nat>): (t: seq<T>)
    requires forall i :: 0 <= i < |p| ==> p[i] < |s|
    ensures |t| == |p|
  {
    seq(|p|, i requires 0 <= i < |p| => s[p[i]])
  }

  lemma PermutesInRange(p: seq<nat>, n: nat)
    requires Permutes(p, n)
    ensures forall i :: 0 <= i < n ==> p[i] < n
  {
    forall i | 0 <= i < n
      ensures p[i] < n
    {
      assert p[i] in multiset(Iota(n));
      assert p[i] in Iota(n);
    }
  }

  lemma IotaNext(n: nat)
    ensures Iota(n + 1) == Iota(n) + [n]
  {
  }

  lemma RemoveAt<T>(s: seq<T>, j: nat)
    requires j < |s|
    ensures s == s[..j] + [s[j]] + s[j + 1..]
    ensures multiset(s) == multiset(s[..j] + s[j + 1..]) + multiset{s[j]}
  {
    assert s == s[..j] + [s[j]] + s[j + 1..];
  }

  lemma Cancel<T>(a: multiset<T>, b: multiset<T>, x: T)
    requires a + multiset{x} == b + multiset{x}
    ensures a == b
  {
    assert a == (a + multiset{x}) - multiset{x};
  }

  lemma AppliedWithout<T>(s: seq<T>, p: seq<nat>, j: nat, n: nat, rest: seq<nat>)
    requires j < |p| && p[j] == n == |s| - 1 && forall i :: 0 <= i < |p| ==> p[i] < |s|
    requires rest == p[..j] + p[j + 1..] && forall i :: 0 <= i < |rest| ==> rest[i] < n
    ensures Applied(s[..n], rest) == Applied(s, p)[..j] + Applied(s, p)[j + 1..]
  {
  }

  lemma WithoutLargest(p: seq<nat>, j: nat, n: nat)
    requires Permutes(p, n + 1) && j < |p| && p[j] == n
    ensures Permutes(p[..j] + p[j + 1..], n)
  {
    IotaNext(n);
    RemoveAt(p, j);
    Cancel(multiset(p[..j] + p[j + 1..]), multiset(Iota(n)), n);
  }

  /** A permutation of the indices rearranges the elements. */
  lemma {:induction false} AppliedMultiset<T>(s: seq<T>, p: seq<nat>)
    requires Permutes(p, |s|)
    ensures forall i :: 0 <= i < |p| ==> p[i] < |s|
    ensures multiset(Applied(s, p)) == multiset(s)
    decreases |s|
  {
    PermutesInRange(p, |s|);
    if |s| > 0 {
      var n := |s| - 1;
      IotaNext(n);
      assert n in multiset(p);
      var j :| 0 <= j < |p| && p[j] == n;
      var rest := p[..j] + p[j + 1..];
      WithoutLargest(p, j, n);
      AppliedMultiset(s[..n], rest);
      AppliedWithout(s, p, j, n, rest);
      RemoveAt(Applied(s, p), j);
      assert s == s[..n] + [s[n]];
    }
  }

  /** The indices p list rows in nondecreasing order. */
  ghost predicate Orders(p: seq<nat>, rows: seq<int>) {
    && (forall i {:trigger p[i]} :: 0 <= i < |p| ==> p[i] < |rows|)
    && forall a, b :: 0 <= a < b < |p| ==> rows[p[a]] <= rows[p[b]]
  }

  /** Where k goes among the sorted indices p. */
  ghost predicate Fits(rows: seq<int>, p: seq<nat>, k: nat, j: nat)
    requires k < |rows| && Orders(p, rows)
  {
    && j <= |p| && (forall a {:trigger p[a]} :: 0 <= a < j ==> rows[p[a]] <= rows[k])
    && forall a {:trigger p[a]} :: j <= a < |p| ==> rows[k] <= rows[p[a]]
  }

  method Place(rows: seq<int>, p: seq<nat>, k: nat) returns (j: nat)
    requires k < |rows| && Orders(p, rows)
    ensures Fits(rows, p, k, j)
  {
    j := |p|;
    while j > 0 && rows[k] < rows[p[j - 1]]
      invariant j <= |p| && forall a {:trigger p[a]} :: j <= a < |p| ==> rows[k] <= rows[p[a]]
    {
      j := j - 1;
    }
  }

  lemma InsertedPermutes(p: seq<nat>, k: nat, j: nat)
    requires Permutes(p, k) && j <= |p|
    ensures Permutes(p[..j] + [k] + p[j..], k + 1)
  {
    IotaNext(k);
    assert p == p[..j] + p[j..];
  }

  lemma InsertedSorted(rows: seq<int>, p: seq<nat>, k: nat, j: nat, q: seq<nat>)
    requires k < |rows| && Orders(p, rows) && Fits(rows, p, k, j)
    requires |q| == |p| + 1 && forall i {:trigger q[i]} :: 0 <= i < |q| ==> q[i] == if i < j then p[i] else if i == j then k else p[i - 1]
    ensures Orders(q, rows)
  {
  }

  method Insert(rows: seq<int>, p: seq<nat>, k: nat) returns (q: seq<nat>)
    requires k < |rows| && Orders(p, rows) && Permutes(p, k)
    ensures Orders(q, rows) && Permutes(q, k + 1)
  {
    var j := Place(rows, p, k);
    q := p[..j] + [k] + p[j..];
    InsertedPermutes(p, k, j);
    InsertedSorted(rows, p, k, j, q);
  }

  method SortPermutation(rows: seq<int>) returns (p: seq<nat>)
    ensures Permutes(p, |rows|) && Orders(p, rows)
  {
    p := [];
    for k := 0 to |rows|
      invariant Permutes(p, k) && Orders(p, rows)
    {
      p := Insert(rows, p, k);
    }
  }

  method ApplyPermutation<T>(s: seq<T>, p: seq<nat>) returns (t: seq<T>)
    requires forall i :: 0 <= i < |p| ==> p[i] < |s|
    ensures t == Applied(s, p)
  {
    t := [];
    for i := 0 to |p|
      invariant |t| == i && forall k :: 0 <= k < i ==> t[k] == s[p[k]]
    {
      t := t + [s[p[i]]];
    }
  }

  // ---------------------------------------------------------------------------------------------
  // Columns
  // ---------------------------------------------------------------------------------------------

  ghost predicate Sorted<V>(col: seq<Entry<V>>) {
    forall i, j :: 0 <= i < j < |col| ==> col[i].row <= col[j].row
  }

  ghost predicate Rearranged<V>(before: seq<Entry<V>>, after: seq<Entry<V>>) {
    multiset(before) == multiset(after) && Sorted(after)
  }

  lemma AppliedRows<V>(col: seq<Entry<V>>, p: seq<nat>, base: int)
    requires forall i :: 0 <= i < |p| ==> p[i] < |col|
    ensures Rows(Applied(col, p), base) == Applied(Rows(col, base), p)
    ensures Vals(Applied(col, p)) == Applied(Vals(col), p)
  {
  }

  /** s with the slots from b on overwritten by y. */
  function Overwritten<T>(s: seq<T>, b: nat, y: seq<T>): (t: seq<T>)
    requires b + |y| <= |s|
    ensures |t| == |s|
  {
    s[..b] + y + s[b + |y|..]
  }

  lemma HoldsReplaced<T>(s: seq<T>, b: nat, y: seq<T>, at: nat, x: seq<T>)
    requires b + |y| <= |s| && Holds(s, at, x) && (at + |x| <= b || b + |y| <= at)
    ensures Holds(Overwritten(s, b, y), at, x)
  {
    var t := Overwritten(s, b, y);
    assert t[at..at + |x|] == s[at..at + |x|];
  }

  lemma HoldsNew<T>(s: seq<T>, b: nat, y: seq<T>)
    requires b + |y| <= |s|
    ensures Holds(Overwritten(s, b, y), b, y)
  {
  }

  lemma {:induction false} StartUpdate<V>(cols: seq<seq<Entry<V>>>, c: nat, y: seq<Entry<V>>, i: nat)
    requires c < |cols| && |y| == |cols[c]| && i <= |cols|
    ensures Start(cols[c := y], i) == Start(cols, i)
  {
    if i > 0 {
      StartUpdate(cols, c, y, i - 1);
    }
  }

  lemma ColumnsApart<V>(cols: seq<seq<Entry<V>>>, c: nat, i: nat)
    requires c < |cols| && i < |cols| && i != c
    ensures Start(cols, i) + |cols[i]| <= Start(cols, c) || Start(cols, c) + |cols[c]| <= Start(cols, i)
  {
    if i < c {
      StartMonotone(cols, i, c);
    } else {
      StartMonotone(cols, c, i);
    }
  }

  lemma ReplacedStored<V>(rowind: seq<int>, nzval: seq<V>, base: int, cols: seq<seq<Entry<V>>>, c: nat, y: seq<Entry<V>>, i: nat)
    requires c < |cols| && i < |cols| && |y| == |cols[c]| && Start(cols, c) + |y| <= |rowind| == |nzval|
    requires ColumnStored(rowind, nzval, base, cols, i)
    ensures ColumnStored(Overwritten(rowind, Start(cols, c), Rows(y, base)), Overwritten(nzval, Start(cols, c), Vals(y)),
                         base, cols[c := y], i)
  {
    StartUpdate(cols, c, y, i);
    if i == c {
      HoldsNew(rowind, Start(cols, c), Rows(y, base));
      HoldsNew(nzval, Start(cols, c), Vals(y));
    } else {
      ColumnsApart(cols, c, i);
      HoldsReplaced(rowind, Start(cols, c), Rows(y, base), Start(cols, i), Rows(cols[i], base));
      HoldsReplaced(nzval, Start(cols, c), Vals(y), Start(cols, i), Vals(cols[i]));
    }
  }

  lemma ReplaceColumn<V>(base: int, colptr: seq<int>, rowind: seq<int>, nzval: seq<V>, cols: seq<seq<Entry<V>>>, c: nat, y: seq<Entry<V>>)
    requires Represents(base, colptr, rowind, nzval, cols) && c < |cols| && |y| == |cols[c]|
    ensures Start(cols, c) + |y| <= |rowind| == |nzval|
    ensures Represents(base, colptr, Overwritten(rowind, Start(cols, c), Rows(y, base)),
                       Overwritten(nzval, Start(cols, c), Vals(y)), cols[c := y])
  {
    StartMonotone(cols, c, |cols|);
    var rows, vals := Overwritten(rowind, Start(cols, c), Rows(y, base)), Overwritten(nzval, Start(cols, c), Vals(y));
    var after := cols[c := y];
    forall i {:trigger colptr[i]} | 0 <= i <= |cols|
      ensures colptr[i] == base + Start(after, i)
    {
      StartUpdate(cols, c, y, i);
    }
    StartUpdate(cols, c, y, |cols|);
    forall i {:trigger ColumnStored(rows, vals, base, after, i)} | 0 <= i < |cols|
      ensures ColumnStored(rows, vals, base, after, i)
    {
      assert ColumnStored(rowind, nzval, base, cols, i);
      ReplacedStored(rowind, nzval, base, cols, c, y, i);
    }
  }

  method SortColumn<V>(base: int, colptr: seq<int>, rowind: seq<int>, nzval: seq<V>, c: nat, ghost cols: seq<seq<Entry<V>>>)
    returns (rows: seq<int>, vals: seq<V>, ghost sorted: seq<Entry<V>>)
    requires Represents(base, colptr, rowind, nzval, cols) && c < |cols|
    ensures Rearranged(cols[c], sorted) && Represents(base, colptr, rows, vals, cols[c := sorted])
  {
    ColumnPlace(base, colptr, rowind, nzval, cols, c);
    var colbeg, colend := colptr[c] - base, colptr[c + 1] - base;
    ghost var col := cols[c];
    var lperm := SortPermutation(rowind[colbeg..colend]);
    AppliedMultiset(col, lperm);
    AppliedRows(col, lperm, base);
    sorted := Applied(col, lperm);
    var work := ApplyPermutation(rowind[colbeg..colend], lperm);
    var work2 := ApplyPermutation(nzval[colbeg..colend], lperm);
    SortedByRows(sorted, base, work);
    ReplaceColumn(base, colptr, rowind, nzval, cols, c, sorted);
    rows := rowind[..colbeg] + work + rowind[colend..];
    vals := nzval[..colbeg] + work2 + nzval[colend..];
  }

  lemma SortedByRows<V>(col: seq<Entry<V>>, base: int, rows: seq<int>)
    requires rows == Rows(col, base) && forall i, j :: 0 <= i < j < |rows| ==> rows[i] <= rows[j]
    ensures Sorted(col)
  {
    forall i, j | 0 <= i < j < |col|
      ensures col[i].row <= col[j].row
    {
      assert rows[i] <= rows[j];
    }
  }

  ghost predicate AllRearranged<V>(before: seq<seq<Entry<V>>>, after: seq<seq<Entry<V>>>, n: nat) {
    && n <= |before| == |after|
    && (forall c {:trigger after[c]} :: 0 <= c < n ==> Rearranged(before[c], after[c]))
    && forall c {:trigger after[c]} :: n <= c < |before| ==> after[c] == before[c]
  }

  /** Every column becomes a sorted rearrangement of itself, values moving with their rows. */
  method SortColumns<V>(base: int, colptr: seq<int>, rowind: seq<int>, nzval: seq<V>, ghost cols: seq<seq<Entry<V>>>)
    returns (rows: seq<int>, vals: seq<V>, ghost after: seq<seq<Entry<V>>>)
    requires Represents(base, colptr, rowind, nzval, cols)
    ensures Represents(base, colptr, rows, vals, after) && AllRearranged(cols, after, |cols|)
  {
    rows, vals, after := rowind, nzval, cols;
    for c := 0 to |colptr| - 1
      invariant Represents(base, colptr, rows, vals, after) && AllRearranged(cols, after, c)
    {
      ghost var sorted;
      rows, vals, sorted := SortColumn(base, colptr, rows, vals, c, after);
      after := after[c := sorted];
    }
  }

  // ---------------------------------------------------------------------------------------------
  // Expanding, sorting and restricting
  // ---------------------------------------------------------------------------------------------

  lemma {:induction false} KeptCount<V>(col: seq<Entry<V>>, c: nat, e: Entry<V>)
    ensures multiset(Kept(col, c, true))[e] == if e.row >= c then multiset(col)[e] else 0
  {
    if col != [] {
      KeptCount(col[..|col| - 1], c, e);
      assert col == col[..|col| - 1] + [col[|col| - 1]];
    }
  }

  lemma {:induction false} KeptSorted<V>(col: seq<Entry<V>>, c: nat)
    requires Sorted(col)
    ensures Sorted(Kept(col, c, true))
  {
    if col != [] {
      var front, e := col[..|col| - 1], col[|col| - 1];
      KeptSorted(front, c);
      forall i | 0 <= i < |Kept(front, c, true)|
        ensures Kept(front, c, true)[i].row <= e.row
      {
        var x := Kept(front, c, true)[i];
        assert multiset(Kept(front, c, true))[x] > 0;
        KeptCount(front, c, x);
        assert x in front;
      }
    }
  }

  ghost predicate Strictly<V>(col: seq<Entry<V>>) {
    forall i, j :: 0 <= i < j < |col| ==> col[i].row < col[j].row
  }

  lemma LastSame<V>(a: seq<Entry<V>>, b: seq<Entry<V>>)
    requires Strictly(a) && Sorted(b) && multiset(a) == multiset(b) && a != [] && b != []
    ensures a[|a| - 1] == b[|b| - 1]
  {
    var x, y := a[|a| - 1], b[|b| - 1];
    assert x in multiset(b) && y in multiset(a);
    var i :| 0 <= i < |b| && b[i] == x;
    var k :| 0 <= k < |a| && a[k] == y;
    assert x.row <= y.row;
  }

  lemma DropLast<T>(a: seq<T>, b: seq<T>)
    requires a != [] && b != [] && multiset(a) == multiset(b) && a[|a| - 1] == b[|b| - 1]
    ensures multiset(a[..|a| - 1]) == multiset(b[..|b| - 1])
  {
    assert a == a[..|a| - 1] + [a[|a| - 1]] && b == b[..|b| - 1] + [b[|b| - 1]];
    Cancel(multiset(a[..|a| - 1]), multiset(b[..|b| - 1]), a[|a| - 1]);
  }

  lemma {:induction false} SortedUnique<V>(a: seq<Entry<V>>, b: seq<Entry<V>>)
    requires Strictly(a) && Sorted(b) && multiset(a) == multiset(b)
    ensures a == b
  {
    assert |a| == |multiset(a)| == |multiset(b)| == |b|;
    if a != [] {
      LastSame(a, b);
      DropLast(a, b);
      SortedUnique(a[..|a| - 1], b[..|b| - 1]);
      assert a == a[..|a| - 1] + [a[|a| - 1]] && b == b[..|b| - 1] + [b[|b| - 1]];
    }
  }

  lemma {:induction false} KeptRearranged<V>(a: seq<Entry<V>>, b: seq<Entry<V>>, c: nat)
    requires multiset(a) == multiset(b)
    ensures multiset(Kept(a, c, true)) == multiset(Kept(b, c, true))
  {
    assert |a| == |multiset(a)| == |multiset(b)| == |b|;
    if a != [] {
      var front, e := a[..|a| - 1], a[|a| - 1];
      assert a == front + [e];
      assert e in multiset(b);
      var j :| 0 <= j < |b| && b[j] == e;
      RemoveAt(b, j);
      Cancel(multiset(front), multiset(b[..j] + b[j + 1..]), e);
      KeptRearranged(front, b[..j] + b[j + 1..], c);
      KeptConcat(b[..j], b[j + 1..], c, true);
      KeptConcat(b[..j] + [e], b[j + 1..], c, true);
      KeptConcat(b[..j], [e], c, true);
      KeptConcat(front, [e], c, true);
    }
  }

  /** Strictly sorted lower storage survives expansion, re-sorting and restriction. */
  lemma SortedRoundTrip<V>(cols: seq<seq<Entry<V>>>, after: seq<seq<Entry<V>>>, c: nat)
    requires Lower(cols) && c < |cols| && AllRearranged(Expanded(cols), after, |cols|) && Strictly(cols[c])
    ensures Kept(after[c], c, true) == cols[c]
  {
    RoundTripColumn(cols, c);
    assert Rearranged(Expanded(cols)[c], after[c]);
    KeptRearranged(Expanded(cols)[c], after[c], c);
    KeptSorted(after[c], c);
    SortedUnique(cols[c], Kept(after[c], c, true));
  }

  // ---------------------------------------------------------------------------------------------
  // A graph marked as sorted is not sorted again after the expansion
  // ---------------------------------------------------------------------------------------------

  lemma {:induction false} SentColumnTo<V>(col: seq<Entry<V>>, n: nat, c: nat, e: Entry<V>)
    requires e in Arrived(SentColumn(col, n, Mirror), c)
    ensures e.row == n
  {
    ColumnArrives(col, n, c, e.row);
    ValuesMember(Arrived(SentColumn(col, n, Mirror), c), e);
  }

  /** Arrivals come in ascending row order. */
  lemma {:induction false} ArrivalsSorted<V>(cols: seq<seq<Entry<V>>>, c: nat)
    ensures Sorted(Arrived(Mirrors(cols, 0), c))
    ensures forall e <- Arrived(Mirrors(cols, 0), c) :: e.row < |cols|
  {
    if cols != [] {
      var n := |cols| - 1;
      var front, last := Arrived(Mirrors(cols[..n], 0), c), Arrived(SentColumn(cols[n], n, Mirror), c);
      ArrivalsSorted(cols[..n], c);
      ArrivedConcat(Mirrors(cols[..n], 0), SentColumn(cols[n], n, Mirror), c);
      forall e | e in last
        ensures e.row == n
      {
        SentColumnTo(cols[n], n, c, e);
      }
      JoinSorted(front, last, n);
    }
  }

  lemma JoinSorted<V>(a: seq<Entry<V>>, b: seq<Entry<V>>, n: nat)
    requires Sorted(a) && (forall e <- a :: e.row < n) && (forall e <- b :: e.row == n)
    ensures Sorted(a + b) && forall e <- a + b :: e.row < n + 1
  {
    forall i, j | 0 <= i < j < |a + b|
      ensures (a + b)[i].row <= (a + b)[j].row
    {
      assert i < |a| ==> a[i] in a;
      assert i >= |a| ==> b[i - |a|] in b;
      assert j >= |a| ==> b[j - |a|] in b;
    }
  }

  lemma {:induction false} ReversedAt<T>(s: seq<T>, i: nat)
    requires i < |s|
    ensures Reversed(s)[i] == s[|s| - 1 - i]
  {
    if i > 0 {
      ReversedAt(s[..|s| - 1], i - 1);
    }
  }

  ghost predicate OneRow<V>(col: seq<Entry<V>>) {
    forall i, j :: 0 <= i < |col| && 0 <= j < |col| ==> col[i].row == col[j].row
  }

  lemma ReversedSorted<V>(col: seq<Entry<V>>)
    requires Sorted(col)
    ensures Sorted(Reversed(col)) <==> OneRow(col)
  {
    if Sorted(Reversed(col)) {
      forall i, j | 0 <= i < j < |col|
        ensures col[i].row == col[j].row
      {
        ReversedAt(col, |col| - 1 - i);
        ReversedAt(col, |col| - 1 - j);
      }
    }
    if OneRow(col) {
      forall i, j | 0 <= i < j < |col|
        ensures Reversed(col)[i].row <= Reversed(col)[j].row
      {
        ReversedAt(col, i);
        ReversedAt(col, j);
      }
    }
  }

  lemma {:induction false} ValuesFrom<V>(col: seq<Entry<V>>, r: nat) returns (i: nat)
    requires Values(col, r) != []
    ensures i < |col| && col[i].row == r
  {
    if col[|col| - 1].row == r {
      i := |col| - 1;
    } else {
      i := ValuesFrom(col[..|col| - 1], r);
    }
  }

  /** At most one column in front of c stores row c. */
  ghost predicate OneAbove<V>(cols: seq<seq<Entry<V>>>, c: nat)
    requires c < |cols|
  {
    forall r, r' :: 0 <= r < r' < c ==> Values(cols[r], c) == [] || Values(cols[r'], c) == []
  }

  lemma OneRowOneAbove<V>(cols: seq<seq<Entry<V>>>, c: nat)
    requires c < |cols|
    ensures OneRow(Arrived(Mirrors(cols, 0), c)) <==> OneAbove(cols, c)
  {
    var got := Arrived(Mirrors(cols, 0), c);
    if OneRow(got) {
      forall r, r' | 0 <= r < r' < c
        ensures Values(cols[r], c) == [] || Values(cols[r'], c) == []
      {
        MirrorsArrive(cols, c, r);
        MirrorsArrive(cols, c, r');
        if Values(cols[r], c) != [] && Values(cols[r'], c) != [] {
          var i := ValuesFrom(got, r);
          var j := ValuesFrom(got, r');
          assert false;
        }
      }
    }
    if OneAbove(cols, c) {
      forall i, j | 0 <= i < |got| && 0 <= j < |got|
        ensures got[i].row == got[j].row
      {
        SameArrival(cols, c, got[i], got[j]);
      }
    }
  }

  lemma SameArrival<V>(cols: seq<seq<Entry<V>>>, c: nat, d: Entry<V>, e: Entry<V>)
    requires c < |cols| && OneAbove(cols, c) && d in Arrived(Mirrors(cols, 0), c) && e in Arrived(Mirrors(cols, 0), c)
    ensures d.row == e.row
  {
    ArrivalsAbove(cols, c, d);
    ArrivalsAbove(cols, c, e);
    ValuesMember(Arrived(Mirrors(cols, 0), c), d);
    ValuesMember(Arrived(Mirrors(cols, 0), c), e);
    MirrorsArrive(cols, c, d.row);
    MirrorsArrive(cols, c, e.row);
  }

  lemma SplitSorted<V>(a: seq<Entry<V>>, b: seq<Entry<V>>, c: nat)
    requires Sorted(b) && (forall e <- a :: e.row < c) && (forall e <- b :: c <= e.row)
    ensures Sorted(a + b) <==> Sorted(a)
  {
    var s := a + b;
    if Sorted(s) {
      forall i, j | 0 <= i < j < |a|
        ensures a[i].row <= a[j].row
      {
        assert s[i].row <= s[j].row;
      }
    }
    if Sorted(a) {
      forall i, j | 0 <= i < j < |s|
        ensures s[i].row <= s[j].row
      {
        assert i < |a| ==> s[i] in a;
        assert j >= |a| ==> s[j] in b;
      }
    }
  }

  /** From sorted lower storage, an expanded column comes out sorted exactly if at most one earlier column
      stores its row: the entries that arrive are laid down last one first. */
  lemma ExpandedSorted<V>(cols: seq<seq<Entry<V>>>, c: nat)
    requires Lower(cols) && c < |cols| && Sorted(cols[c])
    ensures Sorted(Expanded(cols)[c]) <==> OneAbove(cols, c)
  {
    var got := Arrived(Mirrors(cols, 0), c);
    ArrivalsSorted(cols, c);
    ReversedSorted(got);
    OneRowOneAbove(cols, c);
    forall e | e in Reversed(got)
      ensures e.row < c
    {
      ReversedMembers(got, e);
      ArrivalsAbove(cols, c, e);
    }
    forall e | e in cols[c]
      ensures c <= e.row
    {
    }
    SplitSorted(Reversed(got), cols[c], c);
  }

  /** Rows 0 and 2, 1 and 2, and 2: both earlier columns store row 2, and the last expanded column is 1, 0, 2. */
  lemma UnsortedExpansion()
    ensures var cols := [[Entry(0, ()), Entry(2, ())], [Entry(1, ()), Entry(2, ())], [Entry(2, ())]];
            Lower(cols) && (forall c :: 0 <= c < 3 ==> Sorted(cols[c])) && !Sorted(Expanded(cols)[2])
  {
    var cols := [[Entry(0, ()), Entry(2, ())], [Entry(1, ()), Entry(2, ())], [Entry(2, ())]];
    assert Values(cols[0], 2) != [] && Values(cols[1], 2) != [];
    ExpandedSorted(cols, 2);
  }
}
