/** Removal of the diagonal from a graph, compacting its row indices in place, and insertion into a new buffer. */
module Diagonal {
  import opened Segments
  import opened DistMatrix
  import opened Assembly
  import opened Expansion
  import opened Restriction

  /** A graph stores no values. */
  type Column = seq<Entry<()>>

  ghost predicate GraphRepresents(base: int, colptr: seq<int>, rowind: seq<int>, cols: seq<Column>) {
    Represents(base, colptr, rowind, seq(|rowind|, _ => ()), cols)
  }

  // ---------------------------------------------------------------------------------------------
  // Removal
  // ---------------------------------------------------------------------------------------------

  function Without(col: Column, c: nat): Column {
    if col == [] then []
    else
      var front, e := Without(col[..|col| - 1], c), col[|col| - 1];
      if e.row != c then front + [e] else front
  }

  function WithoutAll(cols: seq<Column>, first: nat): (r: seq<Column>)
    ensures |r| == |cols|
  {
    seq(|cols|, c requires 0 <= c < |cols| => Without(cols[c], first + c))
  }

  lemma WithoutOne(col: Column, j: nat, c: nat)
    requires j < |col|
    ensures Without(col[..j + 1], c) == Without(col[..j], c) + (if col[j].row != c then [col[j]] else [])
  {
    assert col[..j + 1][..j] == col[..j];
  }

  lemma RowAt(rowind: seq<int>, base: int, at: nat, col: Column, j: nat)
    requires Holds(rowind, at, Rows(col, base)) && j < |col|
    ensures rowind[at + j] == base + col[j].row
  {
    assert rowind[at..at + |col|][j] == Rows(col, base)[j];
  }

  /** One column, compacted in the array it is read from: the write position never overtakes the read position. */
  method CompactColumn(rows0: seq<int>, base: int, colbeg: nat, colend: nat, pos0: nat, c: nat, ghost rowind: seq<int>,
                       ghost col: Column) returns (rows: seq<int>, pos: nat)
    requires pos0 <= colbeg && colend == colbeg + |col| && |rows0| == |rowind| && Holds(rowind, colbeg, Rows(col, base))
    requires rows0[colbeg..] == rowind[colbeg..]
    ensures |rows| == |rows0| && pos0 <= pos <= colend && rows[colend..] == rowind[colend..]
    ensures rows[..pos] == rows0[..pos0] + Rows(Without(col, c), base)
  {
    rows, pos := rows0, pos0;
    for eptr := colbeg to colend
      invariant |rows| == |rows0| && pos0 <= pos <= eptr && rows[eptr..] == rowind[eptr..]
      invariant rows[..pos] == rows0[..pos0] + Rows(Without(col[..eptr - colbeg], c), base)
    {
      RowAt(rowind, base, colbeg, col, eptr - colbeg);
      WithoutOne(col, eptr - colbeg, c);
      var row := rows[eptr];
      assert row == rowind[eptr..][0];
      if row != base + c {
        RowsAppend(Without(col[..eptr - colbeg], c), col[eptr - colbeg], base);
        ghost var was := rows;
        rows := rows[pos := row];
        assert rows[..pos + 1] == was[..pos] + [row];
        pos := pos + 1;
      }
      assert rows[eptr + 1..] == rowind[eptr + 1..];
    }
    assert col[..|col|] == col;
  }

  /** The pointers in front of column c are the new ones, the others still the old ones. */
  ghost predicate Repointed(ptr: seq<int>, base: int, before: seq<Column>, after: seq<Column>, c: nat) {
    && |before| == |after| && |ptr| == |before| + 1
    && forall i {:trigger ptr[i]} :: 0 <= i <= |before| ==> ptr[i] == base + if i < c then Start(after, i) else Start(before, i)
  }

  /** The first c columns are compacted, the others have not been touched. */
  ghost predicate Compacted(rows: seq<int>, pos: nat, base: int, rowind: seq<int>, before: seq<Column>, after: seq<Column>, c: nat)
    requires c <= |before| == |after|
  {
    && |rows| == |rowind| && pos == Start(after, c) <= Start(before, c) <= |rows|
    && rows[Start(before, c)..] == rowind[Start(before, c)..]
    && rows[..pos] == Rows(Flat(after[..c]), base)
  }

  lemma CompactedNext(rows: seq<int>, pos: nat, rows': seq<int>, pos': nat, base: int, rowind: seq<int>, before: seq<Column>, after: seq<Column>, c: nat)
    requires c < |before| == |after| && Compacted(rows, pos, base, rowind, before, after, c)
    requires |rows'| == |rows| && pos <= pos' <= Start(before, c + 1) <= |rows|
    requires rows'[Start(before, c + 1)..] == rowind[Start(before, c + 1)..]
    requires rows'[..pos'] == rows[..pos] + Rows(after[c], base)
    ensures Compacted(rows', pos', base, rowind, before, after, c + 1)
  {
    FlatOne(after, c);
    RowsConcat(Flat(after[..c]), after[c], base);
    assert |rows'[..pos']| == pos' && |Rows(after[c], base)| == |after[c]|;
  }

  method RemoveColumn(ptr0: seq<int>, rows0: seq<int>, pos0: nat, base: int, first: nat, c: nat, ghost colptr: seq<int>,
                      ghost rowind: seq<int>, ghost cols: seq<Column>) returns (ptr: seq<int>, rows: seq<int>, pos: nat)
    requires GraphRepresents(base, colptr, rowind, cols) && c < |cols|
    requires Repointed(ptr0, base, cols, WithoutAll(cols, first), c)
    requires Compacted(rows0, pos0, base, rowind, cols, WithoutAll(cols, first), c)
    ensures Repointed(ptr, base, cols, WithoutAll(cols, first), c + 1)
    ensures Compacted(rows, pos, base, rowind, cols, WithoutAll(cols, first), c + 1)
  {
    ColumnPlace(base, colptr, rowind, seq(|rowind|, _ => ()), cols, c);
    assert Start(cols, c + 1) == Start(cols, c) + |cols[c]|;
    var colbeg, colend := ptr0[c] - base, ptr0[c + 1] - base;
    ptr := ptr0[c := pos0 + base];
    rows, pos := CompactColumn(rows0, base, colbeg, colend, pos0, first + c, rowind, cols[c]);
    CompactedNext(rows0, pos0, rows, pos, base, rowind, cols, WithoutAll(cols, first), c);
  }

  lemma Compressed(ptr: seq<int>, rows: seq<int>, pos: nat, base: int, rowind: seq<int>, before: seq<Column>, after: seq<Column>)
    requires |before| == |after| && Repointed(ptr, base, before, after, |after|)
    requires Compacted(rows, pos, base, rowind, before, after, |after|)
    ensures GraphRepresents(base, ptr[|after| := pos + base], rows[..pos], after)
  {
    assert after[..|after|] == after;
    UnitVals(Vals(Flat(after)), seq(pos, _ => ()));
    FlatRepresents(base, ptr[|after| := pos + base], after);
  }

  method RemoveDiagonal(base: int, colptr: seq<int>, rowind: seq<int>, first: nat, ghost cols: seq<Column>)
    returns (newColptr: seq<int>, newRowind: seq<int>)
    requires GraphRepresents(base, colptr, rowind, cols)
    ensures GraphRepresents(base, newColptr, newRowind, WithoutAll(cols, first))
  {
    var n := |colptr| - 1;
    var pos: nat := 0;
    newColptr, newRowind := colptr, rowind;
    for c := 0 to n
      invariant Repointed(newColptr, base, cols, WithoutAll(cols, first), c)
      invariant Compacted(newRowind, pos, base, rowind, cols, WithoutAll(cols, first), c)
    {
      newColptr, newRowind, pos := RemoveColumn(newColptr, newRowind, pos, base, first, c, colptr, rowind, cols);
    }
    Compressed(newColptr, newRowind, pos, base, rowind, cols, WithoutAll(cols, first));
    newRowind := newRowind[..pos];
    newColptr := newColptr[n := |newRowind| + base];
  }

  lemma UnitVals(a: seq<()>, b: seq<()>)
    requires |a| == |b|
    ensures a == b
  {
    forall i | 0 <= i < |a|
      ensures a[i] == b[i]
    {
    }
  }

  // ---------------------------------------------------------------------------------------------
  // Insertion
  // ---------------------------------------------------------------------------------------------

  function Diag(c: nat): Entry<()> { Entry(c, ()) }

  predicate Beyond(col: Column, c: nat) { exists j :: 0 <= j < |col| && col[j].row > c }

  /** The loop over a column: the diagonal goes in front of the first row beyond it; a stored diagonal is
      skipped. */
  function Added(col: Column, c: nat): Column {
    if col == [] then []
    else
      var before, e := col[..|col| - 1], col[|col| - 1];
      if e.row < c then Added(before, c) + [e]
      else if e.row > c then Added(before, c) + (if Beyond(before, c) then [e] else [Diag(c), e])
      else Added(before, c)
  }

  function With(col: Column, c: nat): Column {
    Added(col, c) + (if Beyond(col, c) then [] else [Diag(c)])
  }

  function WithAll(cols: seq<Column>, first: nat): (r: seq<Column>)
    ensures |r| == |cols|
  {
    seq(|cols|, c requires 0 <= c < |cols| => With(cols[c], first + c))
  }

  lemma AddedOne(col: Column, j: nat, c: nat)
    requires j < |col|
    ensures Beyond(col[..j + 1], c) <==> Beyond(col[..j], c) || col[j].row > c
    ensures Added(col[..j + 1], c)
         == Added(col[..j], c) + (if col[j].row < c then [col[j]]
                                  else if col[j].row > c then (if Beyond(col[..j], c) then [col[j]] else [Diag(c), col[j]])
                                  else [])
  {
    assert col[..j + 1][..j] == col[..j];
    if Beyond(col[..j], c) {
      var i :| 0 <= i < j && col[..j][i].row > c;
      assert col[..j + 1][i].row > c;
    }
    if col[j].row > c {
      assert col[..j + 1][j].row > c;
    }
  }

  /** The new column has room for every entry and the diagonal, and fills it exactly if no diagonal was stored. */
  lemma {:induction false} AddedLength(col: Column, c: nat)
    ensures |Added(col, c)| <= |col| + (if Beyond(col, c) then 1 else 0)
    ensures |Added(col, c)| == |col| + (if Beyond(col, c) then 1 else 0) <==> forall e <- col :: e.row != c
  {
    if col != [] {
      var n := |col| - 1;
      AddedLength(col[..n], c);
      AddedOne(col, n, c);
      assert col[..n + 1] == col == col[..n] + [col[n]];
    }
  }

  lemma {:induction false} WithStarts(cols: seq<Column>, first: nat, i: nat)
    requires i <= |cols|
    ensures Start(WithAll(cols, first), i) <= Start(cols, i) + i
    ensures Start(WithAll(cols, first), i) == Start(cols, i) + i
       <==> forall c :: 0 <= c < i ==> |With(cols[c], first + c)| == |cols[c]| + 1
  {
    if i > 0 {
      WithStarts(cols, first, i - 1);
      AddedLength(cols[i - 1], first + i - 1);
    }
  }

  /** rows[..pos] is `done`, pos plus room for what is still to come fits. */
  method PutRow(rows0: seq<int>, pos0: nat, row: int) returns (rows: seq<int>, pos: nat)
    requires pos0 < |rows0|
    ensures |rows| == |rows0| && pos == pos0 + 1 && rows[..pos] == rows0[..pos0] + [row]
  {
    rows := rows0[pos0 := row];
    pos := pos0 + 1;
  }

  lemma AddedPrefix(col: Column, j: nat, c: nat)
    requires j < |col|
    ensures |Added(col[..j + 1], c)| <= |col| + 1
  {
    AddedLength(col[..j + 1], c);
  }

  /** What one row adds to the new column. */
  function Put(row: int, diag: int, diagAdded: bool): seq<int> {
    if row < diag then [row] else if row > diag then (if diagAdded then [row] else [diag, row]) else []
  }

  lemma AddedRows(col: Column, j: nat, c: nat, base: int)
    requires j < |col|
    ensures Rows(Added(col[..j + 1], c), base)
         == Rows(Added(col[..j], c), base) + Put(base + col[j].row, base + c, Beyond(col[..j], c))
    ensures |Added(col[..j], c)| <= |Added(col[..j + 1], c)| <= |col| + 1
    ensures Beyond(col[..j + 1], c) <==> Beyond(col[..j], c) || col[j].row > c
  {
    AddedOne(col, j, c);
    AddedPrefix(col, j, c);
  }

  method InsertRow(rows0: seq<int>, pos0: nat, row: int, diag: int, diagAdded0: bool)
    returns (rows: seq<int>, pos: nat, diagAdded: bool)
    requires pos0 + |Put(row, diag, diagAdded0)| <= |rows0|
    ensures |rows| == |rows0| && pos == pos0 + |Put(row, diag, diagAdded0)| && diagAdded == (diagAdded0 || row > diag)
    ensures rows[..pos] == rows0[..pos0] + Put(row, diag, diagAdded0)
  {
    rows, pos, diagAdded := rows0, pos0, diagAdded0;
    if row < diag {
      rows, pos := PutRow(rows, pos, row);
    }
    if row > diag {
      if !diagAdded {
        rows, pos := PutRow(rows, pos, diag);
        diagAdded := true;
      }
      rows, pos := PutRow(rows, pos, row);
    }
  }

  /** The first j entries of a column have been gone through, starting at pos0. */
  ghost predicate Through(rows: seq<int>, pos: nat, diagAdded: bool, rows0: seq<int>, pos0: nat, base: int, col: Column,
                          j: nat, c: nat)
    requires j <= |col| && pos0 <= |rows0|
  {
    && |rows| == |rows0| && diagAdded == Beyond(col[..j], c)
    && pos == pos0 + |Added(col[..j], c)| <= |rows|
    && rows[..pos] == rows0[..pos0] + Rows(Added(col[..j], c), base)
  }

  lemma ThroughNext(rows: seq<int>, pos: nat, diagAdded: bool, rows': seq<int>, pos': nat, diagAdded': bool, rows0: seq<int>,
                    pos0: nat, base: int, col: Column, j: nat, c: nat)
    requires j < |col| && pos0 <= |rows0| && Through(rows, pos, diagAdded, rows0, pos0, base, col, j, c)
    requires var put := Put(base + col[j].row, base + c, diagAdded);
             |rows'| == |rows| && pos' == pos + |put| <= |rows| && rows'[..pos'] == rows[..pos] + put
    requires diagAdded' == (diagAdded || col[j].row > c)
    ensures Through(rows', pos', diagAdded', rows0, pos0, base, col, j + 1, c)
  {
    AddedRows(col, j, c, base);
    PutLength(col, j, c, base);
    Associative(rows0[..pos0], Rows(Added(col[..j], c), base), Put(base + col[j].row, base + c, diagAdded));
  }

  lemma PutLength(col: Column, j: nat, c: nat, base: int)
    requires j < |col|
    ensures |Added(col[..j + 1], c)| == |Added(col[..j], c)| + |Put(base + col[j].row, base + c, Beyond(col[..j], c))|
    ensures |Added(col[..j + 1], c)| <= |col| + 1
  {
    AddedOne(col, j, c);
    AddedPrefix(col, j, c);
  }

  method InsertColumn(rows0: seq<int>, pos0: nat, base: int, rowind: seq<int>, colbeg: nat, colend: nat, c: nat,
                      ghost col: Column) returns (rows: seq<int>, pos: nat)
    requires colend == colbeg + |col| && Holds(rowind, colbeg, Rows(col, base)) && pos0 + |col| + 1 <= |rows0|
    ensures |rows| == |rows0| && pos == pos0 + |With(col, c)| <= |rows|
    ensures rows[..pos] == rows0[..pos0] + Rows(With(col, c), base)
  {
    rows, pos := rows0, pos0;
    var diagAdded := false;
    for eptr := colbeg to colend
      invariant Through(rows, pos, diagAdded, rows0, pos0, base, col, eptr - colbeg, c)
    {
      RowAt(rowind, base, colbeg, col, eptr - colbeg);
      PutLength(col, eptr - colbeg, c, base);
      ghost var before, at, flag := rows, pos, diagAdded;
      rows, pos, diagAdded := InsertRow(rows, pos, rowind[eptr], base + c, diagAdded);
      ThroughNext(before, at, flag, rows, pos, diagAdded, rows0, pos0, base, col, eptr - colbeg, c);
    }
    assert col[..|col|] == col;
    rows, pos := Finish(rows, pos, diagAdded, rows0, pos0, base, c, col);
  }

  method Finish(rows1: seq<int>, pos1: nat, diagAdded: bool, ghost rows0: seq<int>, ghost pos0: nat, base: int, c: nat,
                ghost col: Column) returns (rows: seq<int>, pos: nat)
    requires pos0 + |col| + 1 <= |rows0| && Through(rows1, pos1, diagAdded, rows0, pos0, base, col, |col|, c)
    ensures |rows| == |rows0| && pos == pos0 + |With(col, c)| <= |rows|
    ensures rows[..pos] == rows0[..pos0] + Rows(With(col, c), base)
  {
    rows, pos := rows1, pos1;
    assert col[..|col|] == col;
    if diagAdded {
      assert With(col, c) == Added(col, c);
    } else {
      AddedLength(col, c);
      RowsConcat(Added(col, c), [Diag(c)], base);
      Associative(rows0[..pos0], Rows(Added(col, c), base), [base + c]);
      rows, pos := PutRow(rows, pos, base + c);
    }
  }

  /** The first c columns are inserted. */
  ghost predicate Inserted(rows: seq<int>, pos: nat, base: int, before: seq<Column>, after: seq<Column>, c: nat)
    requires c <= |before| == |after|
  {
    && |rows| == Start(before, |before|) + |before|
    && pos == Start(after, c) <= |rows| && rows[..pos] == Rows(Flat(after[..c]), base)
  }

  lemma InsertedNext(rows: seq<int>, pos: nat, rows': seq<int>, pos': nat, base: int, before: seq<Column>, after: seq<Column>, c: nat)
    requires c < |before| == |after| && Inserted(rows, pos, base, before, after, c)
    requires |rows'| == |rows| && pos' == pos + |after[c]| <= |rows|
    requires rows'[..pos'] == rows[..pos] + Rows(after[c], base)
    ensures Inserted(rows', pos', base, before, after, c + 1)
  {
    FlatOne(after, c);
    RowsConcat(Flat(after[..c]), after[c], base);
  }

  lemma InsertRoom(cols: seq<Column>, first: nat, c: nat)
    requires c < |cols|
    ensures Start(WithAll(cols, first), c) + |cols[c]| + 1 <= Start(cols, |cols|) + |cols|
  {
    WithStarts(cols, first, c);
    StartMonotone(cols, c, |cols|);
  }

  method InsertInto(ptr0: seq<int>, rows0: seq<int>, pos0: nat, base: int, rowind: seq<int>, first: nat, c: nat,
                    ghost colptr: seq<int>, ghost cols: seq<Column>) returns (ptr: seq<int>, rows: seq<int>, pos: nat)
    requires GraphRepresents(base, colptr, rowind, cols) && c < |cols|
    requires Repointed(ptr0, base, cols, WithAll(cols, first), c)
    requires Inserted(rows0, pos0, base, cols, WithAll(cols, first), c)
    ensures Repointed(ptr, base, cols, WithAll(cols, first), c + 1)
    ensures Inserted(rows, pos, base, cols, WithAll(cols, first), c + 1)
  {
    ColumnPlace(base, colptr, rowind, seq(|rowind|, _ => ()), cols, c);
    assert Start(cols, c + 1) == Start(cols, c) + |cols[c]|;
    InsertRoom(cols, first, c);
    var colbeg, colend := ptr0[c] - base, ptr0[c + 1] - base;
    ptr := ptr0[c := pos0 + base];
    rows, pos := InsertColumn(rows0, pos0, base, rowind, colbeg, colend, first + c, cols[c]);
    InsertedNext(rows0, pos0, rows, pos, base, cols, WithAll(cols, first), c);
  }

  ghost predicate NoneStored(cols: seq<Column>, first: nat) {
    forall c :: 0 <= c < |cols| ==> |With(cols[c], first + c)| == |cols[c]| + 1
  }

  lemma NoneStoredNoDiagonal(cols: seq<Column>, first: nat)
    ensures NoneStored(cols, first) <==> NoDiagonal(cols, first)
  {
    forall c | 0 <= c < |cols|
      ensures |With(cols[c], first + c)| == |cols[c]| + 1 <==> forall e <- cols[c] :: e.row != first + c
    {
      AddedLength(cols[c], first + c);
    }
    if NoneStored(cols, first) {
      forall c: int, e: Entry<()> {:trigger e in cols[c]} | 0 <= c < |cols| && e in cols[c]
        ensures e.row != first + c
      {
        assert |With(cols[c], first + c)| == |cols[c]| + 1;
      }
    }
    if NoDiagonal(cols, first) {
      forall c | 0 <= c < |cols|
        ensures |With(cols[c], first + c)| == |cols[c]| + 1
      {
        forall e | e in cols[c]
          ensures e.row != first + c
        {
        }
      }
    }
  }

  lemma InsertedAll(ptr: seq<int>, rows: seq<int>, pos: nat, base: int, first: nat, cols: seq<Column>)
    requires Repointed(ptr, base, cols, WithAll(cols, first), |cols|)
    requires Inserted(rows, pos, base, cols, WithAll(cols, first), |cols|)
    ensures pos == |rows| <==> NoDiagonal(cols, first)
    ensures NoDiagonal(cols, first) ==> GraphRepresents(base, ptr[|cols| := |rows| + base], rows, WithAll(cols, first))
  {
    var after := WithAll(cols, first);
    WithStarts(cols, first, |cols|);
    NoneStoredNoDiagonal(cols, first);
    assert after[..|cols|] == after;
    if pos == |rows| {
      assert rows[..pos] == rows;
      UnitVals(Vals(Flat(after)), seq(|rows|, _ => ()));
      FlatRepresents(base, ptr[|cols| := |rows| + base], after);
    }
  }

  /** The new buffer is sized for one more row in every column.  It is filled exactly when no diagonal was
      stored; otherwise the last column ends with slots that were never written. */
  method InsertDiagonal(base: int, colptr: seq<int>, rowind: seq<int>, first: nat, ghost cols: seq<Column>)
    returns (newColptr: seq<int>, newRowind: seq<int>, ghost pos: nat)
    requires GraphRepresents(base, colptr, rowind, cols)
    ensures |newRowind| == |rowind| + |cols| && pos == Start(WithAll(cols, first), |cols|) <= |newRowind|
    ensures pos == |newRowind| <==> NoDiagonal(cols, first)
    ensures NoDiagonal(cols, first) ==> GraphRepresents(base, newColptr, newRowind, WithAll(cols, first))
  {
    var n := |colptr| - 1;
    newColptr, newRowind := colptr, seq(|rowind| + n, _ => 0);
    var at: nat := 0;
    for c := 0 to n
      invariant Repointed(newColptr, base, cols, WithAll(cols, first), c)
      invariant Inserted(newRowind, at, base, cols, WithAll(cols, first), c)
    {
      newColptr, newRowind, at := InsertInto(newColptr, newRowind, at, base, rowind, first, c, colptr, cols);
    }
    InsertedAll(newColptr, newRowind, at, base, first, cols);
    newColptr := newColptr[n := |newRowind| + base];
    pos := at;
  }

  // ---------------------------------------------------------------------------------------------
  // Round trips
  // ---------------------------------------------------------------------------------------------

  lemma {:induction false} WithoutConcat(a: Column, b: Column, c: nat)
    ensures Without(a + b, c) == Without(a, c) + Without(b, c)
  {
    if b == [] {
      assert a + b == a;
    } else {
      assert (a + b)[..|a + b| - 1] == a + b[..|b| - 1];
      WithoutConcat(a, b[..|b| - 1], c);
    }
  }

  lemma WithoutOneMore(a: Column, e: Entry<()>, c: nat)
    ensures Without(a + [e], c) == Without(a, c) + (if e.row != c then [e] else [])
  {
    assert (a + [e])[..|a|] == a;
  }

  lemma {:induction false} WithoutAdded(col: Column, c: nat)
    ensures Without(Added(col, c), c) == Without(col, c)
  {
    if col != [] {
      var front, e := col[..|col| - 1], col[|col| - 1];
      WithoutAdded(front, c);
      WithoutOneMore(Added(front, c), e, c);
      if e.row > c && !Beyond(front, c) {
        WithoutOneMore(Added(front, c), Diag(c), c);
        WithoutOneMore(Added(front, c) + [Diag(c)], e, c);
        assert Added(col, c) == Added(front, c) + [Diag(c)] + [e];
      }
    }
  }

  /** Inserting the diagonal and removing it again restores a column without diagonal, in any order. */
  lemma InsertThenRemove(col: Column, c: nat)
    requires forall e <- col :: e.row != c
    ensures Without(With(col, c), c) == col
  {
    WithoutAdded(col, c);
    WithoutNothing(col, c);
    WithoutConcat(Added(col, c), [Diag(c)], c);
    assert Added(col, c) + [] == Added(col, c);
  }

  lemma {:induction false} WithoutNothing(col: Column, c: nat)
    requires forall e <- col :: e.row != c
    ensures Without(col, c) == col
  {
    if col != [] {
      assert col[|col| - 1] in col;
      WithoutNothing(col[..|col| - 1], c);
    }
  }

  ghost predicate StrictlySorted(col: Column) {
    forall i, j :: 0 <= i < j < |col| ==> col[i].row < col[j].row
  }

  lemma {:induction false} AddedLow(lo: Column, c: nat)
    requires forall e <- lo :: e.row < c
    ensures Added(lo, c) == lo && !Beyond(lo, c)
  {
    if lo != [] {
      assert lo[|lo| - 1] in lo;
      AddedLow(lo[..|lo| - 1], c);
    }
  }

  lemma AddedBeyond(a: Column, e: Entry<()>, c: nat)
    requires e.row > c
    ensures Beyond(a + [e], c)
    ensures Added(a + [e], c) == Added(a, c) + (if Beyond(a, c) then [e] else [Diag(c), e])
  {
    AddedOne(a + [e], |a|, c);
    assert (a + [e])[..|a|] == a && (a + [e])[..|a| + 1] == a + [e];
  }

  lemma {:induction false} AddedHigh(lo: Column, hi: Column, c: nat)
    requires (forall e <- lo :: e.row < c) && (forall e <- hi :: e.row > c) && hi != []
    ensures Beyond(lo + hi, c) && Added(lo + hi, c) == lo + [Diag(c)] + hi
  {
    var n := |hi| - 1;
    assert hi[n] in hi;
    AddedBeyond(lo + hi[..n], hi[n], c);
    assert lo + hi[..n] + [hi[n]] == lo + hi;
    if n == 0 {
      AddedLow(lo, c);
      assert lo + hi[..0] == lo && [Diag(c), hi[0]] == [Diag(c)] + hi;
    } else {
      AddedHigh(lo, hi[..n], c);
      assert lo + [Diag(c)] + hi[..n] + [hi[n]] == lo + [Diag(c)] + hi;
    }
  }

  /** Removing a stored diagonal and inserting it again restores a sorted column. */
  lemma RemoveThenInsert(col: Column, c: nat)
    requires StrictlySorted(col) && Diag(c) in col
    ensures With(Without(col, c), c) == col
  {
    var i :| 0 <= i < |col| && col[i] == Diag(c);
    var lo, hi := col[..i], col[i + 1..];
    assert col == lo + [Diag(c)] + hi;
    WithoutConcat(lo + [Diag(c)], hi, c);
    WithoutOneMore(lo, Diag(c), c);
    WithoutNothing(lo, c);
    WithoutNothing(hi, c);
    assert lo + [] == lo;
    if hi == [] {
      AddedLow(lo, c);
      assert lo + hi == lo;
    } else {
      AddedHigh(lo, hi, c);
    }
  }

  /** One column that already holds its diagonal: one of the two slots made for it is written. */
  lemma DiagonalTwice()
    ensures var cols: seq<Column> := [[Entry(0, ())]];
            Start(WithAll(cols, 0), 1) == 1 && Start(cols, 1) + |cols| == 2 && !NoDiagonal(cols, 0)
  {
    var cols: seq<Column> := [[Entry(0, ())]];
    assert cols[0][..0] == [];
    assert Entry(0, ()) in cols[0];
    assert With(cols[0], 0) == [Entry(0, ())];
  }
}
