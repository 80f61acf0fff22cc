/** Back from both triangles to lower storage, and the removal and insertion of the diagonal. */
module Restriction {
  import opened Segments
  import opened DistMatrix
  import opened Assembly
  import opened Expansion

  lemma RowsConcat<V>(a: seq<Entry<V>>, b: seq<Entry<V>>, base: int)
    ensures Rows(a + b, base) == Rows(a, base) + Rows(b, base)
    ensures Vals(a + b) == Vals(a) + Vals(b)
  {
  }

  lemma RowsHold<V>(s: seq<Entry<V>>, at: nat, x: seq<Entry<V>>, base: int)
    requires Holds(s, at, x)
    ensures Holds(Rows(s, base), at, Rows(x, base)) && Holds(Vals(s), at, Vals(x))
  {
    forall j | 0 <= j < |x|
      ensures s[at + j] == x[j]
    {
      assert s[at..at + |x|][j] == x[j];
    }
  }

  /** Columns written one after the other are represented by their lengths summed up. */
  lemma FlatRepresents<V>(base: int, colptr: seq<int>, cols: seq<seq<Entry<V>>>)
    requires |colptr| == |cols| + 1
    requires forall c {:trigger colptr[c]} :: 0 <= c <= |cols| ==> colptr[c] == base + Start(cols, c)
    ensures Represents(base, colptr, Rows(Flat(cols), base), Vals(Flat(cols)), cols)
  {
    FlatLength(cols);
    forall c | 0 <= c < |cols|
      ensures ColumnStored(Rows(Flat(cols), base), Vals(Flat(cols)), base, cols, c)
    {
      FlatHolds(cols, c);
      RowsHold(Flat(cols), Start(cols, c), cols[c], base);
    }
  }

  lemma KeptOne<V>(col: seq<Entry<V>>, j: nat, c: nat, diag: bool)
    requires j < |col|
    ensures Kept(col[..j + 1], c, diag)
         == Kept(col[..j], c, diag) + (if col[j].row > c || (diag && col[j].row == c) then [col[j]] else [])
  {
    assert col[..j + 1][..j] == col[..j];
  }

  method CountKept<V>(base: int, rowind: seq<int>, colbeg: nat, colend: nat, c: nat, keepDiag: bool,
                      ghost nzval: seq<V>, ghost col: seq<Entry<V>>) returns (n: nat)
    requires Stored(rowind, nzval, base, colbeg, col) && colend == colbeg + |col|
    ensures n == |Kept(col, c, keepDiag)|
  {
    n := 0;
    for k := colbeg to colend
      invariant n == |Kept(col[..k - colbeg], c, keepDiag)|
    {
      StoredEntry(rowind, nzval, base, colbeg, col, k - colbeg);
      KeptOne(col, k - colbeg, c, keepDiag);
      var row := rowind[k] - base;
      if row > c || (keepDiag && row == c) {
        n := n + 1;
      }
    }
    assert col[..|col|] == col;
  }

  /** The copy loop of the row indices: its test lets the diagonal through even when it is not kept. */
  method PushRows<V>(rows0: seq<int>, base: int, rowind: seq<int>, colbeg: nat, colend: nat, c: nat, keepDiag: bool,
                     ghost nzval: seq<V>, ghost col: seq<Entry<V>>) returns (rows: seq<int>)
    requires Stored(rowind, nzval, base, colbeg, col) && colend == colbeg + |col|
    ensures rows == rows0 + Rows(Kept(col, c, true), base)
  {
    rows := rows0;
    for k := colbeg to colend
      invariant rows == rows0 + Rows(Kept(col[..k - colbeg], c, true), base)
    {
      StoredEntry(rowind, nzval, base, colbeg, col, k - colbeg);
      KeptOne(col, k - colbeg, c, true);
      var row := rowind[k] - base;
      if row >= c || (keepDiag && row == c) {
        RowsAppend(Kept(col[..k - colbeg], c, true), col[k - colbeg], base);
        rows := rows + [row + base];
      }
    }
    assert col[..|col|] == col;
  }

  method PushVals<V>(vals0: seq<V>, base: int, rowind: seq<int>, nzval: seq<V>, colbeg: nat, colend: nat, c: nat,
                     keepDiag: bool, ghost col: seq<Entry<V>>) returns (vals: seq<V>)
    requires Stored(rowind, nzval, base, colbeg, col) && colend == colbeg + |col|
    ensures vals == vals0 + Vals(Kept(col, c, keepDiag))
  {
    vals := vals0;
    for k := colbeg to colend
      invariant vals == vals0 + Vals(Kept(col[..k - colbeg], c, keepDiag))
    {
      StoredEntry(rowind, nzval, base, colbeg, col, k - colbeg);
      KeptOne(col, k - colbeg, c, keepDiag);
      var row := rowind[k] - base;
      if row > c || (row == c && keepDiag) {
        RowsAppend(Kept(col[..k - colbeg], c, keepDiag), col[k - colbeg], base);
        vals := vals + [nzval[k]];
      }
    }
    assert col[..|col|] == col;
  }

  lemma ColumnPlace<V>(base: int, colptr: seq<int>, rowind: seq<int>, nzval: seq<V>, cols: seq<seq<Entry<V>>>, c: nat)
    requires Represents(base, colptr, rowind, nzval, cols) && c < |cols|
    ensures 0 <= colptr[c] - base && colptr[c + 1] - base == colptr[c] - base + |cols[c]|
    ensures Stored(rowind, nzval, base, colptr[c] - base, cols[c])
  {
    assert ColumnStored(rowind, nzval, base, cols, c);
  }

  lemma FlatKept<V>(cols: seq<seq<Entry<V>>>, first: nat, diag: bool, i: nat, base: int)
    requires i < |cols|
    ensures Rows(Flat(KeptAll(cols, first, diag)[..i + 1]), base)
         == Rows(Flat(KeptAll(cols, first, diag)[..i]), base) + Rows(Kept(cols[i], first + i, diag), base)
    ensures Vals(Flat(KeptAll(cols, first, diag)[..i + 1]))
         == Vals(Flat(KeptAll(cols, first, diag)[..i])) + Vals(Kept(cols[i], first + i, diag))
  {
    FlatOne(KeptAll(cols, first, diag), i);
    RowsConcat(Flat(KeptAll(cols, first, diag)[..i]), Kept(cols[i], first + i, diag), base);
  }

  /** The count pass. */
  method CountAll<V>(base: int, colptr: seq<int>, rowind: seq<int>, first: nat, keepDiag: bool,
                     ghost nzval: seq<V>, ghost cols: seq<seq<Entry<V>>>) returns (nnzcnt: seq<nat>)
    requires Represents(base, colptr, rowind, nzval, cols)
    ensures |nnzcnt| == |cols| && forall c :: 0 <= c < |cols| ==> nnzcnt[c] == |Kept(cols[c], first + c, keepDiag)|
  {
    nnzcnt := [];
    for c := 0 to |colptr| - 1
      invariant |nnzcnt| == c && forall i :: 0 <= i < c ==> nnzcnt[i] == |Kept(cols[i], first + i, keepDiag)|
    {
      ColumnPlace(base, colptr, rowind, nzval, cols, c);
      var n := CountKept(base, rowind, colptr[c] - base, colptr[c + 1] - base, first + c, keepDiag, nzval, cols[c]);
      nnzcnt := nnzcnt + [n];
    }
  }

  method CopyRows<V>(base: int, colptr: seq<int>, rowind: seq<int>, first: nat, keepDiag: bool,
                     ghost nzval: seq<V>, ghost cols: seq<seq<Entry<V>>>) returns (rows: seq<int>)
    requires Represents(base, colptr, rowind, nzval, cols)
    ensures rows == Rows(Flat(KeptAll(cols, first, true)), base)
  {
    rows := [];
    for c := 0 to |colptr| - 1
      invariant rows == Rows(Flat(KeptAll(cols, first, true)[..c]), base)
    {
      ColumnPlace(base, colptr, rowind, nzval, cols, c);
      FlatKept(cols, first, true, c, base);
      rows := PushRows(rows, base, rowind, colptr[c] - base, colptr[c + 1] - base, first + c, keepDiag, nzval, cols[c]);
    }
    assert KeptAll(cols, first, true)[..|cols|] == KeptAll(cols, first, true);
  }

  method CopyVals<V>(base: int, colptr: seq<int>, rowind: seq<int>, nzval: seq<V>, first: nat, keepDiag: bool,
                     ghost cols: seq<seq<Entry<V>>>) returns (vals: seq<V>)
    requires Represents(base, colptr, rowind, nzval, cols)
    ensures vals == Vals(Flat(KeptAll(cols, first, keepDiag)))
  {
    vals := [];
    for c := 0 to |colptr| - 1
      invariant vals == Vals(Flat(KeptAll(cols, first, keepDiag)[..c]))
    {
      ColumnPlace(base, colptr, rowind, nzval, cols, c);
      FlatKept(cols, first, keepDiag, c, base);
      vals := PushVals(vals, base, rowind, nzval, colptr[c] - base, colptr[c + 1] - base, first + c, keepDiag, cols[c]);
    }
    assert KeptAll(cols, first, keepDiag)[..|cols|] == KeptAll(cols, first, keepDiag);
  }

  /** The three passes as they are: the column pointers and the values follow keepDiag, the row indices do
      not. */
  method Restrict<V>(base: int, colptr: seq<int>, rowind: seq<int>, nzval: seq<V>, first: nat, keepDiag: bool,
                     ghost cols: seq<seq<Entry<V>>>) returns (newColptr: seq<int>, newRowind: seq<int>, newNzval: seq<V>)
    requires Represents(base, colptr, rowind, nzval, cols)
    ensures |newColptr| == |cols| + 1
    ensures forall c {:trigger newColptr[c]} :: 0 <= c <= |cols| ==> newColptr[c] == base + Start(KeptAll(cols, first, keepDiag), c)
    ensures newRowind == Rows(Flat(KeptAll(cols, first, true)), base)
    ensures newNzval == Vals(Flat(KeptAll(cols, first, keepDiag)))
  {
    var nnzcnt := CountAll(base, colptr, rowind, first, keepDiag, nzval, cols);
    newColptr := PartialSums(nnzcnt, base);
    newRowind := CopyRows(base, colptr, rowind, first, keepDiag, nzval, cols);
    newNzval := CopyVals(base, colptr, rowind, nzval, first, keepDiag, cols);
    forall c {:trigger newColptr[c]} | 0 <= c <= |cols|
      ensures newColptr[c] == base + Start(KeptAll(cols, first, keepDiag), c)
    {
      TotalIsStart(nnzcnt, KeptAll(cols, first, keepDiag), c);
    }
  }

  ghost predicate NoDiagonal<V>(cols: seq<seq<Entry<V>>>, first: nat) {
    forall c, e {:trigger e in cols[c]} :: 0 <= c < |cols| && e in cols[c] ==> e.row != first + c
  }

  lemma {:induction false} KeptLengths<V>(col: seq<Entry<V>>, c: nat)
    ensures |Kept(col, c, false)| <= |Kept(col, c, true)|
    ensures |Kept(col, c, false)| == |Kept(col, c, true)| <==> forall e <- col :: e.row != c
    ensures |Kept(col, c, false)| == |Kept(col, c, true)| ==> Kept(col, c, false) == Kept(col, c, true)
  {
    if col != [] {
      var front, e := col[..|col| - 1], col[|col| - 1];
      KeptLengths(front, c);
      assert col == front + [e];
    }
  }

  lemma {:induction false} KeptStarts<V>(cols: seq<seq<Entry<V>>>, first: nat, i: nat)
    requires i <= |cols|
    ensures Start(KeptAll(cols, first, false), i) <= Start(KeptAll(cols, first, true), i)
    ensures Start(KeptAll(cols, first, false), i) == Start(KeptAll(cols, first, true), i)
       ==> forall c :: 0 <= c < i ==> |Kept(cols[c], first + c, false)| == |Kept(cols[c], first + c, true)|
  {
    if i > 0 {
      KeptStarts(cols, first, i - 1);
      KeptLengths(cols[i - 1], first + i - 1);
    }
  }

  lemma SameKept<V>(cols: seq<seq<Entry<V>>>, first: nat)
    requires NoDiagonal(cols, first)
    ensures KeptAll(cols, first, false) == KeptAll(cols, first, true)
  {
    forall c | 0 <= c < |cols|
      ensures KeptAll(cols, first, false)[c] == KeptAll(cols, first, true)[c]
    {
      KeptLengths(cols[c], first + c);
      forall e | e in cols[c]
        ensures e.row != first + c
      {
      }
    }
  }

  /** The pointers that `Restrict` returns end where its row indices end exactly when the diagonal is kept or
      none is stored; then the three arrays represent the columns without their upper triangle. */
  lemma RestrictConsistent<V>(base: int, cols: seq<seq<Entry<V>>>, first: nat, keepDiag: bool, newColptr: seq<int>,
                              newRowind: seq<int>, newNzval: seq<V>)
    requires |newColptr| == |cols| + 1
    requires forall c {:trigger newColptr[c]} :: 0 <= c <= |cols| ==> newColptr[c] == base + Start(KeptAll(cols, first, keepDiag), c)
    requires newRowind == Rows(Flat(KeptAll(cols, first, true)), base)
    requires newNzval == Vals(Flat(KeptAll(cols, first, keepDiag)))
    ensures newColptr[|cols|] == base + |newRowind| <==> keepDiag || NoDiagonal(cols, first)
    ensures keepDiag || NoDiagonal(cols, first) ==> Represents(base, newColptr, newRowind, newNzval, KeptAll(cols, first, true))
  {
    FlatLength(KeptAll(cols, first, true));
    if keepDiag {
      FlatRepresents(base, newColptr, KeptAll(cols, first, true));
    } else {
      KeptStarts(cols, first, |cols|);
      if NoDiagonal(cols, first) {
        SameKept(cols, first);
        FlatRepresents(base, newColptr, KeptAll(cols, first, true));
      } else {
        var c, e :| 0 <= c < |cols| && e in cols[c] && e.row == first + c;
        KeptLengths(cols[c], first + c);
      }
    }
  }

  /** One column with its diagonal, which is not to be kept: the pointers say that nothing is stored, and one row
      index is. */
  lemma StoredDiagonal<V>(base: int, v: V, newColptr: seq<int>, newRowind: seq<int>, newNzval: seq<V>)
    requires |newColptr| == 2 && newColptr[1] == base + Start(KeptAll([[Entry(0, v)]], 0, false), 1)
    requires newRowind == Rows(Flat(KeptAll([[Entry(0, v)]], 0, true)), base)
    ensures newColptr[1] == base && |newRowind| == 1
  {
    var cols := [[Entry(0, v)]];
    assert cols[0][..0] == [] && Kept(cols[0][..0], 0, true) == [] && Kept(cols[0][..0], 0, false) == [];
    assert Kept(cols[0], 0, true) == cols[0] && Kept(cols[0], 0, false) == [];
    assert KeptAll(cols, 0, true) == [cols[0]] && KeptAll(cols, 0, false) == [[]];
    FlatLength(KeptAll(cols, 0, true));
  }
}
