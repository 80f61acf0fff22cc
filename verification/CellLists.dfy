/** From row lists to cells and back: the descriptors that one rank sends for its supernodes, the cells that the
    receivers build from them, and the places of the entries of the matrix. */
module CellLists {
  import opened Cells

  /** A message element: a cell with its counts, or a run of rows of the last cell. */
  datatype Tuple =
    | Header(K: nat, I: nat, nblock: nat, nrows: nat)
    | Piece(first: nat, count: nat)

  datatype Interval = Interval(first: nat, count: nat)

  /** A cell (K,I) by its runs. */
  datatype Cell = Cell(K: nat, runs: seq<Interval>)

  ghost function RunRows(runs: seq<Interval>): seq<nat> {
    if runs == [] then [] else Run(runs[0].first, runs[0].count) + RunRows(runs[1..])
  }

  ghost function CellRows(cells: seq<Cell>): seq<nat> {
    if cells == [] then [] else RunRows(cells[0].runs) + CellRows(cells[1..])
  }

  ghost function Pieces(runs: seq<Interval>): (ts: seq<Tuple>)
    ensures |ts| == |runs| && forall k :: 0 <= k < |runs| ==> ts[k] == Piece(runs[k].first, runs[k].count)
  {
    seq(|runs|, k requires 0 <= k < |runs| => Piece(runs[k].first, runs[k].count))
  }

  ghost function Flat(cell: Cell, I: nat): seq<Tuple> {
    [Header(cell.K, I, |cell.runs|, |RunRows(cell.runs)|)] + Pieces(cell.runs)
  }

  /** The message for a list of cells. */
  ghost function Flatten(cells: seq<Cell>, I: nat): seq<Tuple> {
    if cells == [] then [] else Flat(cells[0], I) + Flatten(cells[1..], I)
  }

  /** A cell has at least one run, no run is empty, and all its rows belong to one supernode. */
  ghost predicate CellOk(cell: Cell, sup: nat -> nat) {
    && cell.runs != [] && (forall k :: 0 <= k < |cell.runs| ==> cell.runs[k].count > 0)
    && (forall k :: 0 <= k < |RunRows(cell.runs)| ==> sup(RunRows(cell.runs)[k]) == cell.K)
  }

  /** Cells for different supernodes, one after the other. */
  ghost predicate CellsOk(cells: seq<Cell>, sup: nat -> nat) {
    && (forall c :: 0 <= c < |cells| ==> CellOk(cells[c], sup))
    && (forall c :: 0 <= c < |cells| - 1 ==> cells[c].K != cells[c + 1].K)
  }

  lemma {:induction false} RunRowsAppend(runs: seq<Interval>, r: Interval)
    ensures RunRows(runs + [r]) == RunRows(runs) + Run(r.first, r.count)
  {
    if runs == [] {
      assert runs + [r] == [r];
      assert RunRows([r][1..]) == [];
    } else {
      RunRowsAppend(runs[1..], r);
      assert (runs + [r])[1..] == runs[1..] + [r];
    }
  }

  lemma {:induction false} CellRowsAppend(cells: seq<Cell>, c: Cell)
    ensures CellRows(cells + [c]) == CellRows(cells) + RunRows(c.runs)
  {
    if cells == [] {
      assert cells + [c] == [c];
      assert CellRows([c][1..]) == [];
    } else {
      CellRowsAppend(cells[1..], c);
      assert (cells + [c])[1..] == cells[1..] + [c];
      Associative(RunRows(cells[0].runs), CellRows(cells[1..]), RunRows(c.runs));
    }
  }

  lemma {:induction false} FlattenAppend(cells: seq<Cell>, c: Cell, I: nat)
    ensures Flatten(cells + [c], I) == Flatten(cells, I) + Flat(c, I)
  {
    if cells == [] {
      assert cells + [c] == [c];
      assert Flatten([c][1..], I) == [];
    } else {
      FlattenAppend(cells[1..], c, I);
      assert (cells + [c])[1..] == cells[1..] + [c];
      Associative(Flat(cells[0], I), Flatten(cells[1..], I), Flat(c, I));
    }
  }

  /** The list while a cell is open: the closed cells, the header with the counts so far, its closed runs. */
  ghost function Open(done: seq<Cell>, K: nat, runs: seq<Interval>, nrows: nat, I: nat): seq<Tuple> {
    Flatten(done, I) + [Header(K, I, |runs|, nrows)] + Pieces(runs)
  }

  lemma PiecesAppend(runs: seq<Interval>, r: Interval)
    ensures Pieces(runs + [r]) == Pieces(runs) + [Piece(r.first, r.count)]
  {
  }

  /** Closing a run: the header counts one block more, and the run is appended. */
  lemma CloseRun(done: seq<Cell>, K: nat, runs: seq<Interval>, nrows: nat, I: nat, h: nat, r: Interval)
    requires h == |Flatten(done, I)|
    ensures |Open(done, K, runs, nrows, I)| > h
    ensures Open(done, K, runs, nrows, I)[h := Header(K, I, |runs| + 1, nrows)] + [Piece(r.first, r.count)]
            == Open(done, K, runs + [r], nrows, I)
  {
    PiecesAppend(runs, r);
    var ts := Open(done, K, runs, nrows, I);
    assert ts[h := Header(K, I, |runs| + 1, nrows)] == Flatten(done, I) + [Header(K, I, |runs| + 1, nrows)] + Pieces(runs);
  }

  lemma CountRow(done: seq<Cell>, K: nat, runs: seq<Interval>, nrows: nat, I: nat, h: nat)
    requires h == |Flatten(done, I)|
    ensures |Open(done, K, runs, nrows, I)| > h
    ensures Open(done, K, runs, nrows, I)[h := Header(K, I, |runs|, nrows + 1)] == Open(done, K, runs, nrows + 1, I)
  {
  }

  lemma CloseCell(done: seq<Cell>, K: nat, runs: seq<Interval>, I: nat)
    ensures Open(done, K, runs, |RunRows(runs)|, I) == Flatten(done + [Cell(K, runs)], I)
  {
    FlattenAppend(done, Cell(K, runs), I);
  }

  /** What has been built when the rows before k are processed: closed cells, then the open cell with its
      closed runs and the run under way. */
  ghost predicate Building(rows: seq<nat>, k: nat, I: nat, sup: nat -> nat, ts: seq<Tuple>, h: nat,
                           done: seq<Cell>, K: nat, runs: seq<Interval>, start: nat, count: nat) {
    && k <= |rows| && count > 0 && h == |Flatten(done, I)|
    && ts == Open(done, K, runs, |RunRows(runs)| + count, I)
    && rows[..k] == CellRows(done) + RunRows(runs) + Run(start, count)
    && CellsOk(done, sup) && (done != [] ==> done[|done| - 1].K != K)
    && (forall r :: 0 <= r < |runs| ==> runs[r].count > 0)
    && (forall r :: 0 <= r < |RunRows(runs)| ==> sup(RunRows(runs)[r]) == K)
    && (forall r :: start <= r < start + count ==> sup(r) == K)
  }

  /** The run under way ends. */
  lemma EndRun(rows: seq<nat>, k: nat, I: nat, sup: nat -> nat, ts: seq<Tuple>, h: nat,
               done: seq<Cell>, K: nat, runs: seq<Interval>, start: nat, count: nat)
    requires Building(rows, k, I, sup, ts, h, done, K, runs, start, count)
    ensures h < |ts| && ts[h] == Header(K, I, |runs|, |RunRows(runs)| + count)
    ensures var runs' := runs + [Interval(start, count)];
            && ts[h := Header(K, I, |runs| + 1, |RunRows(runs)| + count)] + [Piece(start, count)] == Open(done, K, runs', |RunRows(runs')|, I)
            && rows[..k] == CellRows(done) + RunRows(runs') && CellOk(Cell(K, runs'), sup)
  {
    CloseRun(done, K, runs, |RunRows(runs)| + count, I, h, Interval(start, count));
    RunRowsAppend(runs, Interval(start, count));
  }

  /** A further row of the same run. */
  lemma NextRow(rows: seq<nat>, k: nat, I: nat, sup: nat -> nat, ts: seq<Tuple>, h: nat,
                done: seq<Cell>, K: nat, runs: seq<Interval>, start: nat, count: nat)
    requires Building(rows, k, I, sup, ts, h, done, K, runs, start, count)
    requires k < |rows| && rows[k] == start + count && sup(rows[k]) == K
    ensures h < |ts| && Building(rows, k + 1, I, sup, ts[h := ts[h].(nrows := ts[h].nrows + 1)], h, done, K, runs, start, count + 1)
  {
    CountRow(done, K, runs, |RunRows(runs)| + count, I, h);
    assert rows[..k + 1] == rows[..k] + [rows[k]];
    assert Run(start, count + 1) == Run(start, count) + [start + count];
  }

  /** A row that opens a run of the same cell. */
  lemma NextRun(rows: seq<nat>, k: nat, I: nat, sup: nat -> nat, ts: seq<Tuple>, h: nat,
                done: seq<Cell>, K: nat, runs: seq<Interval>, start: nat, count: nat)
    requires Building(rows, k, I, sup, ts, h, done, K, runs, start, count)
    requires k < |rows| && sup(rows[k]) == K
    ensures h < |ts| && ts[h].Header?
    ensures var ts1 := ts[h := ts[h].(nblock := ts[h].nblock + 1)] + [Piece(start, count)];
            h < |ts1| && ts1[h].Header? &&
            Building(rows, k + 1, I, sup, ts1[h := ts1[h].(nrows := ts1[h].nrows + 1)], h, done, K, runs + [Interval(start, count)], rows[k], 1)
  {
    EndRun(rows, k, I, sup, ts, h, done, K, runs, start, count);
    var runs' := runs + [Interval(start, count)];
    CountRow(done, K, runs', |RunRows(runs')|, I, h);
    assert rows[..k + 1] == rows[..k] + [rows[k]];
    assert Run(rows[k], 1) == [rows[k]];
  }

  /** A row that opens a cell. */
  lemma NextCell(rows: seq<nat>, k: nat, I: nat, sup: nat -> nat, ts: seq<Tuple>, h: nat,
                 done: seq<Cell>, K: nat, runs: seq<Interval>, start: nat, count: nat)
    requires Building(rows, k, I, sup, ts, h, done, K, runs, start, count)
    requires k < |rows| && sup(rows[k]) != K
    ensures h < |ts| && ts[h].Header?
    ensures var ts1 := ts[h := ts[h].(nblock := ts[h].nblock + 1)] + [Piece(start, count)];
            Building(rows, k + 1, I, sup, ts1 + [Header(sup(rows[k]), I, 0, 1)], |ts1|,
                     done + [Cell(K, runs + [Interval(start, count)])], sup(rows[k]), [], rows[k], 1)
  {
    EndRun(rows, k, I, sup, ts, h, done, K, runs, start, count);
    var runs' := runs + [Interval(start, count)];
    CloseCell(done, K, runs', I);
    CellRowsAppend(done, Cell(K, runs'));
    assert rows[..k + 1] == rows[..k] + [rows[k]];
    assert Run(rows[k], 1) == [rows[k]];
  }

  lemma FirstRow(rows: seq<nat>, I: nat, sup: nat -> nat)
    requires rows != []
    ensures Building(rows, 1, I, sup, [Header(sup(rows[0]), I, 0, 1)], 0, [], sup(rows[0]), [], rows[0], 1)
  {
    assert rows[..1] == [rows[0]] == Run(rows[0], 1);
  }

  lemma LastOfRun(rows: seq<nat>, k: nat, I: nat, sup: nat -> nat, ts: seq<Tuple>, h: nat,
                  done: seq<Cell>, K: nat, runs: seq<Interval>, start: nat, count: nat)
    requires Building(rows, k, I, sup, ts, h, done, K, runs, start, count)
    ensures k > 0 && rows[k - 1] == start + count - 1
  {
    var run := Run(start, count);
    assert rows[..k][k - 1] == run[count - 1];
  }

  /** One further row: it extends the run under way, or opens a run, or opens a cell. */
  method AddRow(ts0: seq<Tuple>, h0: nat, K: nat, iStartRow0: nat, iPrevRow: nat, iContiguousRows0: nat, I: nat, sup: nat -> nat,
                rows: seq<nat>, k: nat, ghost cells0: seq<Cell>, ghost runs0: seq<Interval>)
    returns (ts: seq<Tuple>, h: nat, iStartRow: nat, iContiguousRows: nat, ghost cells: seq<Cell>, ghost runs: seq<Interval>)
    requires Building(rows, k, I, sup, ts0, h0, cells0, K, runs0, iStartRow0, iContiguousRows0)
    requires k < |rows| && iStartRow0 <= iPrevRow == iStartRow0 + iContiguousRows0 - 1 < rows[k]
    ensures Building(rows, k + 1, I, sup, ts, h, cells, sup(rows[k]), runs, iStartRow, iContiguousRows)
  {
    var row := rows[k];
    ts, h, iStartRow, iContiguousRows, cells, runs := ts0, h0, iStartRow0, iContiguousRows0, cells0, runs0;
    if sup(row) != K {
      NextCell(rows, k, I, sup, ts, h, cells, K, runs, iStartRow, iContiguousRows);
      cells := cells + [Cell(K, runs + [Interval(iStartRow, iContiguousRows)])];
      ts := ts[h := ts[h].(nblock := ts[h].nblock + 1)] + [Piece(iStartRow, iContiguousRows)];
      h := |ts|;
      ts := ts + [Header(sup(row), I, 0, 1)];
      iStartRow, iContiguousRows, runs := row, 1, [];
    } else if row == iPrevRow + 1 || row == iStartRow {
      NextRow(rows, k, I, sup, ts, h, cells, K, runs, iStartRow, iContiguousRows);
      iContiguousRows := iContiguousRows + 1;
      ts := ts[h := ts[h].(nrows := ts[h].nrows + 1)];
    } else {
      NextRun(rows, k, I, sup, ts, h, cells, K, runs, iStartRow, iContiguousRows);
      ts := ts[h := ts[h].(nblock := ts[h].nblock + 1)] + [Piece(iStartRow, iContiguousRows)];
      runs := runs + [Interval(iStartRow, iContiguousRows)];
      iStartRow, iContiguousRows := row, 1;
      ts := ts[h := ts[h].(nrows := ts[h].nrows + 1)];
    }
  }

  /** All rows are in: the run under way and the cell end. */
  lemma Complete(rows: seq<nat>, I: nat, sup: nat -> nat, ts: seq<Tuple>, h: nat,
                 done: seq<Cell>, K: nat, runs: seq<Interval>, start: nat, count: nat)
    requires Building(rows, |rows|, I, sup, ts, h, done, K, runs, start, count)
    ensures h < |ts| && ts[h].Header?
    ensures var cells := done + [Cell(K, runs + [Interval(start, count)])];
            && ts[h := ts[h].(nblock := ts[h].nblock + 1)] + [Piece(start, count)] == Flatten(cells, I)
            && CellRows(cells) == rows && CellsOk(cells, sup)
  {
    EndRun(rows, |rows|, I, sup, ts, h, done, K, runs, start, count);
    CloseCell(done, K, runs + [Interval(start, count)], I);
    CellRowsAppend(done, Cell(K, runs + [Interval(start, count)]));
    assert rows[..|rows|] == rows;
  }

  /** The descriptors of supernode I from its rows: a cell for every supernode met, a run for every stretch of
      consecutive rows, split where the supernode changes; the header of the open cell counts along. */
  method Encode(rows: seq<nat>, I: nat, sup: nat -> nat) returns (ts: seq<Tuple>, ghost cells: seq<Cell>)
    requires Increasing(rows)
    ensures ts == Flatten(cells, I) && CellRows(cells) == rows && CellsOk(cells, sup)
  {
    ts, cells := [], [];
    if rows == [] {
      return;
    }
    FirstRow(rows, I, sup);
    var h: nat, iStartRow: nat, iContiguousRows: nat := 0, rows[0], 1;
    ts := [Header(sup(rows[0]), I, 0, 1)];
    ghost var runs: seq<Interval> := [];
    for k := 1 to |rows|
      invariant Building(rows, k, I, sup, ts, h, cells, sup(rows[k - 1]), runs, iStartRow, iContiguousRows)
    {
      LastOfRun(rows, k, I, sup, ts, h, cells, sup(rows[k - 1]), runs, iStartRow, iContiguousRows);
      assert rows[k - 1] < rows[k];
      ts, h, iStartRow, iContiguousRows, cells, runs :=
        AddRow(ts, h, sup(rows[k - 1]), iStartRow, rows[k - 1], iContiguousRows, I, sup, rows, k, cells, runs);
    }
    Complete(rows, I, sup, ts, h, cells, sup(rows[|rows| - 1]), runs, iStartRow, iContiguousRows);
    cells := cells + [Cell(sup(rows[|rows| - 1]), runs + [Interval(iStartRow, iContiguousRows)])];
    ts := ts[h := ts[h].(nblock := ts[h].nblock + 1)] + [Piece(iStartRow, iContiguousRows)];
  }

  // ---------------------------------------------------------------------------------------------
  // The receiver
  // ---------------------------------------------------------------------------------------------

  lemma Associative<A>(a: seq<A>, b: seq<A>, c: seq<A>)
    ensures a + b + c == a + (b + c)
  {
  }

  lemma {:induction false} RunRowsSplit(runs: seq<Interval>, more: seq<Interval>)
    ensures RunRows(runs + more) == RunRows(runs) + RunRows(more)
  {
    if runs == [] {
      assert runs + more == more;
    } else {
      RunRowsSplit(runs[1..], more);
      assert (runs + more)[1..] == runs[1..] + more;
      Associative(Run(runs[0].first, runs[0].count), RunRows(runs[1..]), RunRows(more));
    }
  }

  lemma ThreeParts(all: seq<nat>, stored: seq<nat>, run: seq<nat>, rest: seq<nat>, w: nat)
    requires all == stored + run + rest && Increasing(all) && run != []
    ensures stored != [] ==> stored[|stored| - 1] < run[0]
    ensures |stored| * w + |run| * w <= |all| * w
  {
    assert all[|stored|] == run[0];
    if stored != [] {
      assert all[|stored| - 1] == stored[|stored| - 1] && all[|stored| - 1] < all[|stored|];
    }
    Distribute(|stored|, |run|, |rest|, w);
  }

  /** The next run fits below the rows stored so far and into the capacity. */
  lemma NextPiece(runs: seq<Interval>, b: nat, w: nat)
    requires b < |runs| && Increasing(RunRows(runs)) && runs[b].count > 0
    ensures var stored, r := RunRows(runs[..b]), runs[b];
            && RunRows(runs[..b + 1]) == stored + Run(r.first, r.count)
            && (stored != [] ==> stored[|stored| - 1] < r.first)
            && |stored| * w + r.count * w <= |RunRows(runs)| * w
  {
    var r := runs[b];
    assert runs[..b + 1] == runs[..b] + [r];
    RunRowsAppend(runs[..b], r);
    assert runs == runs[..b + 1] + runs[b + 1..];
    RunRowsSplit(runs[..b + 1], runs[b + 1..]);
    ThreeParts(RunRows(runs), RunRows(runs[..b]), Run(r.first, r.count), RunRows(runs[b + 1..]), w);
  }

  /** The message holds the descriptors of `cell` from `pos` on. */
  ghost predicate Describes(ts: seq<Tuple>, pos: nat, cell: Cell, I: nat) {
    && pos + |cell.runs| < |ts| && ts[pos] == Header(cell.K, I, |cell.runs|, |RunRows(cell.runs)|)
    && (forall q :: pos < q <= pos + |cell.runs| ==> ts[q] == Piece(cell.runs[q - pos - 1].first, cell.runs[q - pos - 1].count))
    && (pos + |cell.runs| + 1 < |ts| ==> ts[pos + |cell.runs| + 1].Header?)
  }

  /** One cell from its header and the runs that follow it: its rows are back, its capacity exactly filled. */
  method BuildCell(ts: seq<Tuple>, pos: nat, firstCol: nat, width: nat, ghost cell: Cell, ghost I: nat, ghost sup: nat -> nat)
    returns (c: BlockCell, next: nat)
    requires width > 0 && Describes(ts, pos, cell, I) && CellOk(cell, sup) && Increasing(RunRows(cell.runs))
    ensures fresh(c) && c.Valid() && c.i == cell.K && c.j == I && c.width == width && c.firstCol == firstCol
    ensures c.rows == RunRows(cell.runs) && c.nblocks == c.blocks.Length && c.nnz == c.nzval.Length
    ensures next == pos + |cell.runs| + 1
  {
    c := new BlockCell(ts[pos].K, ts[pos].I, firstCol, width, ts[pos].nrows * width, ts[pos].nblock);
    next := pos + 1;
    while next < |ts| && ts[next].Piece?
      invariant pos + 1 <= next <= pos + |cell.runs| + 1
      invariant c.Valid() && fresh(c) && fresh(c.blocks)
      invariant c.rows == RunRows(cell.runs[..next - pos - 1]) && c.nblocks == next - pos - 1
    {
      NextPiece(cell.runs, next - pos - 1, width);
      c.AddBlock(ts[next].first, ts[next].count);
      next := next + 1;
    }
    assert cell.runs[..|cell.runs|] == cell.runs;
  }

  lemma {:induction false} CellRowsSplit(cells: seq<Cell>, more: seq<Cell>)
    ensures CellRows(cells + more) == CellRows(cells) + CellRows(more)
  {
    if cells == [] {
      assert cells + more == more;
    } else {
      CellRowsSplit(cells[1..], more);
      assert (cells + more)[1..] == cells[1..] + more;
      Associative(RunRows(cells[0].runs), CellRows(cells[1..]), CellRows(more));
    }
  }

  lemma DescribesAt(before: seq<Tuple>, cell: Cell, after: seq<Tuple>, I: nat)
    requires after != [] ==> after[0].Header?
    ensures Describes(before + Flat(cell, I) + after, |before|, cell, I)
  {
    var ts, p, flat := before + Flat(cell, I) + after, |before|, Flat(cell, I);
    forall q | p < q <= p + |cell.runs|
      ensures ts[q] == Piece(cell.runs[q - p - 1].first, cell.runs[q - p - 1].count)
    {
      assert ts[q] == flat[q - p] == Pieces(cell.runs)[q - p - 1];
    }
    assert ts[p] == flat[0];
  }

  /** The rows of the c-th cell. */
  lemma NthRows(cells: seq<Cell>, c: nat)
    requires c < |cells| && Increasing(CellRows(cells))
    ensures Increasing(RunRows(cells[c].runs))
  {
    var mid, rest := [cells[c]], cells[c + 1..];
    assert cells == cells[..c] + (mid + rest);
    assert (mid + rest)[1..] == rest;
    CellRowsSplit(cells[..c], mid + rest);
    assert CellRows(mid + rest) == RunRows(cells[c].runs) + CellRows(rest);
    MiddleIncreasing(CellRows(cells), CellRows(cells[..c]), RunRows(cells[c].runs), CellRows(rest));
  }

  lemma MiddleIncreasing(all: seq<nat>, a: seq<nat>, b: seq<nat>, c: seq<nat>)
    requires all == a + (b + c) && Increasing(all)
    ensures Increasing(b)
  {
    forall i, j | 0 <= i < j < |b|
      ensures b[i] < b[j]
    {
      assert b[i] == all[|a| + i] && b[j] == all[|a| + j];
    }
  }

  /** The cell that was built has the rows of its descriptor, and its capacity is exactly filled. */
  ghost predicate Built(c: BlockCell, cell: Cell, I: nat, firstCol: nat, width: nat)
    reads c, c.blocks
  {
    && c.Valid() && c.i == cell.K && c.j == I && c.firstCol == firstCol && c.width == width
    && c.rows == RunRows(cell.runs) && c.nblocks == c.blocks.Length && c.nnz == c.nzval.Length
  }

  // ---------------------------------------------------------------------------------------------
  // All supernodes of all ranks
  // ---------------------------------------------------------------------------------------------

  /** A cell of supernode I. */
  datatype Item = Item(cell: Cell, I: nat)

  ghost function ItemsOf(cells: seq<Cell>, I: nat): (items: seq<Item>)
    ensures |items| == |cells| && forall c :: 0 <= c < |cells| ==> items[c] == Item(cells[c], I)
  {
    seq(|cells|, c requires 0 <= c < |cells| => Item(cells[c], I))
  }

  /** The cells of supernodes lo+1..hi, the last supernode first. */
  ghost function Items(cells: seq<seq<Cell>>, lo: nat, hi: nat): seq<Item>
    requires hi <= |cells|
  {
    if lo >= hi then [] else ItemsOf(cells[hi - 1], hi) + Items(cells, lo, hi - 1)
  }

  ghost function FlatItems(items: seq<Item>): seq<Tuple> {
    if items == [] then [] else Flat(items[0].cell, items[0].I) + FlatItems(items[1..])
  }

  lemma {:induction false} FlatItemsSplit(items: seq<Item>, more: seq<Item>)
    ensures FlatItems(items + more) == FlatItems(items) + FlatItems(more)
  {
    if items == [] {
      assert items + more == more;
    } else {
      FlatItemsSplit(items[1..], more);
      assert (items + more)[1..] == items[1..] + more;
      Associative(Flat(items[0].cell, items[0].I), FlatItems(items[1..]), FlatItems(more));
    }
  }

  lemma {:induction false} FlatItemsOf(cells: seq<Cell>, I: nat)
    ensures FlatItems(ItemsOf(cells, I)) == Flatten(cells, I)
  {
    if cells != [] {
      FlatItemsOf(cells[1..], I);
      assert ItemsOf(cells, I)[1..] == ItemsOf(cells[1..], I);
    }
  }

  lemma {:induction false} ItemsSplit(cells: seq<seq<Cell>>, lo: nat, mid: nat, hi: nat)
    requires lo <= mid <= hi <= |cells|
    ensures Items(cells, lo, hi) == Items(cells, mid, hi) + Items(cells, lo, mid)
  {
    if mid < hi {
      ItemsSplit(cells, lo, mid, hi - 1);
    }
  }

  lemma ItemHead(items: seq<Item>)
    ensures items != [] ==> FlatItems(items) != [] && FlatItems(items)[0].Header?
  {
  }

  /** The k-th cell in the message. */
  lemma NthItem(items: seq<Item>, k: nat)
    requires k < |items|
    ensures Describes(FlatItems(items), |FlatItems(items[..k])|, items[k].cell, items[k].I)
    ensures |FlatItems(items[..k + 1])| == |FlatItems(items[..k])| + |items[k].cell.runs| + 1
  {
    var mid, rest := [items[k]], items[k + 1..];
    assert items == items[..k] + (mid + rest) && items[..k + 1] == items[..k] + mid;
    FlatItemsSplit(items[..k], mid + rest);
    FlatItemsSplit(items[..k], mid);
    assert (mid + rest)[1..] == rest && mid[1..] == [];
    assert FlatItems(mid) == Flat(items[k].cell, items[k].I) + FlatItems([]);
    ItemHead(rest);
    DescribesAt(FlatItems(items[..k]), items[k].cell, FlatItems(rest), items[k].I);
    assert FlatItems(items) == FlatItems(items[..k]) + Flat(items[k].cell, items[k].I) + FlatItems(rest);
  }

  /** The items that rank iam owns, in order. */
  ghost function Mine(items: seq<Item>, own: (nat, nat) -> nat, iam: nat): seq<Item> {
    if items == [] then []
    else
      var last := items[|items| - 1];
      Mine(items[..|items| - 1], own, iam) + if own(last.cell.K, last.I) == iam then [last] else []
  }

  lemma MineNext(items: seq<Item>, k: nat, own: (nat, nat) -> nat, iam: nat)
    requires k < |items|
    ensures Mine(items[..k + 1], own, iam)
         == Mine(items[..k], own, iam) + if own(items[k].cell.K, items[k].I) == iam then [items[k]] else []
  {
    assert items[..k + 1][..k] == items[..k];
  }

  /** The first column and the width of a supernode. */
  ghost predicate ItemOk(item: Item, xsuper: seq<nat>, sup: nat -> nat) {
    && 1 <= item.I < |xsuper| && xsuper[item.I - 1] < xsuper[item.I]
    && CellOk(item.cell, sup) && Increasing(RunRows(item.cell.runs))
  }

  ghost predicate BuiltItem(c: BlockCell, item: Item, xsuper: seq<nat>)
    reads c, c.blocks
  {
    && 1 <= item.I < |xsuper| && xsuper[item.I - 1] <= xsuper[item.I]
    && Built(c, item.cell, item.I, xsuper[item.I - 1], xsuper[item.I] - xsuper[item.I - 1])
  }

  ghost predicate AllBuilt(local: seq<BlockCell>, items: seq<Item>, xsuper: seq<nat>)
    reads set c: BlockCell | c in local :: c, set c: BlockCell | c in local :: c.blocks
  {
    |local| == |items| && forall c :: 0 <= c < |local| ==> local[c] in local && BuiltItem(local[c], items[c], xsuper)
  }

  lemma BuiltAppend(local: seq<BlockCell>, items: seq<Item>, got: seq<BlockCell>, more: seq<Item>, xsuper: seq<nat>)
    requires AllBuilt(local, items, xsuper) && AllBuilt(got, more, xsuper)
    ensures AllBuilt(local + got, items + more, xsuper)
  {
  }

  /** The runs of a cell that another rank owns are passed over. */
  method SkipCell(ts: seq<Tuple>, pos: nat, ghost cell: Cell, ghost I: nat) returns (next: nat)
    requires Describes(ts, pos, cell, I)
    ensures next == pos + |cell.runs| + 1
  {
    next := pos + 1;
    while next < |ts| && ts[next].Piece?
      invariant pos + 1 <= next <= pos + |cell.runs| + 1
    {
      next := next + 1;
    }
  }

  method BuildItem(ts: seq<Tuple>, pos: nat, xsuper: seq<nat>, ghost item: Item, ghost sup: nat -> nat) returns (c: BlockCell, next: nat)
    requires Describes(ts, pos, item.cell, item.I) && ItemOk(item, xsuper, sup)
    ensures fresh(c) && BuiltItem(c, item, xsuper) && next == pos + |item.cell.runs| + 1
  {
    var I := ts[pos].I;
    c, next := BuildCell(ts, pos, xsuper[I - 1], xsuper[I] - xsuper[I - 1], item.cell, I, sup);
  }

  /** One cell of the message: built and kept if rank iam owns it. */
  method ReadCell(ts: seq<Tuple>, pos: nat, xsuper: seq<nat>, own: (nat, nat) -> nat, iam: nat, local0: seq<BlockCell>,
                  ghost mine: seq<Item>, ghost item: Item, ghost sup: nat -> nat)
    returns (local: seq<BlockCell>, p: nat, next: nat)
    requires Describes(ts, pos, item.cell, item.I) && ItemOk(item, xsuper, sup) && AllBuilt(local0, mine, xsuper)
    ensures p == own(item.cell.K, item.I) && next == pos + |item.cell.runs| + 1
    ensures AllBuilt(local, mine + if p == iam then [item] else [], xsuper) && forall c <- local :: c in local0 || fresh(c)
  {
    local, p := local0, own(ts[pos].K, ts[pos].I);
    if p == iam {
      var c;
      c, next := BuildItem(ts, pos, xsuper, item, sup);
      assert AllBuilt(local0, mine, xsuper) && AllBuilt([c], [item], xsuper);
      BuiltAppend(local0, mine, [c], [item], xsuper);
      local := local + [c];
    } else {
      next := SkipCell(ts, pos, item.cell, item.I);
      assert mine + [] == mine;
    }
  }

  /** The receiver on rank iam: every cell of the message in turn, of whatever supernode; those that it owns are
      built, of the others it keeps the owner. */
  method Decode(ts: seq<Tuple>, xsuper: seq<nat>, own: (nat, nat) -> nat, iam: nat, ghost items: seq<Item>, ghost sup: nat -> nat)
    returns (local: seq<BlockCell>, owners: seq<nat>)
    requires ts == FlatItems(items) && forall k :: 0 <= k < |items| ==> ItemOk(items[k], xsuper, sup)
    ensures OwnersOf(owners, items, own, |items|)
    ensures AllBuilt(local, Mine(items, own, iam), xsuper) && forall c <- local :: fresh(c)
  {
    local, owners := [], [];
    var pos: nat := 0;
    ghost var k, mine: seq<Item> := 0, [];
    assert AtItem(ts, pos, items, 0) && Mine(items[..0], own, iam) == [];
    while pos < |ts|
      invariant AtItem(ts, pos, items, k) && OwnersOf(owners, items, own, k)
      invariant mine == Mine(items[..k], own, iam)
      invariant AllBuilt(local, mine, xsuper) && forall c <- local :: fresh(c)
      decreases |items| - k
    {
      var p;
      NextItem(ts, pos, items, k);
      MineNext(items, k, own, iam);
      local, p, pos := ReadCell(ts, pos, xsuper, own, iam, local, mine, items[k], sup);
      mine := mine + if p == iam then [items[k]] else [];
      owners, k := owners + [p], k + 1;
    }
    NextItem(ts, pos, items, k);
    assert items[..k] == items;
  }

  ghost predicate OwnersOf(owners: seq<nat>, items: seq<Item>, own: (nat, nat) -> nat, k: nat) {
    |owners| == k <= |items| && forall q :: 0 <= q < k ==> owners[q] == own(items[q].cell.K, items[q].I)
  }

  /** The reader is at the header of the k-th cell. */
  ghost predicate AtItem(ts: seq<Tuple>, pos: nat, items: seq<Item>, k: nat) {
    k <= |items| && ts == FlatItems(items) && pos == |FlatItems(items[..k])|
  }

  lemma NextItem(ts: seq<Tuple>, pos: nat, items: seq<Item>, k: nat)
    requires AtItem(ts, pos, items, k)
    ensures pos < |ts| <==> k < |items|
    ensures k < |items| ==> Describes(ts, pos, items[k].cell, items[k].I) && AtItem(ts, pos + |items[k].cell.runs| + 1, items, k + 1)
  {
    if k < |items| {
      NthItem(items, k);
    } else {
      assert items[..k] == items;
    }
  }

  /** What a rank sends: the descriptors of its supernodes lo+1..hi, the last one first. */
  method EncodeRank(rows: seq<seq<nat>>, lo: nat, hi: nat, sup: nat -> nat) returns (ts: seq<Tuple>, ghost cells: seq<seq<Cell>>)
    requires lo <= hi <= |rows| && forall s :: 0 <= s < |rows| ==> Increasing(rows[s])
    ensures |cells| == |rows| && ts == FlatItems(Items(cells, lo, hi))
    ensures Recovered(rows, cells, lo, hi, sup)
  {
    ts, cells := [], seq(|rows|, _ => []);
    for s := hi downto lo
      invariant |cells| == |rows| && ts == FlatItems(Items(cells, s, hi))
      invariant Recovered(rows, cells, s, hi, sup)
    {
      var mine; ghost var these;
      mine, these := Encode(rows[s], s + 1, sup);
      OneMore(cells, these, s, hi);
      ts, cells := ts + mine, cells[s := these];
    }
  }

  lemma OneMore(cells: seq<seq<Cell>>, these: seq<Cell>, s: nat, hi: nat)
    requires s < hi <= |cells|
    ensures FlatItems(Items(cells[s := these], s, hi)) == FlatItems(Items(cells, s + 1, hi)) + Flatten(these, s + 1)
  {
    var cells' := cells[s := these];
    ItemsSame(cells, cells', s + 1, hi);
    ItemsSplit(cells', s, s + 1, hi);
    assert Items(cells', s, s + 1) == ItemsOf(these, s + 1) + Items(cells', s, s) == ItemsOf(these, s + 1);
    FlatItemsOf(these, s + 1);
    FlatItemsSplit(Items(cells', s + 1, hi), Items(cells', s, s + 1));
  }

  lemma {:induction false} ItemsSame(cells: seq<seq<Cell>>, cells': seq<seq<Cell>>, lo: nat, hi: nat)
    requires hi <= |cells| == |cells'| && forall s :: lo <= s < hi ==> cells[s] == cells'[s]
    ensures Items(cells, lo, hi) == Items(cells', lo, hi)
  {
    if lo < hi {
      ItemsSame(cells, cells', lo, hi - 1);
    }
  }

  /** dist[p] is the number of supernodes on the ranks before p. */
  ghost predicate SupernodesOf(dist: seq<nat>, n: nat) {
    && |dist| > 0 && dist[0] == 0 && dist[|dist| - 1] == n
    && forall p, q :: 0 <= p <= q < |dist| ==> dist[p] <= dist[q]
  }

  ghost predicate Recovered(rows: seq<seq<nat>>, cells: seq<seq<Cell>>, lo: nat, hi: nat, sup: nat -> nat)
    requires hi <= |rows| == |cells|
  {
    forall s :: lo <= s < hi ==> CellRows(cells[s]) == rows[s] && CellsOk(cells[s], sup)
  }

  /** The message so far describes the cells of the supernodes after lo. */
  ghost predicate SentFrom(rows: seq<seq<nat>>, lo: nat, sup: nat -> nat, cells: seq<seq<Cell>>, ts: seq<Tuple>) {
    && lo <= |rows| == |cells| && Recovered(rows, cells, lo, |rows|, sup)
    && ts == FlatItems(Items(cells, lo, |rows|))
  }

  lemma Merge(rows: seq<seq<nat>>, lo: nat, mid: nat, sup: nat -> nat, above: seq<seq<Cell>>, ts: seq<Tuple>, below: seq<seq<Cell>>, part: seq<Tuple>)
    returns (cells: seq<seq<Cell>>)
    requires SentFrom(rows, mid, sup, above, ts)
    requires lo <= mid && |rows| == |below| && Recovered(rows, below, lo, mid, sup) && part == FlatItems(Items(below, lo, mid))
    ensures SentFrom(rows, lo, sup, cells, ts + part)
  {
    cells := below[..mid] + above[mid..];
    ItemsSame(above, cells, mid, |rows|);
    ItemsSame(below, cells, lo, mid);
    ItemsSplit(cells, lo, mid, |rows|);
    FlatItemsSplit(Items(above, mid, |rows|), Items(below, lo, mid));
  }

  /** What all ranks send, in the order in which it is read: the last rank first. */
  method EncodeAll(rows: seq<seq<nat>>, dist: seq<nat>, sup: nat -> nat) returns (ts: seq<Tuple>, ghost cells: seq<seq<Cell>>)
    requires SupernodesOf(dist, |rows|) && forall s :: 0 <= s < |rows| ==> Increasing(rows[s])
    ensures SentFrom(rows, 0, sup, cells, ts)
  {
    ts, cells := [], seq(|rows|, _ => []);
    for p := |dist| - 1 downto 0
      invariant SentFrom(rows, dist[p], sup, cells, ts)
    {
      var part; ghost var theirs;
      part, theirs := EncodeRank(rows, dist[p], dist[p + 1], sup);
      cells := Merge(rows, dist[p], dist[p + 1], sup, cells, ts, theirs, part);
      ts := ts + part;
    }
  }

  lemma {:induction false} AllItemsOk(rows: seq<seq<nat>>, cells: seq<seq<Cell>>, hi: nat, xsuper: seq<nat>, sup: nat -> nat)
    requires hi <= |rows| == |cells| && |xsuper| == |rows| + 1 && Recovered(rows, cells, 0, hi, sup)
    requires Increasing(xsuper) && forall s :: 0 <= s < |rows| ==> Increasing(rows[s])
    ensures forall k :: 0 <= k < |Items(cells, 0, hi)| ==> ItemOk(Items(cells, 0, hi)[k], xsuper, sup)
  {
    if hi > 0 {
      AllItemsOk(rows, cells, hi - 1, xsuper, sup);
      var last := cells[hi - 1];
      forall c | 0 <= c < |last|
        ensures ItemOk(ItemsOf(last, hi)[c], xsuper, sup)
      {
        NthRows(last, c);
      }
    }
  }

  /** The items of a rank are those it owns. */
  lemma {:induction false} MineMembers(items: seq<Item>, own: (nat, nat) -> nat, iam: nat, item: Item)
    ensures item in Mine(items, own, iam) <==> item in items && own(item.cell.K, item.I) == iam
  {
    if items != [] {
      MineMembers(items[..|items| - 1], own, iam, item);
      assert items == items[..|items| - 1] + [items[|items| - 1]];
    }
  }

  /** Round trip, for any distribution of the supernodes and any owners: the cells that a rank builds are those it
      owns, each with the rows of its descriptor, and the descriptors of every supernode list its rows exactly,
      cell after cell, each cell those of one supernode. */
  method SendAndBuild(rows: seq<seq<nat>>, xsuper: seq<nat>, dist: seq<nat>, sup: nat -> nat, own: (nat, nat) -> nat, iam: nat)
    returns (local: seq<BlockCell>, owners: seq<nat>, ghost cells: seq<seq<Cell>>)
    requires SupernodesOf(dist, |rows|) && |xsuper| == |rows| + 1
    requires Increasing(xsuper) && forall s :: 0 <= s < |rows| ==> Increasing(rows[s])
    ensures |cells| == |rows| && Recovered(rows, cells, 0, |rows|, sup)
    ensures OwnersOf(owners, Items(cells, 0, |rows|), own, |Items(cells, 0, |rows|)|)
    ensures AllBuilt(local, Mine(Items(cells, 0, |rows|), own, iam), xsuper) && forall c <- local :: fresh(c)
    ensures forall item :: item in Mine(Items(cells, 0, |rows|), own, iam) <==>
              item in Items(cells, 0, |rows|) && own(item.cell.K, item.I) == iam
  {
    var ts;
    ts, cells := EncodeAll(rows, dist, sup);
    AllItemsOk(rows, cells, |rows|, xsuper, sup);
    local, owners := Decode(ts, xsuper, own, iam, Items(cells, 0, |rows|), sup);
    forall item
      ensures item in Mine(Items(cells, 0, |rows|), own, iam) <==> item in Items(cells, 0, |rows|) && own(item.cell.K, item.I) == iam
    {
      MineMembers(Items(cells, 0, |rows|), own, iam, item);
    }
  }

  // ---------------------------------------------------------------------------------------------
  // The entries of the matrix
  // ---------------------------------------------------------------------------------------------

  datatype Entry = Entry(row: nat, col: nat, value: real)

  /** The place of (row, col) in a cell. */
  ghost function Slot(rows: seq<nat>, w: nat, firstCol: nat, row: nat, col: nat): nat
    requires row in rows && firstCol <= col
  {
    IndexOf(rows, row) * w + (col - firstCol)
  }

  /** Different entries have different places, all of them inside the cell. */
  lemma SlotsInjective(rows: seq<nat>, w: nat, firstCol: nat, row: nat, col: nat, row': nat, col': nat)
    requires row in rows && row' in rows && firstCol <= col < firstCol + w && firstCol <= col' < firstCol + w
    ensures Slot(rows, w, firstCol, row, col) < |rows| * w
    ensures Slot(rows, w, firstCol, row, col) == Slot(rows, w, firstCol, row', col') ==> row == row' && col == col'
  {
    var a, b := IndexOf(rows, row), IndexOf(rows, row');
    TimesLess(a, |rows|, w);
    if a < b {
      TimesLess(a, b, w);
    } else if b < a {
      TimesLess(b, a, w);
    }
  }

  /** The search of DistributeMatrix for the block of a row, and the store. */
  method StoreEntry(cell: BlockCell, row: nat, col: nat, value: real) returns (found: bool)
    requires cell.Valid() && cell.firstCol <= col < cell.firstCol + cell.width
    modifies cell.nzval
    ensures found <==> row in cell.rows
    ensures found ==> Slot(cell.rows, cell.width, cell.firstCol, row, col) < |old(cell.nzval[..])|
    ensures cell.nzval[..] == if found then old(cell.nzval[..])[Slot(cell.rows, cell.width, cell.firstCol, row, col) := value]
                              else old(cell.nzval[..])
  {
    ghost var bs := cell.blocks[..cell.nblocks];
    found := false;
    var b: nat := 0;
    while b < cell.nblocks
      invariant b <= cell.nblocks && !found && cell.nzval[..] == old(cell.nzval[..])
      invariant forall k :: 0 <= k < |cell.rows| && k < cell.starts[b] ==> cell.rows[k] != row
    {
      ghost var start, end := cell.starts[b], cell.starts[b + 1];
      assert BlockOk(bs[b], cell.rows, start, end, cell.width);
      var n := cell.BlockRows(b);
      if cell.blocks[b].firstRow <= row && row < cell.blocks[b].firstRow + n {
        ghost var k := start + (row - cell.blocks[b].firstRow);
        assert cell.rows[k] == row;
        OffsetInBlock(bs, cell.nnz, cell.rows, cell.starts, cell.width, b, k, 0, row);
        SlotsInjective(cell.rows, cell.width, cell.firstCol, row, col, row, col);
        var offset := cell.blocks[b].offset + (row - cell.blocks[b].firstRow) * cell.width + (col - cell.firstCol);
        cell.nzval[offset] := value;
        found := true;
        break;
      }
      b := b + 1;
    }
  }

  /** Every entry of the list is at its place. */
  ghost predicate AllStored(rows: seq<nat>, w: nat, firstCol: nat, values: seq<real>, entries: seq<Entry>) {
    forall e :: 0 <= e < |entries| ==> StoredAt(rows, w, firstCol, values, entries[e])
  }

  ghost predicate StoredAt(rows: seq<nat>, w: nat, firstCol: nat, values: seq<real>, e: Entry) {
    e.row in rows && firstCol <= e.col < firstCol + w && EntryOf(values, Slot(rows, w, firstCol, e.row, e.col)) == e.value
  }

  ghost predicate DistinctPlaces(entries: seq<Entry>) {
    forall e, f :: 0 <= e < f < |entries| ==> entries[e].row != entries[f].row || entries[e].col != entries[f].col
  }

  lemma StoreKeeps(rows: seq<nat>, w: nat, firstCol: nat, values: seq<real>, e: Entry, f: Entry)
    requires StoredAt(rows, w, firstCol, values, e) && (e.row != f.row || e.col != f.col)
    requires f.row in rows && firstCol <= f.col < firstCol + w && Slot(rows, w, firstCol, f.row, f.col) < |values|
    ensures StoredAt(rows, w, firstCol, values[Slot(rows, w, firstCol, f.row, f.col) := f.value], e)
  {
    SlotsInjective(rows, w, firstCol, e.row, e.col, f.row, f.col);
  }

  /** The entries that a rank receives for one cell, in any order: afterwards each is found at its place. */
  method StoreEntries(cell: BlockCell, entries: seq<Entry>)
    requires cell.Valid() && DistinctPlaces(entries)
    requires forall e :: 0 <= e < |entries| ==> entries[e].row in cell.rows && cell.firstCol <= entries[e].col < cell.firstCol + cell.width
    modifies cell.nzval
    ensures AllStored(cell.rows, cell.width, cell.firstCol, cell.nzval[..], entries)
  {
    for n := 0 to |entries|
      invariant cell.Valid()
      invariant AllStored(cell.rows, cell.width, cell.firstCol, cell.nzval[..], entries[..n])
    {
      ghost var values := cell.nzval[..];
      var f := entries[n];
      var found := StoreEntry(cell, f.row, f.col, f.value);
      ghost var stored, before := entries[..n + 1], entries[..n];
      forall e | 0 <= e < |stored|
        ensures StoredAt(cell.rows, cell.width, cell.firstCol, cell.nzval[..], stored[e])
      {
        if e < n {
          assert before[e] == entries[e];
          StoreKeeps(cell.rows, cell.width, cell.firstCol, values, entries[e], f);
        }
      }
    }
    assert entries[..|entries|] == entries;
  }
}
