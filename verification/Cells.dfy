/** The cells of the factor: rows in runs, stored row by row, and the update of a cell by the product of two
    others, in place when the runs match and through a buffer otherwise. */
module Cells {

  datatype Block = Block(firstRow: nat, offset: nat)

  ghost predicate Increasing(xs: seq<nat>) { forall i, j :: 0 <= i < j < |xs| ==> xs[i] < xs[j] }

  lemma TimesLess(a: nat, b: nat, w: nat)
    requires a < b
    ensures a * w + w <= b * w
  {
    assert b * w == a * w + (b - a) * w;
    assert (b - a) * w == w + (b - a - 1) * w;
  }

  lemma TimesDivided(a: nat, b: nat, w: nat)
    requires a <= b && w > 0
    ensures (b * w - a * w) / w == b - a
  {
    assert b * w - a * w == (b - a) * w;
    Quotient(b - a, w);
  }

  lemma Quotient(n: nat, w: nat)
    requires w > 0
    ensures (n * w) / w == n
  {
    QuotientOf(n, w, (n * w) / w, (n * w) % w);
  }

  lemma QuotientOf(n: nat, w: nat, q: nat, r: nat)
    requires n * w == w * q + r && r < w
    ensures q == n
  {
    if q < n {
      TimesLess(q, n, w);
    } else if n < q {
      TimesLess(n, q, w);
    }
  }

  /** The descriptors bs describe `rows`: block b begins at storage row starts[b]; rows of a block are consecutive. */
  ghost predicate Layout(bs: seq<Block>, nnz: nat, rows: seq<nat>, starts: seq<nat>, w: nat) {
    && |starts| == |bs| + 1 && starts[0] == 0 && starts[|bs|] == |rows| && nnz == |rows| * w
    && Increasing(rows) && Increasing(starts)
    && forall b :: 0 <= b < |bs| ==> BlockOk(bs[b], rows, starts[b], starts[b + 1], w)
  }

  ghost predicate BlockOk(block: Block, rows: seq<nat>, start: nat, end: nat, w: nat) {
    && start < end <= |rows| && block.offset == start * w
    && forall k :: start <= k < end ==> rows[k] == block.firstRow + (k - start)
  }

  function Run(first: nat, count: nat): (r: seq<nat>)
    ensures |r| == count && forall k :: 0 <= k < count ==> r[k] == first + k
  {
    seq<nat>(count, k requires 0 <= k => first + k)
  }

  lemma IncreasingAppend(xs: seq<nat>, ys: seq<nat>)
    requires Increasing(xs) && Increasing(ys) && (xs != [] && ys != [] ==> xs[|xs| - 1] < ys[0])
    ensures Increasing(xs + ys)
  {
    var zs := xs + ys;
    forall i, j | 0 <= i < j < |zs|
      ensures zs[i] < zs[j]
    {
      if i < |xs| <= j {
        assert xs[i] <= xs[|xs| - 1] && ys[0] <= ys[j - |xs|];
      }
    }
  }

  lemma LayoutAdd(bs: seq<Block>, nnz: nat, rows: seq<nat>, starts: seq<nat>, w: nat, first: nat, count: nat)
    requires Layout(bs, nnz, rows, starts, w) && count > 0 && (rows == [] || rows[|rows| - 1] < first)
    ensures Layout(bs + [Block(first, nnz)], nnz + count * w, rows + Run(first, count), starts + [|rows| + count], w)
  {
    var bs', rows', starts' := bs + [Block(first, nnz)], rows + Run(first, count), starts + [|rows| + count];
    IncreasingAppend(rows, Run(first, count));
    assert (|rows| + count) * w == |rows| * w + count * w;
    IncreasingAppend(starts, [|rows| + count]);
    forall b | 0 <= b < |bs'|
      ensures BlockOk(bs'[b], rows', starts'[b], starts'[b + 1], w)
    {
      if b < |bs| {
        assert BlockOk(bs[b], rows, starts[b], starts[b + 1], w);
      }
    }
  }

  class BlockCell {
    const i: nat
    const j: nat
    const firstCol: nat
    const width: nat
    const blocks: array<Block>
    const nzval: array<real>
    var nblocks: nat
    var nnz: nat
    // the stored rows in order, and the storage row at which each block begins
    ghost var rows: seq<nat>
    ghost var starts: seq<nat>

    ghost predicate Valid()
      reads this, blocks
    {
      && width > 0 && nblocks <= blocks.Length && nnz <= nzval.Length
      && Layout(blocks[..nblocks], nnz, rows, starts, width)
    }

    constructor (i: nat, j: nat, firstCol: nat, width: nat, nzCount: nat, blockCount: nat)
      requires width > 0
      ensures Valid() && rows == [] && nblocks == 0 && fresh(blocks) && fresh(nzval)
      ensures blocks.Length == blockCount && nzval.Length == nzCount
      ensures this.i == i && this.j == j && this.firstCol == firstCol && this.width == width
    {
      this.i, this.j, this.firstCol, this.width := i, j, firstCol, width;
      blocks := new Block[blockCount](_ => Block(0, 0));
      nzval := new real[nzCount](_ => 0.0);
      nblocks, nnz := 0, 0;
      rows, starts := [], [0];
    }

    /** The rows of a block, from its offset and the next one. */
    method BlockRows(b: nat) returns (n: nat)
      requires Valid() && b < nblocks
      ensures n == starts[b + 1] - starts[b] && n > 0
    {
      ghost var bs := blocks[..nblocks];
      var end := if b < nblocks - 1 then blocks[b + 1].offset else nnz;
      assert BlockOk(bs[b], rows, starts[b], starts[b + 1], width) && bs[b] == blocks[b];
      assert b < nblocks - 1 ==> BlockOk(bs[b + 1], rows, starts[b + 1], starts[b + 2], width) && bs[b + 1] == blocks[b + 1];
      assert end == starts[b + 1] * width;
      TimesDivided(starts[b], starts[b + 1], width);
      n := (end - blocks[b].offset) / width;
    }

    method TotalRows() returns (n: nat)
      requires Valid()
      ensures n == |rows|
    {
      TimesDivided(0, |rows|, width);
      n := nnz / width;
    }

    /** A run of rows below the stored ones: its descriptor is appended, its entries take the next places. */
    method AddBlock(firstRow: nat, nrows: nat)
      requires Valid() && nblocks < blocks.Length && nnz + nrows * width <= nzval.Length && nrows > 0
      requires rows == [] || rows[|rows| - 1] < firstRow
      modifies this, blocks
      ensures Valid() && nblocks == old(nblocks) + 1
      ensures rows == old(rows) + Run(firstRow, nrows) && starts == old(starts) + [|rows|]
    {
      LayoutAdd(blocks[..nblocks], nnz, rows, starts, width, firstRow, nrows);
      ghost var bs := blocks[..nblocks];
      blocks[nblocks] := Block(firstRow, nnz);
      nblocks := nblocks + 1;
      assert blocks[..nblocks] == bs + [Block(firstRow, nnz)];
      nnz := nnz + nrows * width;
      rows := rows + Run(firstRow, nrows);
      starts := starts + [|rows|];
    }

    /** The block with `row`, searched upwards from block `from`; k is where the row is stored. */
    method FindBlock(row: nat, from: nat, ghost k: nat) returns (b: nat)
      requires Valid() && from < nblocks && k < |rows| && rows[k] == row && starts[from] <= k
      ensures from <= b < nblocks && starts[b] <= k < starts[b + 1] && blocks[b].firstRow + (k - starts[b]) == row
    {
      b := from;
      while b < nblocks
        invariant from <= b < nblocks && starts[b] <= k
        decreases nblocks - b
      {
        var n := BlockRows(b);
        InBlock(blocks[..nblocks], nnz, rows, starts, width, b, k);
        if row >= blocks[b].firstRow && row <= blocks[b].firstRow + n - 1 {
          break;
        }
        b := b + 1;
      }
    }

    /** The block with `row`, searched downwards from the last one, not below block `first`. */
    method FindLastBlock(row: nat, first: nat, ghost k: nat) returns (b: nat)
      requires Valid() && first < nblocks && k < |rows| && rows[k] == row && starts[first] <= k
      ensures first <= b < nblocks && starts[b] <= k < starts[b + 1] && blocks[b].firstRow + (k - starts[b]) == row
    {
      b := nblocks - 1;
      while b > first
        invariant first <= b < nblocks && k < starts[b + 1]
      {
        var n := BlockRows(b);
        InBlock(blocks[..nblocks], nnz, rows, starts, width, b, k);
        if row >= blocks[b].firstRow && row <= blocks[b].firstRow + n - 1 {
          break;
        }
        b := b - 1;
      }
      InBlock(blocks[..nblocks], nnz, rows, starts, width, b, k);
    }
  }

  /** A stored row lies in block b exactly when its number lies in the run of b. */
  lemma InBlock(bs: seq<Block>, nnz: nat, rows: seq<nat>, starts: seq<nat>, w: nat, b: nat, k: nat)
    requires Layout(bs, nnz, rows, starts, w) && b < |bs| && k < |rows|
    ensures starts[b] < starts[b + 1] <= |rows|
    ensures var first, count := bs[b].firstRow, starts[b + 1] - starts[b];
            && (first <= rows[k] < first + count <==> starts[b] <= k < starts[b + 1])
            && (starts[b] <= k < starts[b + 1] ==> rows[k] == first + (k - starts[b]))
            && (k >= starts[b + 1] ==> b + 1 < |bs|)
  {
    assert BlockOk(bs[b], rows, starts[b], starts[b + 1], w);
    var first, last := starts[b], starts[b + 1] - 1;
    assert rows[first] == bs[b].firstRow && rows[last] == bs[b].firstRow + (last - first);
    if k < first {
      assert rows[k] < rows[first];
    } else if k > last {
      assert rows[last] < rows[k];
    }
  }

  // ---------------------------------------------------------------------------------------------
  // The in-place test
  // ---------------------------------------------------------------------------------------------

  /** The first m rows of the facing cell are stored one after the other from row k0. */
  ghost predicate Aligned(rows: seq<nat>, frows: seq<nat>, k0: nat, m: nat) {
    m <= |frows| && k0 + m <= |rows| && forall k :: 0 <= k < m ==> rows[k0 + k] == frows[k]
  }

  function Max(a: nat, b: nat): nat { if a < b then b else a }
  function Min(a: nat, b: nat): nat { if a < b then a else b }

  /** Block m of the facing cell equals the part of block t of the target that lies in its range. */
  lemma MatchStep(bs: seq<Block>, nnz: nat, rows: seq<nat>, starts: seq<nat>, w: nat, t: nat,
                  fbs: seq<Block>, fnnz: nat, frows: seq<nat>, fstarts: seq<nat>, fw: nat, m: nat, k0: nat)
    requires Layout(bs, nnz, rows, starts, w) && Layout(fbs, fnnz, frows, fstarts, fw) && t < |bs| && m < |fbs|
    requires k0 < |rows| && rows[k0] == frows[0] && (m == 0 ==> starts[t] <= k0 < starts[t + 1])
    requires Aligned(rows, frows, k0, fstarts[m]) && (m > 0 ==> k0 + fstarts[m] == starts[t])
    requires fbs[m].firstRow == Max(frows[0], bs[t].firstRow)
    requires fbs[m].firstRow + (fstarts[m + 1] - fstarts[m]) - 1
             == Min(frows[|frows| - 1], bs[t].firstRow + (starts[t + 1] - starts[t]) - 1)
    ensures Aligned(rows, frows, k0, fstarts[m + 1])
    ensures m + 1 < |fbs| ==> k0 + fstarts[m + 1] == starts[t + 1]
  {
    assert BlockOk(bs[t], rows, starts[t], starts[t + 1], w) && BlockOk(fbs[m], frows, fstarts[m], fstarts[m + 1], fw);
    var k := k0 + fstarts[m];
    assert starts[t] <= k < starts[t + 1];
    assert rows[k] == fbs[m].firstRow;
    if m + 1 < |fbs| {
      assert BlockOk(fbs[m + 1], frows, fstarts[m + 1], fstarts[m + 2], fw);
      assert frows[fstarts[m + 1] - 1] < frows[|frows| - 1];
    }
  }

  /** Between blocks tf and tl the target has the runs of the facing cell, cut to its range. */
  method RunsMatch(target: BlockCell, facing: BlockCell, tf: nat, tl: nat, facingFr: nat, facingLr: nat, ghost k0: nat)
    returns (ok: bool)
    requires target.Valid() && facing.Valid() && tf <= tl < target.nblocks && facing.nblocks == tl - tf + 1
    requires facingFr == facing.rows[0] && facingLr == facing.rows[|facing.rows| - 1]
    requires k0 < |target.rows| && target.rows[k0] == facingFr && target.starts[tf] <= k0 < target.starts[tf + 1]
    ensures ok ==> Aligned(target.rows, facing.rows, k0, |facing.rows|)
  {
    ok := true;
    for b := tf to tl + 1
      invariant Aligned(target.rows, facing.rows, k0, facing.starts[b - tf])
      invariant tf < b <= tl ==> k0 + facing.starts[b - tf] == target.starts[b]
    {
      var m := b - tf;
      var fn := facing.BlockRows(m);
      var tn := target.BlockRows(b);
      var fFr := facing.blocks[m].firstRow;
      var fLr := fn + fFr - 1;
      var tFr := Max(facingFr, target.blocks[b].firstRow);
      var tLr := Min(facingLr, target.blocks[b].firstRow + tn - 1);
      if fFr != tFr || fLr != tLr {
        return false;
      }
      MatchStep(target.blocks[..target.nblocks], target.nnz, target.rows, target.starts, target.width, b,
                facing.blocks[..facing.nblocks], facing.nnz, facing.rows, facing.starts, facing.width, m, k0);
    }
  }

  // ---------------------------------------------------------------------------------------------
  // Where the update goes
  // ---------------------------------------------------------------------------------------------

  ghost function IndexOf(xs: seq<nat>, x: nat): (k: nat)
    requires x in xs
    ensures k < |xs| && xs[k] == x
  {
    var k :| 0 <= k < |xs| && xs[k] == x;
    k
  }

  lemma IndexIs(xs: seq<nat>, k: nat)
    requires Increasing(xs) && k < |xs|
    ensures IndexOf(xs, xs[k]) == k
  {
  }

  /** The offset of the row of the target that row k of the facing cell updates. */
  ghost function RowOffset(rows: seq<nat>, frows: seq<nat>, w: nat, k: nat): nat
    requires k < |frows| && frows[k] in rows
  {
    IndexOf(rows, frows[k]) * w
  }

  ghost predicate Contained(frows: seq<nat>, rows: seq<nat>) { forall k :: 0 <= k < |frows| ==> frows[k] in rows }

  /** The places that the update writes: row offsets and columns. */
  datatype Plan = Plan(off: seq<nat>, col: seq<nat>)
  {
    ghost predicate Valid(w: nat, len: nat) {
      && (forall k, l :: 0 <= k < l < |off| ==> off[k] + w <= off[l])
      && (forall k :: 0 <= k < |off| ==> off[k] + w <= len)
      && (forall p, q :: 0 <= p < q < |col| ==> col[p] < col[q])
      && (forall p :: 0 <= p < |col| ==> col[p] < w)
    }

    function At(k: nat, p: nat): nat
      requires k < |off| && p < |col|
    {
      off[k] + col[p]
    }

    ghost predicate Hits(q: nat) { exists k: nat, p: nat :: k < |off| && p < |col| && q == At(k, p) }
  }

  ghost function PlanOf(rows: seq<nat>, w: nat, firstCol: nat, frows: seq<nat>, prows: seq<nat>): (plan: Plan)
    requires Contained(frows, rows) && forall p :: 0 <= p < |prows| ==> firstCol <= prows[p]
    ensures |plan.off| == |frows| && |plan.col| == |prows|
    ensures forall k :: 0 <= k < |frows| ==> plan.off[k] == RowOffset(rows, frows, w, k)
    ensures forall p :: 0 <= p < |prows| ==> plan.col[p] == prows[p] - firstCol
  {
    Plan(seq<nat>(|frows|, k requires 0 <= k < |frows| => RowOffset(rows, frows, w, k)),
         seq<nat>(|prows|, p requires 0 <= p < |prows| => prows[p] - firstCol))
  }

  lemma RowOffsets(rows: seq<nat>, frows: seq<nat>, w: nat, k: nat, l: nat)
    requires Increasing(rows) && Increasing(frows) && Contained(frows, rows) && k <= l < |frows|
    ensures RowOffset(rows, frows, w, l) + w <= |rows| * w
    ensures k < l ==> RowOffset(rows, frows, w, k) + w <= RowOffset(rows, frows, w, l)
  {
    var a, b := IndexOf(rows, frows[k]), IndexOf(rows, frows[l]);
    TimesLess(b, |rows|, w);
    if k < l {
      TimesLess(a, b, w);
    }
  }

  lemma PlanValid(rows: seq<nat>, w: nat, firstCol: nat, frows: seq<nat>, prows: seq<nat>)
    requires Increasing(rows) && Increasing(frows) && Increasing(prows) && Contained(frows, rows)
    requires forall p :: 0 <= p < |prows| ==> firstCol <= prows[p] < firstCol + w
    ensures PlanOf(rows, w, firstCol, frows, prows).Valid(w, |rows| * w)
  {
    var plan := PlanOf(rows, w, firstCol, frows, prows);
    forall k, l | 0 <= k < l < |plan.off|
      ensures plan.off[k] + w <= plan.off[l]
    {
      RowOffsets(rows, frows, w, k, l);
    }
    forall k | 0 <= k < |plan.off|
      ensures plan.off[k] + w <= |rows| * w
    {
      RowOffsets(rows, frows, w, k, k);
    }
  }

  /** No two entries of the update go to the same place. */
  lemma PlanInjective(plan: Plan, w: nat, len: nat, k: nat, p: nat, l: nat, q: nat)
    requires plan.Valid(w, len) && k < |plan.off| && l < |plan.off| && p < |plan.col| && q < |plan.col|
    requires plan.At(k, p) == plan.At(l, q)
    ensures k == l && p == q
  {
  }

  ghost function EntryOf(v: seq<real>, q: nat): real { if q < |v| then v[q] else 0.0 }

  /** The entries in `done` have received their update, everything else is as before. */
  ghost predicate Applied(before: seq<real>, now: seq<real>, plan: Plan, d: (nat, nat) -> real, done: (nat, nat) -> bool) {
    && |now| == |before|
    && (forall k: nat, p: nat {:trigger plan.At(k, p)} :: k < |plan.off| && p < |plan.col| ==>
          EntryOf(now, plan.At(k, p)) == EntryOf(before, plan.At(k, p)) + (if done(k, p) then d(k, p) else 0.0))
    && (forall q: nat :: q < |before| && !plan.Hits(q) ==> now[q] == before[q])
  }

  /** Entries (l,q) with l < k, or l == k and q < p, in row order; of the lower triangle only if `tri`. */
  ghost function UpTo(k: nat, p: nat, tri: bool): (nat, nat) -> bool {
    (l: nat, q: nat) => (l < k || (l == k && q < p)) && (tri ==> q <= l)
  }

  lemma ApplyStart(before: seq<real>, plan: Plan, d: (nat, nat) -> real, tri: bool)
    ensures Applied(before, before, plan, d, UpTo(0, 0, tri))
  {
  }

  lemma ApplyNext(before: seq<real>, now: seq<real>, plan: Plan, w: nat, d: (nat, nat) -> real, k: nat, p: nat, tri: bool)
    requires plan.Valid(w, |before|) && k < |plan.off| && p < |plan.col| && (tri ==> p <= k)
    requires Applied(before, now, plan, d, UpTo(k, p, tri))
    ensures plan.At(k, p) < |before| == |now|
    ensures Applied(before, now[plan.At(k, p) := now[plan.At(k, p)] + d(k, p)], plan, d, UpTo(k, p + 1, tri))
  {
    assert plan.off[k] + w <= |before| && plan.col[p] < w;
    var now' := now[plan.At(k, p) := now[plan.At(k, p)] + d(k, p)];
    forall l: nat, q: nat | l < |plan.off| && q < |plan.col|
      ensures EntryOf(now', plan.At(l, q)) == EntryOf(before, plan.At(l, q)) + (if UpTo(k, p + 1, tri)(l, q) then d(l, q) else 0.0)
    {
      if plan.At(l, q) == plan.At(k, p) {
        PlanInjective(plan, w, |before|, l, q, k, p);
      }
    }
    assert plan.Hits(plan.At(k, p));
  }

  lemma ApplySkip(before: seq<real>, now: seq<real>, plan: Plan, d: (nat, nat) -> real, k: nat, p: nat, k': nat, p': nat, tri: bool)
    requires Applied(before, now, plan, d, UpTo(k, p, tri))
    requires forall l: nat, q: nat :: l < |plan.off| && q < |plan.col| ==> UpTo(k, p, tri)(l, q) == UpTo(k', p', tri)(l, q)
    ensures Applied(before, now, plan, d, UpTo(k', p', tri))
  {
  }

  // ---------------------------------------------------------------------------------------------
  // The map from facing rows to the target, by a single pass over both
  // ---------------------------------------------------------------------------------------------

  lemma Distribute(a: nat, b: nat, c: nat, w: nat)
    ensures a * w + b * w + c * w == (a + b + c) * w
  {
  }

  /** The offset of a row that lies in block b, from the offset of another row of that block. */
  lemma OffsetInBlock(bs: seq<Block>, nnz: nat, rows: seq<nat>, starts: seq<nat>, w: nat, b: nat, k: nat, extra: nat, row: nat)
    requires Layout(bs, nnz, rows, starts, w) && b < |bs| && starts[b] <= k && k + extra < starts[b + 1] <= |rows|
    requires row == rows[k] + extra
    ensures row in rows && IndexOf(rows, row) == k + extra
    ensures IndexOf(rows, row) * w == bs[b].offset + (rows[k] - bs[b].firstRow) * w + extra * w
  {
    assert BlockOk(bs[b], rows, starts[b], starts[b + 1], w);
    assert rows[k + extra] == row;
    IndexIs(rows, k + extra);
    Distribute(starts[b], k - starts[b], extra, w);
  }

  ghost predicate Mapped(off: seq<nat>, rows: seq<nat>, frows: seq<nat>, w: nat, n: nat)
    requires Contained(frows, rows)
  {
    n <= |frows| <= |off| && forall k :: 0 <= k < n ==> off[k] == RowOffset(rows, frows, w, k)
  }

  lemma MappedNext(off: seq<nat>, rows: seq<nat>, frows: seq<nat>, w: nat, n: nat, x: nat)
    requires Contained(frows, rows) && Mapped(off, rows, frows, w, n) && n < |frows| && x == RowOffset(rows, frows, w, n)
    ensures Mapped(off[n := x], rows, frows, w, n + 1)
  {
  }

  /** The rows row..lr of one block of the facing cell, all in block b of the target. */
  method MapRun(target: BlockCell, off: array<nat>, b: nat, row: nat, lr: nat, rowidx: nat, ghost frows: seq<nat>, ghost k: nat)
    requires target.Valid() && b < target.nblocks && Contained(frows, target.rows) && off.Length == |frows| && row <= lr
    requires target.starts[b] <= k < |target.rows| && target.rows[k] == row && k + (lr - row) < target.starts[b + 1]
    requires target.starts[b + 1] <= |target.rows|
    requires rowidx + (lr - row) < |frows| && frows[rowidx..rowidx + (lr - row) + 1] == Run(row, lr - row + 1)
    requires Mapped(off[..], target.rows, frows, target.width, rowidx)
    modifies off
    ensures Mapped(off[..], target.rows, frows, target.width, rowidx + (lr - row) + 1)
  {
    InBlock(target.blocks[..target.nblocks], target.nnz, target.rows, target.starts, target.width, b, k);
    var tgtOffset := target.blocks[b].offset + (row - target.blocks[b].firstRow) * target.width;
    for cr := row to lr + 1
      invariant target.Valid()
      invariant Mapped(off[..], target.rows, frows, target.width, rowidx + (cr - row))
    {
      ghost var o := off[..];
      OffsetInBlock(target.blocks[..target.nblocks], target.nnz, target.rows, target.starts, target.width, b, k, cr - row, cr);
      assert frows[rowidx + (cr - row)] == Run(row, lr - row + 1)[cr - row] == cr;
      off[rowidx + (cr - row)] := tgtOffset + (cr - row) * target.width;
      MappedNext(o, target.rows, frows, target.width, rowidx + (cr - row), off[rowidx + (cr - row)]);
      assert off[..] == o[rowidx + (cr - row) := off[rowidx + (cr - row)]];
    }
  }

  lemma RunSlice(bs: seq<Block>, nnz: nat, rows: seq<nat>, starts: seq<nat>, w: nat, b: nat, from: nat, count: nat)
    requires Layout(bs, nnz, rows, starts, w) && b < |bs| && starts[b] <= from && from + count <= starts[b + 1]
    ensures starts[b + 1] <= |rows| && rows[from..from + count] == Run(bs[b].firstRow + (from - starts[b]), count)
  {
    assert BlockOk(bs[b], rows, starts[b], starts[b + 1], w);
  }

  /** A run of rows that the target contains lies in one block of the target as far as that block reaches. */
  lemma RunInBlock(bs: seq<Block>, nnz: nat, rows: seq<nat>, starts: seq<nat>, w: nat, b: nat, k: nat, last: nat)
    requires Layout(bs, nnz, rows, starts, w) && b < |bs| && k < |rows| && starts[b] <= k < starts[b + 1] && rows[k] <= last
    ensures var lr := Min(last, bs[b].firstRow + (starts[b + 1] - starts[b]) - 1);
            rows[k] <= lr <= last && k + (lr - rows[k]) < starts[b + 1] <= |rows|
  {
    assert BlockOk(bs[b], rows, starts[b], starts[b + 1], w);
  }

  /** The block pointer only moves forward. */
  lemma LaterRow(rows: seq<nat>, starts: seq<nat>, b: nat, k: nat, row: nat)
    requires Increasing(rows) && b < |starts| && starts[b] <= k < |rows| && rows[k] < row && row in rows
    ensures starts[b] <= IndexOf(rows, row)
  {
  }

  /** Where the pass stands: the rows before rowidx are mapped and the block pointer is not past the next one. */
  ghost predicate Mapping(target: BlockCell, frows: seq<nat>, off: array<nat>, rowidx: nat, tgt: nat)
    reads target, target.blocks, off
  {
    && target.Valid() && Contained(frows, target.rows) && off.Length == |frows| && rowidx <= |frows| && tgt < target.nblocks
    && Mapped(off[..], target.rows, frows, target.width, rowidx)
    && (rowidx < |frows| ==> target.starts[tgt] <= IndexOf(target.rows, frows[rowidx]))
  }

  /** One piece of a facing block, as far as the target block reaches. */
  method MapPiece(target: BlockCell, off: array<nat>, row: nat, srcLr: nat, rowidx0: nat, from: nat, ghost frows: seq<nat>)
    returns (lr: nat, rowidx: nat, tgt: nat)
    requires Mapping(target, frows, off, rowidx0, from) && Increasing(frows) && row <= srcLr
    requires rowidx0 + (srcLr - row) < |frows| && frows[rowidx0..rowidx0 + (srcLr - row) + 1] == Run(row, srcLr - row + 1)
    modifies off
    ensures row <= lr <= srcLr && rowidx == rowidx0 + (lr - row) + 1
    ensures Mapping(target, frows, off, rowidx, tgt)
  {
    ghost var run := Run(row, srcLr - row + 1);
    assert frows[rowidx0] == frows[rowidx0..rowidx0 + (srcLr - row) + 1][0] == run[0] == row;
    ghost var k := IndexOf(target.rows, row);
    tgt := target.FindBlock(row, from, k);
    var tn := target.BlockRows(tgt);
    RunInBlock(target.blocks[..target.nblocks], target.nnz, target.rows, target.starts, target.width, tgt, k, srcLr);
    lr := Min(srcLr, target.blocks[tgt].firstRow + tn - 1);
    assert frows[rowidx0..rowidx0 + (lr - row) + 1] == run[..lr - row + 1] == Run(row, lr - row + 1) by {
      assert frows[rowidx0..rowidx0 + (srcLr - row) + 1][..lr - row + 1] == frows[rowidx0..rowidx0 + (lr - row) + 1];
    }
    MapRun(target, off, tgt, row, lr, rowidx0, frows, k);
    rowidx := rowidx0 + (lr - row) + 1;
    if rowidx < |frows| {
      assert frows[rowidx0] < frows[rowidx];
      LaterRow(target.rows, target.starts, tgt, k, frows[rowidx]);
    }
  }

  /** One block of the facing cell: `tgt` is the block pointer into the target. */
  method MapBlock(target: BlockCell, facing: BlockCell, off: array<nat>, cb: nat, rowidx0: nat, from: nat)
    returns (rowidx: nat, tgt: nat)
    requires facing.Valid() && cb < facing.nblocks && rowidx0 == facing.starts[cb] && Mapping(target, facing.rows, off, rowidx0, from)
    modifies off
    ensures rowidx == facing.starts[cb + 1] && Mapping(target, facing.rows, off, rowidx, tgt)
  {
    ghost var fstart, fend := facing.starts[cb], facing.starts[cb + 1];
    ghost var fbs := facing.blocks[..facing.nblocks];
    var fn := facing.BlockRows(cb);
    RunSlice(fbs, facing.nnz, facing.rows, facing.starts, facing.width, cb, fstart, fn);
    var row := facing.blocks[cb].firstRow;
    var srcLr := row + fn - 1;
    rowidx := rowidx0;
    tgt := from;
    while row <= srcLr
      invariant fstart <= rowidx <= fend <= |facing.rows|
      invariant row == facing.blocks[cb].firstRow + (rowidx - fstart)
      invariant Mapping(target, facing.rows, off, rowidx, tgt)
      decreases fend - rowidx
    {
      RunSlice(fbs, facing.nnz, facing.rows, facing.starts, facing.width, cb, rowidx, fend - rowidx);
      var lr;
      lr, rowidx, tgt := MapPiece(target, off, row, srcLr, rowidx, tgt, facing.rows);
      row := row + (lr - row + 1);
    }
  }

  /** src_to_tgt_offset: for every facing row the offset of that row in the target. */
  method MapRows(target: BlockCell, facing: BlockCell) returns (off: array<nat>)
    requires target.Valid() && facing.Valid() && Contained(facing.rows, target.rows) && target.nblocks > 0
    ensures fresh(off) && off.Length == |facing.rows|
    ensures Mapped(off[..], target.rows, facing.rows, target.width, |facing.rows|)
  {
    var n := facing.TotalRows();
    off := new nat[n];
    var rowidx: nat, tgt: nat := 0, 0;
    for cb := 0 to facing.nblocks
      invariant rowidx == facing.starts[cb] && Mapping(target, facing.rows, off, rowidx, tgt)
    {
      assert BlockOk(facing.blocks[..facing.nblocks][cb], facing.rows, facing.starts[cb], facing.starts[cb + 1], facing.width);
      rowidx, tgt := MapBlock(target, facing, off, cb, rowidx, tgt);
    }
  }

  /** src_colindx: the columns that the rows of the pivot cell stand for. */
  method MapColumns(target: BlockCell, pivot: BlockCell) returns (col: array<nat>)
    requires pivot.Valid() && forall p :: 0 <= p < |pivot.rows| ==> target.firstCol <= pivot.rows[p] < target.firstCol + target.width
    ensures fresh(col) && col[..] == pivot.rows
  {
    var n := pivot.TotalRows();
    col := new nat[n];
    var colidx: nat := 0;
    ghost var bs := pivot.blocks[..pivot.nblocks];
    for cb := 0 to pivot.nblocks
      invariant colidx == pivot.starts[cb] <= |pivot.rows| && col[..colidx] == pivot.rows[..colidx]
    {
      ghost var start, end := pivot.starts[cb], pivot.starts[cb + 1];
      assert BlockOk(bs[cb], pivot.rows, start, end, pivot.width) && bs[cb] == pivot.blocks[cb];
      var ncols := pivot.BlockRows(cb);
      assert pivot.rows[start] == pivot.blocks[cb].firstRow && pivot.rows[end - 1] == pivot.blocks[cb].firstRow + ncols - 1;
      var lc := Min(pivot.blocks[cb].firstRow + ncols - 1, target.firstCol + target.width - 1);
      var fc := Max(pivot.blocks[cb].firstRow, target.firstCol);
      for c := fc to lc + 1
        invariant colidx == start + (c - fc) <= end && col[..colidx] == pivot.rows[..colidx]
      {
        assert pivot.rows[colidx] == pivot.blocks[cb].firstRow + (colidx - start) == c;
        col[colidx] := c;
        colidx := colidx + 1;
      }
    }
    assert col[..] == col[..colidx];
  }

  // ---------------------------------------------------------------------------------------------
  // The product
  // ---------------------------------------------------------------------------------------------

  /** The scalar product of the first n entries of row p of the pivot and row k of the facing cell. */
  ghost function DotSum(pv: seq<real>, fv: seq<real>, w: nat, p: nat, k: nat, n: nat): real {
    if n == 0 then 0.0 else DotSum(pv, fv, w, p, k, n - 1) + EntryOf(pv, p * w + (n - 1)) * EntryOf(fv, k * w + (n - 1))
  }

  method Dot(pivot: BlockCell, facing: BlockCell, p: nat, k: nat) returns (s: real)
    requires pivot.Valid() && facing.Valid() && pivot.width == facing.width && p < |pivot.rows| && k < |facing.rows|
    ensures s == DotSum(pivot.nzval[..], facing.nzval[..], pivot.width, p, k, pivot.width)
  {
    var w := pivot.width;
    TimesLess(p, |pivot.rows|, w);
    TimesLess(k, |facing.rows|, w);
    s := 0.0;
    for n := 0 to w
      invariant s == DotSum(pivot.nzval[..], facing.nzval[..], w, p, k, n)
    {
      assert EntryOf(pivot.nzval[..], p * w + n) == pivot.nzval[p * w + n];
      assert EntryOf(facing.nzval[..], k * w + n) == facing.nzval[k * w + n];
      s := s + pivot.nzval[p * w + n] * facing.nzval[k * w + n];
    }
  }

  /** What the update adds to the target for facing row k and pivot row p. */
  ghost function Delta(pv: seq<real>, fv: seq<real>, w: nat): (nat, nat) -> real {
    (k: nat, p: nat) => -DotSum(pv, fv, w, p, k, w)
  }

  // ---------------------------------------------------------------------------------------------
  // The two ways
  // ---------------------------------------------------------------------------------------------

  /** A matrix product straight into the target, one row after the other from `base`; only the lower triangle
      when it is a symmetric product. */
  method ProductInPlace(target: BlockCell, pivot: BlockCell, facing: BlockCell, base: nat, tri: bool, ghost plan: Plan)
    requires target.Valid() && pivot.Valid() && facing.Valid() && pivot.width == facing.width
    requires target.nzval != pivot.nzval && target.nzval != facing.nzval
    requires plan.Valid(target.width, target.nzval.Length) && |plan.off| == |facing.rows| && |plan.col| == |pivot.rows|
    requires forall k: nat, p: nat {:trigger plan.At(k, p)} :: k < |plan.off| && p < |plan.col| ==> plan.At(k, p) == base + k * target.width + p
    modifies target.nzval
    ensures var d := Delta(pivot.nzval[..], facing.nzval[..], pivot.width);
            Applied(old(target.nzval[..]), target.nzval[..], plan, d, UpTo(|facing.rows|, 0, tri))
  {
    var nrows := facing.TotalRows();
    var ncols := pivot.TotalRows();
    ghost var before := target.nzval[..];
    ghost var pv, fv := pivot.nzval[..], facing.nzval[..];
    ghost var d := Delta(pv, fv, pivot.width);
    ApplyStart(before, plan, d, tri);
    for k := 0 to nrows
      invariant pivot.nzval[..] == pv && facing.nzval[..] == fv
      invariant Applied(before, target.nzval[..], plan, d, UpTo(k, 0, tri))
    {
      for p := 0 to ncols
        invariant pivot.nzval[..] == pv && facing.nzval[..] == fv
        invariant Applied(before, target.nzval[..], plan, d, UpTo(k, p, tri))
      {
        if tri && p > k {
          ApplySkip(before, target.nzval[..], plan, d, k, p, k, p + 1, tri);
        } else {
          ghost var now := target.nzval[..];
          ApplyNext(before, now, plan, target.width, d, k, p, tri);
          var s := Dot(pivot, facing, p, k);
          var q := base + k * target.width + p;
          assert q == plan.At(k, p);
          target.nzval[q] := target.nzval[q] - s;
          assert target.nzval[..] == now[q := now[q] + d(k, p)];
        }
      }
      ApplySkip(before, target.nzval[..], plan, d, k, ncols, k + 1, 0, tri);
    }
  }

  /** The product in a buffer. */
  method ProductInBuffer(pivot: BlockCell, facing: BlockCell) returns (buf: array2<real>)
    requires pivot.Valid() && facing.Valid() && pivot.width == facing.width
    ensures fresh(buf) && buf.Length0 == |facing.rows| && buf.Length1 == |pivot.rows|
    ensures var d := Delta(pivot.nzval[..], facing.nzval[..], pivot.width);
            forall k: nat, p: nat :: k < |facing.rows| && p < |pivot.rows| ==> buf[k, p] == d(k, p)
  {
    var nrows := facing.TotalRows();
    var ncols := pivot.TotalRows();
    buf := new real[nrows, ncols];
    ghost var d := Delta(pivot.nzval[..], facing.nzval[..], pivot.width);
    for k := 0 to nrows
      invariant forall l: nat, p: nat :: l < k && p < ncols ==> buf[l, p] == d(l, p)
    {
      for p := 0 to ncols
        invariant forall l: nat, q: nat :: (l < k && q < ncols) || (l == k && q < p) ==> buf[l, q] == d(l, q)
      {
        var s := Dot(pivot, facing, p, k);
        buf[k, p] := -s;
      }
    }
  }

  /** The assembly: every entry of the buffer is added where the offset of its row and its column say. */
  method Scatter(target: BlockCell, buf: array2<real>, off: array<nat>, col: array<nat>, ghost plan: Plan, ghost d: (nat, nat) -> real)
    requires target.Valid() && plan.Valid(target.width, target.nzval.Length)
    requires off[..] == plan.off && col.Length == |plan.col| && forall p :: 0 <= p < col.Length ==> col[p] == target.firstCol + plan.col[p]
    requires buf.Length0 == off.Length && buf.Length1 == col.Length
    requires forall k: nat, p: nat :: k < off.Length && p < col.Length ==> buf[k, p] == d(k, p)
    modifies target.nzval
    ensures Applied(old(target.nzval[..]), target.nzval[..], plan, d, UpTo(off.Length, 0, false))
  {
    ghost var before := target.nzval[..];
    ApplyStart(before, plan, d, false);
    for k := 0 to off.Length
      invariant Applied(before, target.nzval[..], plan, d, UpTo(k, 0, false))
    {
      for p := 0 to col.Length
        invariant Applied(before, target.nzval[..], plan, d, UpTo(k, p, false))
      {
        ghost var now := target.nzval[..];
        ApplyNext(before, now, plan, target.width, d, k, p, false);
        var q := off[k] + (col[p] - target.firstCol);
        assert off[k] == plan.off[k] && q == plan.At(k, p);
        target.nzval[q] := target.nzval[q] + buf[k, p];
        assert target.nzval[..] == now[q := now[q] + d(k, p)];
      }
      ApplySkip(before, target.nzval[..], plan, d, k, col.Length, k + 1, 0, false);
    }
  }

  /** The assembly when the columns are consecutive. */
  method ScatterRun(target: BlockCell, buf: array2<real>, off: array<nat>, first: nat, ghost plan: Plan, ghost d: (nat, nat) -> real)
    requires target.Valid() && plan.Valid(target.width, target.nzval.Length)
    requires off[..] == plan.off && forall p :: 0 <= p < |plan.col| ==> plan.col[p] == first + p
    requires buf.Length0 == off.Length && buf.Length1 == |plan.col|
    requires forall k: nat, p: nat :: k < off.Length && p < |plan.col| ==> buf[k, p] == d(k, p)
    modifies target.nzval
    ensures Applied(old(target.nzval[..]), target.nzval[..], plan, d, UpTo(off.Length, 0, false))
  {
    ghost var before := target.nzval[..];
    ApplyStart(before, plan, d, false);
    for k := 0 to off.Length
      invariant Applied(before, target.nzval[..], plan, d, UpTo(k, 0, false))
    {
      for p := 0 to buf.Length1
        invariant Applied(before, target.nzval[..], plan, d, UpTo(k, p, false))
      {
        ghost var now := target.nzval[..];
        ApplyNext(before, now, plan, target.width, d, k, p, false);
        var q := off[k] + first + p;
        assert off[k] == plan.off[k] && q == plan.At(k, p);
        target.nzval[q] := target.nzval[q] + buf[k, p];
        assert target.nzval[..] == now[q := now[q] + d(k, p)];
      }
      ApplySkip(before, target.nzval[..], plan, d, k, buf.Length1, k + 1, 0, false);
    }
  }

  /** The target contains the rows that are updated, as rows and as columns; a diagonal cell is updated by the
      product of a cell with itself. */
  ghost predicate Fits(target: BlockCell, pivot: BlockCell, facing: BlockCell)
    reads target, target.blocks, pivot, pivot.blocks, facing, facing.blocks
  {
    && target.Valid() && pivot.Valid() && facing.Valid()
    && target.nblocks > 0 && pivot.nblocks > 0 && facing.nblocks > 0
    && pivot.width == facing.width && target.nzval != pivot.nzval && target.nzval != facing.nzval
    && Contained(facing.rows, target.rows)
    && (forall p :: 0 <= p < |pivot.rows| ==> target.firstCol <= pivot.rows[p] < target.firstCol + target.width)
    && (target.i == target.j ==> pivot == facing)
  }

  ghost function TargetPlan(target: BlockCell, pivot: BlockCell, facing: BlockCell): Plan
    requires Fits(target, pivot, facing)
    reads target, target.blocks, pivot, pivot.blocks, facing, facing.blocks
  {
    PlanOf(target.rows, target.width, target.firstCol, facing.rows, pivot.rows)
  }

  lemma FirstAndLast(bs: seq<Block>, nnz: nat, rows: seq<nat>, starts: seq<nat>, w: nat)
    requires Layout(bs, nnz, rows, starts, w) && |bs| > 0
    ensures rows != [] && rows[0] == bs[0].firstRow
    ensures starts[|bs| - 1] < starts[|bs|] && rows[|rows| - 1] == bs[|bs| - 1].firstRow + (starts[|bs|] - starts[|bs| - 1]) - 1
    ensures |bs| == 1 ==> rows == Run(bs[0].firstRow, |rows|)
  {
    assert BlockOk(bs[0], rows, starts[0], starts[1], w);
    assert BlockOk(bs[|bs| - 1], rows, starts[|bs| - 1], starts[|bs|], w);
  }

  /** The last row of a cell. */
  method LastRow(cell: BlockCell) returns (r: nat)
    requires cell.Valid() && cell.nblocks > 0
    ensures |cell.rows| > 0 && r == cell.rows[|cell.rows| - 1]
  {
    FirstAndLast(cell.blocks[..cell.nblocks], cell.nnz, cell.rows, cell.starts, cell.width);
    var n := cell.BlockRows(cell.nblocks - 1);
    r := cell.blocks[cell.nblocks - 1].firstRow + n - 1;
  }

  /** The first updated block and the offset of the first updated row in the target. */
  method FirstUpdated(target: BlockCell, facingFr: nat) returns (tf: nat, rowOffset: nat)
    requires target.Valid() && target.nblocks > 0 && facingFr in target.rows
    ensures tf < target.nblocks && target.starts[tf] <= IndexOf(target.rows, facingFr) < target.starts[tf + 1]
    ensures rowOffset == IndexOf(target.rows, facingFr) * target.width
  {
    ghost var k0 := IndexOf(target.rows, facingFr);
    tf := target.FindBlock(facingFr, 0, k0);
    InBlock(target.blocks[..target.nblocks], target.nnz, target.rows, target.starts, target.width, tf, k0);
    OffsetInBlock(target.blocks[..target.nblocks], target.nnz, target.rows, target.starts, target.width, tf, k0, 0, facingFr);
    rowOffset := target.blocks[tf].offset + (facingFr - target.blocks[tf].firstRow) * target.width;
  }

  /** The search for the last updated block, and the comparison of the runs in between. */
  method RunsAgree(target: BlockCell, facing: BlockCell, tf: nat, facingFr: nat, facingLr: nat) returns (ok: bool)
    requires target.Valid() && facing.Valid() && Contained(facing.rows, target.rows) && |facing.rows| > 0 && tf < target.nblocks
    requires facingFr == facing.rows[0] && facingLr == facing.rows[|facing.rows| - 1]
    requires target.starts[tf] <= IndexOf(target.rows, facingFr) < target.starts[tf + 1]
    ensures ok ==> Aligned(target.rows, facing.rows, IndexOf(target.rows, facingFr), |facing.rows|)
  {
    LaterOrSame(target.rows, facing.rows);
    var tl := target.FindLastBlock(facingLr, tf, IndexOf(target.rows, facingLr));
    if tl - tf + 1 == facing.nblocks {
      ok := RunsMatch(target, facing, tf, tl, facingFr, facingLr, IndexOf(target.rows, facingFr));
    } else {
      ok := false;
    }
  }

  /** The test for an update in place, and where it begins. */
  method InPlaceTest(target: BlockCell, pivot: BlockCell, facing: BlockCell) returns (inPlace: bool, tgtOffset: nat)
    requires Fits(target, pivot, facing)
    ensures inPlace ==> pivot.nblocks == 1 && |pivot.rows| > 0 && |facing.rows| > 0
    ensures inPlace ==> Aligned(target.rows, facing.rows, IndexOf(target.rows, facing.rows[0]), |facing.rows|)
    ensures inPlace ==> tgtOffset == IndexOf(target.rows, facing.rows[0]) * target.width + (pivot.rows[0] - target.firstCol)
  {
    FirstAndLast(pivot.blocks[..pivot.nblocks], pivot.nnz, pivot.rows, pivot.starts, pivot.width);
    FirstAndLast(facing.blocks[..facing.nblocks], facing.nnz, facing.rows, facing.starts, facing.width);
    var facingFr := facing.blocks[0].firstRow;
    var facingLr := LastRow(facing);
    var tgtLocalFc := pivot.blocks[0].firstRow - target.firstCol;
    tgtOffset := 0;
    inPlace := pivot.nblocks == 1;
    if inPlace {
      var tf, rowOffset := FirstUpdated(target, facingFr);
      tgtOffset := rowOffset + tgtLocalFc;
      inPlace := RunsAgree(target, facing, tf, facingFr, facingLr);
    }
  }

  lemma LaterOrSame(rows: seq<nat>, frows: seq<nat>)
    requires Increasing(rows) && Increasing(frows) && Contained(frows, rows) && frows != []
    ensures IndexOf(rows, frows[0]) <= IndexOf(rows, frows[|frows| - 1])
  {
    assert frows[0] <= frows[|frows| - 1];
  }

  /** When the test succeeds the rows and columns of the update lie one after the other from tgtOffset. */
  lemma InPlacePlan(rows: seq<nat>, w: nat, firstCol: nat, frows: seq<nat>, prows: seq<nat>, base: nat, k: nat, p: nat)
    requires Increasing(rows) && Contained(frows, rows) && k < |frows| && p < |prows| && prows == Run(prows[0], |prows|)
    requires forall q :: 0 <= q < |prows| ==> firstCol <= prows[q]
    requires Aligned(rows, frows, IndexOf(rows, frows[0]), |frows|)
    requires base == IndexOf(rows, frows[0]) * w + (prows[0] - firstCol)
    ensures PlanOf(rows, w, firstCol, frows, prows).At(k, p) == base + k * w + p
  {
    var k0 := IndexOf(rows, frows[0]);
    IndexIs(rows, k0 + k);
    Distribute(k0, k, 0, w);
    assert prows[p] == Run(prows[0], |prows|)[p] == prows[0] + p;
  }

  method UpdateInPlace(target: BlockCell, pivot: BlockCell, facing: BlockCell, tgtOffset: nat)
    requires Fits(target, pivot, facing) && pivot.nblocks == 1 && |pivot.rows| > 0 && |facing.rows| > 0
    requires Aligned(target.rows, facing.rows, IndexOf(target.rows, facing.rows[0]), |facing.rows|)
    requires tgtOffset == IndexOf(target.rows, facing.rows[0]) * target.width + (pivot.rows[0] - target.firstCol)
    modifies target.nzval
    ensures var d := Delta(pivot.nzval[..], facing.nzval[..], pivot.width);
            Applied(old(target.nzval[..]), target.nzval[..], TargetPlan(target, pivot, facing), d, UpTo(|facing.rows|, 0, target.i == target.j))
  {
    ghost var plan := TargetPlan(target, pivot, facing);
    PlanFits(target, pivot, facing);
    FirstAndLast(pivot.blocks[..pivot.nblocks], pivot.nnz, pivot.rows, pivot.starts, pivot.width);
    forall k: nat, p: nat | k < |plan.off| && p < |plan.col|
      ensures plan.At(k, p) == tgtOffset + k * target.width + p
    {
      InPlacePlan(target.rows, target.width, target.firstCol, facing.rows, pivot.rows, tgtOffset, k, p);
    }
    ProductInPlace(target, pivot, facing, tgtOffset, target.i == target.j, plan);
  }

  lemma PlanFits(target: BlockCell, pivot: BlockCell, facing: BlockCell)
    requires Fits(target, pivot, facing)
    ensures TargetPlan(target, pivot, facing).Valid(target.width, target.nzval.Length)
  {
    PlanValid(target.rows, target.width, target.firstCol, facing.rows, pivot.rows);
  }

  method UpdateThroughBuffer(target: BlockCell, pivot: BlockCell, facing: BlockCell)
    requires Fits(target, pivot, facing)
    modifies target.nzval
    ensures var d := Delta(pivot.nzval[..], facing.nzval[..], pivot.width);
            Applied(old(target.nzval[..]), target.nzval[..], TargetPlan(target, pivot, facing), d, UpTo(|facing.rows|, 0, false))
  {
    ghost var plan := TargetPlan(target, pivot, facing);
    PlanFits(target, pivot, facing);
    ghost var d := Delta(pivot.nzval[..], facing.nzval[..], pivot.width);
    var buf := ProductInBuffer(pivot, facing);
    var off := MapRows(target, facing);
    assert off[..] == plan.off;
    var col := MapColumns(target, pivot);
    if pivot.nblocks == 1 {
      FirstAndLast(pivot.blocks[..pivot.nblocks], pivot.nnz, pivot.rows, pivot.starts, pivot.width);
      var first := pivot.blocks[0].firstRow - target.firstCol;
      forall p | 0 <= p < |plan.col|
        ensures plan.col[p] == first + p
      {
        assert pivot.rows[p] == Run(pivot.blocks[0].firstRow, |pivot.rows|)[p];
      }
      ScatterRun(target, buf, off, first, plan, d);
    } else {
      Scatter(target, buf, off, col, plan, d);
    }
  }

  /** The update of a cell.  Whichever way is taken, every referenced entry (all of an off-diagonal cell, the
      lower triangle of a diagonal one) that a facing row and a pivot row meet in loses their product, and
      nothing outside those entries changes. */
  method Update(target: BlockCell, pivot: BlockCell, facing: BlockCell)
    requires Fits(target, pivot, facing)
    modifies target.nzval
    ensures Fits(target, pivot, facing)
    ensures var plan, d := TargetPlan(target, pivot, facing), Delta(pivot.nzval[..], facing.nzval[..], pivot.width);
            && (forall k: nat, p: nat {:trigger plan.At(k, p)} :: k < |facing.rows| && p < |pivot.rows| && (target.i == target.j ==> p <= k) ==>
                  EntryOf(target.nzval[..], plan.At(k, p)) == EntryOf(old(target.nzval[..]), plan.At(k, p)) + d(k, p))
            && (forall q: nat :: q < target.nzval.Length && !plan.Hits(q) ==> target.nzval[q] == old(target.nzval[q]))
  {
    ghost var before := target.nzval[..];
    var inPlace, tgtOffset := InPlaceTest(target, pivot, facing);
    if inPlace {
      UpdateInPlace(target, pivot, facing, tgtOffset);
    } else {
      UpdateThroughBuffer(target, pivot, facing);
    }
  }
}
