/** Cells as the blocks that the factorization computes with: updates of one block commute, and the update of a
    cell, in place or through a buffer, is the update of its block. */
module CellBlocks {
  import opened Cells
  import F = Factorization

  /** The referenced entries of a cell by rows; of a diagonal cell those on and below the diagonal. */
  datatype Value = Value(rows: seq<nat>, firstCol: nat, width: nat, lower: bool, entries: seq<seq<real>>)

  function EntryAt(x: Value, i: nat, c: nat): real {
    if i < |x.entries| && c < |x.entries[i]| then x.entries[i][c] else 0.0
  }

  predicate Referenced(row: nat, col: nat, lower: bool) { lower ==> col <= row }

  /** The scalar product of the first n entries of row p of one block and row k of another. */
  ghost function RowDot(x: Value, y: Value, p: nat, k: nat, n: nat): real {
    if n == 0 then 0.0 else RowDot(x, y, p, k, n - 1) + EntryAt(x, p, n - 1) * EntryAt(y, k, n - 1)
  }

  /** What an update subtracts in a place: the product of the rows that stand for its row and its column. */
  ghost function Share(p: Value, f: Value, lower: bool, row: nat, col: nat): real {
    if row in f.rows && col in p.rows && Referenced(row, col, lower)
    then RowDot(p, f, IndexOf(p.rows, col), IndexOf(f.rows, row), p.width) else 0.0
  }

  ghost function Updated(t: Value, p: Value, f: Value): (r: Value)
    ensures r.rows == t.rows && r.firstCol == t.firstCol && r.width == t.width && r.lower == t.lower
    ensures |r.entries| == |t.rows| && forall i :: 0 <= i < |t.rows| ==> |r.entries[i]| == t.width
    ensures forall i, c :: 0 <= i < |t.rows| && 0 <= c < t.width ==>
              r.entries[i][c] == EntryAt(t, i, c) - Share(p, f, t.lower, t.rows[i], t.firstCol + c)
  {
    t.(entries := seq(|t.rows|, i requires 0 <= i < |t.rows| =>
      seq(t.width, c requires 0 <= c < t.width => EntryAt(t, i, c) - Share(p, f, t.lower, t.rows[i], t.firstCol + c))))
  }

  lemma UpdatedAt(t: Value, p: Value, f: Value, i: nat, c: nat)
    requires i < |t.rows| && c < t.width
    ensures EntryAt(Updated(t, p, f), i, c) == EntryAt(t, i, c) - Share(p, f, t.lower, t.rows[i], t.firstCol + c)
  {
  }

  lemma SameBlocks(x: Value, y: Value)
    requires x.rows == y.rows && x.firstCol == y.firstCol && x.width == y.width && x.lower == y.lower
    requires |x.entries| == |y.entries| == |x.rows|
    requires forall i :: 0 <= i < |x.rows| ==> |x.entries[i]| == |y.entries[i]| == x.width
    requires forall i: nat, c: nat :: i < |x.rows| && c < x.width ==> EntryAt(x, i, c) == EntryAt(y, i, c)
    ensures x == y
  {
    forall i | 0 <= i < |x.rows|
      ensures x.entries[i] == y.entries[i]
    {
      forall c | 0 <= c < x.width
        ensures x.entries[i][c] == y.entries[i][c]
      {
        assert EntryAt(x, i, c) == EntryAt(y, i, c);
      }
    }
  }

  /** Two updates of a block may be exchanged, whatever rows and columns they meet. */
  lemma UpdatesCommute(t: Value, p: Value, f: Value, q: Value, h: Value)
    ensures Updated(Updated(t, p, f), q, h) == Updated(Updated(t, q, h), p, f)
  {
    forall i: nat, c: nat | i < |t.rows| && c < t.width
      ensures EntryAt(Updated(Updated(t, p, f), q, h), i, c) == EntryAt(Updated(Updated(t, q, h), p, f), i, c)
    {
      UpdatedAt(t, p, f, i, c);
      UpdatedAt(t, q, h, i, c);
      UpdatedAt(Updated(t, p, f), q, h, i, c);
      UpdatedAt(Updated(t, q, h), p, f, i, c);
    }
    SameBlocks(Updated(Updated(t, p, f), q, h), Updated(Updated(t, q, h), p, f));
  }

  /** Blocks with this update, whatever the other operations are. */
  ghost function BlocksWith(factor: Value -> Value, trsm: (Value, Value) -> Value, diagOf: Value -> Value,
                            dlt: (Value, Value) -> Value): F.Algebra<Value>
  {
    F.Algebra(factor, trsm, diagOf, dlt, (t, p, f) => Updated(t, p, f), Value([], 0, 0, false, []))
  }

  lemma BlocksCommute(factor: Value -> Value, trsm: (Value, Value) -> Value, diagOf: Value -> Value, dlt: (Value, Value) -> Value)
    ensures F.Commutes(BlocksWith(factor, trsm, diagOf, dlt))
  {
    var alg := BlocksWith(factor, trsm, diagOf, dlt);
    forall t, p, f, q, h
      ensures alg.update(alg.update(t, p, f), q, h) == alg.update(alg.update(t, q, h), p, f)
    {
      UpdatesCommute(t, p, f, q, h);
    }
  }

  // ---------------------------------------------------------------------------------------------
  // The update of a cell
  // ---------------------------------------------------------------------------------------------

  ghost function EntriesOf(v: seq<real>, rows: seq<nat>, firstCol: nat, w: nat, lower: bool): (e: seq<seq<real>>)
    ensures |e| == |rows| && forall i :: 0 <= i < |rows| ==> |e[i]| == w
    ensures forall i, c :: 0 <= i < |rows| && 0 <= c < w ==>
              e[i][c] == if Referenced(rows[i], firstCol + c, lower) then EntryOf(v, i * w + c) else 0.0
  {
    seq(|rows|, i requires 0 <= i < |rows| => seq(w, c requires 0 <= c < w =>
      if Referenced(rows[i], firstCol + c, lower) then EntryOf(v, i * w + c) else 0.0))
  }

  ghost function ValueOf(v: seq<real>, rows: seq<nat>, firstCol: nat, w: nat, lower: bool): Value {
    Value(rows, firstCol, w, lower, EntriesOf(v, rows, firstCol, w, lower))
  }

  ghost function BlockOf(x: BlockCell): Value
    reads x, x.nzval
  {
    ValueOf(x.nzval[..], x.rows, x.firstCol, x.width, x.i == x.j)
  }

  lemma PlaceUnique(a: nat, x: nat, b: nat, y: nat, w: nat)
    requires a * w + x == b * w + y && x < w && y < w
    ensures a == b && x == y
  {
    if a < b {
      TimesLess(a, b, w);
    } else if b < a {
      TimesLess(b, a, w);
    }
  }

  lemma {:induction false} DotAgrees(pv: seq<real>, fv: seq<real>, w: nat, p: nat, k: nat, n: nat, x: Value, y: Value)
    requires n <= w && (forall c :: 0 <= c < w ==> EntryAt(x, p, c) == EntryOf(pv, p * w + c) && EntryAt(y, k, c) == EntryOf(fv, k * w + c))
    ensures RowDot(x, y, p, k, n) == DotSum(pv, fv, w, p, k, n)
  {
    if n > 0 {
      DotAgrees(pv, fv, w, p, k, n - 1, x, y);
    }
  }

  /** A place that is met by a facing row and a pivot row. */
  lemma HitPlace(rows: seq<nat>, w: nat, firstCol: nat, frows: seq<nat>, prows: seq<nat>, i: nat, c: nat)
    requires Increasing(rows) && Increasing(frows) && Increasing(prows) && Contained(frows, rows) && i < |rows| && c < w
    requires forall p :: 0 <= p < |prows| ==> firstCol <= prows[p] < firstCol + w
    ensures var plan := PlanOf(rows, w, firstCol, frows, prows);
            if rows[i] in frows && firstCol + c in prows
            then plan.At(IndexOf(frows, rows[i]), IndexOf(prows, firstCol + c)) == i * w + c
            else !plan.Hits(i * w + c)
  {
    var plan := PlanOf(rows, w, firstCol, frows, prows);
    IndexIs(rows, i);
    forall k: nat, p: nat | k < |frows| && p < |prows| && plan.At(k, p) == i * w + c
      ensures rows[i] in frows && firstCol + c in prows
    {
      PlaceUnique(IndexOf(rows, frows[k]), prows[p] - firstCol, i, c, w);
    }
  }

  /** With the pivot and the facing cell the same, the lower triangle of the product is that of the cell. */
  lemma TriangleAgrees(rows: seq<nat>, k: nat, p: nat)
    requires Increasing(rows) && k < |rows| && p < |rows|
    ensures p <= k <==> rows[p] <= rows[k]
  {
  }

  ghost predicate Subtracted(before: seq<real>, now: seq<real>, plan: Plan, d: (nat, nat) -> real, tri: bool) {
    && |now| == |before|
    && (forall k: nat, p: nat {:trigger plan.At(k, p)} :: k < |plan.off| && p < |plan.col| && (tri ==> p <= k) ==>
          EntryOf(now, plan.At(k, p)) == EntryOf(before, plan.At(k, p)) + d(k, p))
    && (forall q: nat :: q < |before| && !plan.Hits(q) ==> now[q] == before[q])
  }

  lemma EntryUpdated(before: seq<real>, now: seq<real>, rows: seq<nat>, w: nat, firstCol: nat, lower: bool,
                     frows: seq<nat>, prows: seq<nat>, pv: seq<real>, fv: seq<real>, fw: nat, i: nat, c: nat, x: Value, y: Value)
    requires Increasing(rows) && Increasing(frows) && Increasing(prows) && Contained(frows, rows) && i < |rows| && c < w
    requires forall p :: 0 <= p < |prows| ==> firstCol <= prows[p] < firstCol + w
    requires (lower ==> prows == frows) && |rows| * w <= |before| && Referenced(rows[i], firstCol + c, lower)
    requires Subtracted(before, now, PlanOf(rows, w, firstCol, frows, prows), Delta(pv, fv, fw), lower)
    requires x.rows == prows && y.rows == frows && x.width == fw
    requires forall p: nat, n: nat :: p < |prows| && n < fw ==> EntryAt(x, p, n) == EntryOf(pv, p * fw + n)
    requires forall k: nat, n: nat :: k < |frows| && n < fw ==> EntryAt(y, k, n) == EntryOf(fv, k * fw + n)
    ensures EntryOf(now, i * w + c) == EntryOf(before, i * w + c) - Share(x, y, lower, rows[i], firstCol + c)
  {
    HitPlace(rows, w, firstCol, frows, prows, i, c);
    TimesLess(i, |rows|, w);
    if rows[i] in frows && firstCol + c in prows {
      var k, p := IndexOf(frows, rows[i]), IndexOf(prows, firstCol + c);
      if lower {
        TriangleAgrees(frows, k, p);
      }
      DotAgrees(pv, fv, fw, p, k, fw, x, y);
    }
  }

  lemma ValueUpdated(before: seq<real>, now: seq<real>, rows: seq<nat>, w: nat, firstCol: nat, lower: bool, x: Value, y: Value,
                     frows: seq<nat>, prows: seq<nat>, pv: seq<real>, fv: seq<real>, pc: nat, fc: nat, fw: nat)
    requires Increasing(rows) && Increasing(frows) && Increasing(prows) && Contained(frows, rows)
    requires forall p :: 0 <= p < |prows| ==> firstCol <= prows[p] < firstCol + w
    requires (lower ==> prows == frows) && |rows| * w <= |before|
    requires Subtracted(before, now, PlanOf(rows, w, firstCol, frows, prows), Delta(pv, fv, fw), lower)
    requires x == ValueOf(pv, prows, pc, fw, false) && y == ValueOf(fv, frows, fc, fw, false)
    ensures ValueOf(now, rows, firstCol, w, lower) == Updated(ValueOf(before, rows, firstCol, w, lower), x, y)
  {
    var t, t' := ValueOf(before, rows, firstCol, w, lower), ValueOf(now, rows, firstCol, w, lower);
    forall i: nat, c: nat | i < |rows| && c < w
      ensures EntryAt(t', i, c) == EntryAt(Updated(t, x, y), i, c)
    {
      UpdatedAt(t, x, y, i, c);
      if Referenced(rows[i], firstCol + c, lower) {
        EntryUpdated(before, now, rows, w, firstCol, lower, frows, prows, pv, fv, fw, i, c, x, y);
      }
    }
    SameBlocks(t', Updated(t, x, y));
  }

  lemma CellRows(x: BlockCell)
    requires x.Valid()
    ensures Increasing(x.rows) && |x.rows| * x.width <= x.nzval.Length
  {
  }

  /** The update of a cell by two cells below the diagonal is the update of its block by theirs. */
  method UpdateBlock(target: BlockCell, pivot: BlockCell, facing: BlockCell)
    requires Fits(target, pivot, facing) && pivot.i != pivot.j && facing.i != facing.j
    modifies target.nzval
    ensures Fits(target, pivot, facing)
    ensures BlockOf(target) == Updated(old(BlockOf(target)), BlockOf(pivot), BlockOf(facing))
  {
    ghost var before := target.nzval[..];
    Update(target, pivot, facing);
    CellRows(target);
    CellRows(pivot);
    CellRows(facing);
    ValueUpdated(before, target.nzval[..], target.rows, target.width, target.firstCol, target.i == target.j, BlockOf(pivot), BlockOf(facing),
                 facing.rows, pivot.rows, pivot.nzval[..], facing.nzval[..], pivot.firstCol, facing.firstCol, pivot.width);
  }
}
