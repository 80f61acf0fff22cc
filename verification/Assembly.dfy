/** What a rank does with the triplets it received: shift its own columns back in place and fill the gaps,
    or build all columns anew. */
module Assembly {
  import opened Segments
  import opened DistMatrix

  /** The entries received for column c, in arrival order. */
  function Arrived<V>(recv: seq<Triplet<V>>, c: nat): seq<Entry<V>> {
    if recv == [] then []
    else
      var front, t := Arrived(recv[..|recv| - 1], c), recv[|recv| - 1];
      if t.col == c then front + [Entry(t.row, t.val)] else front
  }

  function Reversed<T>(s: seq<T>): (r: seq<T>)
    ensures |r| == |s|
  {
    if s == [] then [] else [s[|s| - 1]] + Reversed(s[..|s| - 1])
  }

  lemma ArrivedOne<V>(recv: seq<Triplet<V>>, i: nat, c: nat)
    requires i < |recv|
    ensures Arrived(recv[..i + 1], c)
         == Arrived(recv[..i], c) + (if recv[i].col == c then [Entry(recv[i].row, recv[i].val)] else [])
  {
    assert recv[..i + 1][..i] == recv[..i];
  }

  lemma {:induction false} ArrivedPrefix<V>(recv: seq<Triplet<V>>, i: nat, c: nat)
    requires i <= |recv|
    ensures |Arrived(recv[..i], c)| <= |Arrived(recv, c)|
    decreases |recv| - i
  {
    if i == |recv| {
      assert recv[..i] == recv;
    } else {
      ArrivedPrefix(recv, i + 1, c);
      ArrivedOne(recv, i, c);
    }
  }

  /** Every received triplet belongs to one of the n columns from `first` on. */
  ghost predicate Local<V>(recv: seq<Triplet<V>>, first: nat, n: nat) {
    forall t <- recv :: first <= t.col < first + n
  }

  /** counts[c] plus what has arrived for column c. */
  ghost predicate Tallied<V>(counts: seq<nat>, start: seq<nat>, recv: seq<Triplet<V>>, first: nat) {
    && |counts| == |start|
    && forall c {:trigger counts[c]} :: 0 <= c < |counts| ==> counts[c] == start[c] + |Arrived(recv, first + c)|
  }

  lemma TallyOne<V>(counts: seq<nat>, start: seq<nat>, recv: seq<Triplet<V>>, i: nat, first: nat)
    requires i < |recv| && Local(recv, first, |counts|) && Tallied(counts, start, recv[..i], first)
    ensures var c := recv[i].col - first; Tallied(counts[c := counts[c] + 1], start, recv[..i + 1], first)
  {
    var q := recv[i].col - first;
    var counts' := counts[q := counts[q] + 1];
    forall c {:trigger counts'[c]} | 0 <= c < |counts|
      ensures counts'[c] == start[c] + |Arrived(recv[..i + 1], first + c)|
    {
      ArrivedOne(recv, i, first + c);
    }
  }

  lemma TallyNone<V>(counts: seq<nat>, start: seq<nat>, recv: seq<Triplet<V>>, first: nat)
    requires counts == start && recv == []
    ensures Tallied(counts, start, recv, first)
  {
  }

  method Tally<V>(start: seq<nat>, recv: seq<Triplet<V>>, first: nat) returns (counts: seq<nat>)
    requires Local(recv, first, |start|)
    ensures Tallied(counts, start, recv, first)
  {
    counts := start;
    TallyNone(counts, start, recv[..0], first);
    for i := 0 to |recv|
      invariant Tallied(counts, start, recv[..i], first)
    {
      TallyOne(counts, start, recv, i, first);
      var c := recv[i].col - first;
      counts := counts[c := counts[c] + 1];
    }
    assert recv[..|recv|] == recv;
  }

  // ---------------------------------------------------------------------------------------------
  // In-place shift
  // ---------------------------------------------------------------------------------------------

  /** t is s after the elements from b to e were moved to end at d. */
  ghost predicate Copied<T>(s: seq<T>, t: seq<T>, b: nat, e: nat, d: nat) {
    && b <= e <= d <= |s| == |t|
    && forall i {:trigger t[i]} :: 0 <= i < |s| ==> t[i] == if d - (e - b) <= i < d then s[i - (d - e)] else s[i]
  }

  lemma CopyOne<T>(s: seq<T>, t: seq<T>, k: nat, e: nat, d: nat)
    requires k > 0 && Copied(s, t, k, e, d)
    ensures Copied(s, t[d - (e - k) - 1 := t[k - 1]], k - 1, e, d)
  {
    assert t[k - 1] == s[k - 1];
  }

  /** std::copy_backward within one buffer, to a place further back; source and target may overlap. */
  method CopyBackward<T>(s: seq<T>, b: nat, e: nat, d: nat) returns (t: seq<T>)
    requires b <= e <= d <= |s|
    ensures Copied(s, t, b, e, d)
  {
    t := s;
    var k := e;
    while k > b
      invariant b <= k <= e && Copied(s, t, k, e, d)
    {
      CopyOne(s, t, k, e, d);
      k := k - 1;
      t := t[d - (e - k) := t[k]];
    }
  }

  lemma CopiedHolds<T>(s: seq<T>, t: seq<T>, b: nat, e: nat, d: nat, x: seq<T>)
    requires Copied(s, t, b, e, d) && e - b == |x| && Holds(s, b, x)
    ensures Holds(t, d - |x|, x)
  {
    forall i | 0 <= i < |x|
      ensures t[d - |x| + i] == x[i]
    {
      assert s[b..b + |x|][i] == x[i];
    }
  }

  lemma UncopiedHolds<T>(s: seq<T>, t: seq<T>, b: nat, e: nat, d: nat, at: nat, x: seq<T>)
    requires Copied(s, t, b, e, d) && Holds(s, at, x) && (at + |x| <= d - (e - b) || d <= at)
    ensures Holds(t, at, x)
  {
    assert t[at..at + |x|] == s[at..at + |x|];
  }

  /** The end of column c once every column has the room `counts` gives it, and where its old entries go. */
  ghost predicate Room<V>(cols: seq<seq<Entry<V>>>, counts: seq<nat>) {
    && |counts| == |cols|
    && forall c {:trigger counts[c]} :: 0 <= c < |cols| ==> |cols[c]| <= counts[c]
  }

  lemma {:induction false} StartBelow<V>(cols: seq<seq<Entry<V>>>, counts: seq<nat>, c: nat)
    requires Room(cols, counts) && c <= |cols|
    ensures Start(cols, c) <= Total(counts, c)
  {
    if c > 0 {
      StartBelow(cols, counts, c - 1);
      assert |cols[c - 1]| <= counts[c - 1];
    }
  }

  /** Column c where it was before the shift (below `from`) or at the end of its new room. */
  ghost predicate Shifted<V>(rowind: seq<int>, nzval: seq<V>, base: int, cols: seq<seq<Entry<V>>>, counts: seq<nat>, from: nat, c: nat)
    requires Room(cols, counts) && c < |cols|
  {
    var at := if c < from then Start(cols, c) else Total(counts, c + 1) - |cols[c]|;
    at >= 0 && Stored(rowind, nzval, base, at, cols[c])
  }

  ghost predicate AllShifted<V>(rowind: seq<int>, nzval: seq<V>, base: int, cols: seq<seq<Entry<V>>>, counts: seq<nat>, from: nat) {
    && Room(cols, counts)
    && |rowind| == |nzval| == Total(counts, |counts|)
    && forall c :: 0 <= c < |cols| ==> Shifted(rowind, nzval, base, cols, counts, from, c)
  }

  lemma ShiftBounds<V>(cols: seq<seq<Entry<V>>>, counts: seq<nat>, c: nat)
    requires Room(cols, counts) && c < |cols|
    ensures Start(cols, c) + |cols[c]| == Start(cols, c + 1) <= Total(counts, c + 1) <= Total(counts, |counts|)
  {
    StartBelow(cols, counts, c + 1);
    TotalMonotone(counts, c + 1, |counts|);
  }

  /** Moving column `from`: it gets to the end of its room, and every other column is left alone: those in
      front end before that place, those behind begin after the room. */
  lemma ShiftOne<V, T>(s: seq<T>, t: seq<T>, cols: seq<seq<Entry<V>>>, counts: seq<nat>, from: nat, c: nat, x: seq<T>)
    requires Room(cols, counts) && c < |cols| && from < |cols| && |x| == |cols[c]|
    requires var at := if c <= from then Start(cols, c) else Total(counts, c + 1) - |x|; at >= 0 && Holds(s, at, x)
    requires Copied(s, t, Start(cols, from), Start(cols, from) + |cols[from]|, Total(counts, from + 1))
    ensures var at := if c < from then Start(cols, c) else Total(counts, c + 1) - |x|; at >= 0 && Holds(t, at, x)
  {
    var b, e, d := Start(cols, from), Start(cols, from) + |cols[from]|, Total(counts, from + 1);
    if c == from {
      ShiftBounds(cols, counts, c);
      CopiedHolds(s, t, b, e, d, x);
    } else {
      ShiftApart(cols, counts, from, c);
      UncopiedHolds(s, t, b, e, d, if c < from then Start(cols, c) else Total(counts, c + 1) - |x|, x);
    }
  }

  lemma ShiftApart<V>(cols: seq<seq<Entry<V>>>, counts: seq<nat>, from: nat, c: nat)
    requires Room(cols, counts) && c < |cols| && from < |cols| && c != from
    ensures Total(counts, c + 1) >= |cols[c]|
    ensures c < from ==> Start(cols, c) + |cols[c]| <= Total(counts, from + 1) - |cols[from]|
    ensures c > from ==> Total(counts, from + 1) <= Total(counts, c + 1) - |cols[c]|
  {
    assert |cols[from]| <= counts[from] && |cols[c]| <= counts[c];
    if c < from {
      StartMonotone(cols, c, from);
      StartBelow(cols, counts, from);
    } else {
      TotalMonotone(counts, from + 1, c);
    }
  }

  /** Last column first, both arrays together: no entry is overwritten before it was moved. */
  method ShiftColumns<V>(rowind: seq<int>, nzval: seq<V>, base: int, colptr: seq<int>, newColptr: seq<int>,
                         ghost cols: seq<seq<Entry<V>>>, ghost counts: seq<nat>) returns (rows: seq<int>, vals: seq<V>)
    requires AllShifted(rowind, nzval, base, cols, counts, |cols|)
    requires |colptr| == |newColptr| == |cols| + 1
    requires forall c {:trigger colptr[c]} :: 0 <= c <= |cols| ==> colptr[c] == base + Start(cols, c)
    requires forall c {:trigger newColptr[c]} :: 0 <= c <= |cols| ==> newColptr[c] == base + Total(counts, c)
    ensures AllShifted(rows, vals, base, cols, counts, 0)
  {
    rows, vals := rowind, nzval;
    var col := |colptr| - 1;
    while col > 0
      invariant 0 <= col <= |cols| && AllShifted(rows, vals, base, cols, counts, col)
    {
      col := col - 1;
      ShiftBounds(cols, counts, col);
      var b, e, d := colptr[col] - base, colptr[col + 1] - base, newColptr[col + 1] - base;
      var rows' := CopyBackward(rows, b, e, d);
      var vals' := CopyBackward(vals, b, e, d);
      forall c | 0 <= c < |cols|
        ensures Shifted(rows', vals', base, cols, counts, col, c)
      {
        assert Shifted(rows, vals, base, cols, counts, col + 1, c);
        ShiftOne(rows, rows', cols, counts, col, c, Rows(cols[c], base));
        ShiftOne(vals, vals', cols, counts, col, c, Vals(cols[c]));
      }
      rows, vals := rows', vals';
    }
  }

  // ---------------------------------------------------------------------------------------------
  // Filling the gaps
  // ---------------------------------------------------------------------------------------------

  /** Column c of the expanded storage: what arrived, last arrival first, then the old column. */
  function Grown<V>(col: seq<Entry<V>>, recv: seq<Triplet<V>>, c: nat): seq<Entry<V>> {
    Reversed(Arrived(recv, c)) + col
  }

  function GrownAll<V>(cols: seq<seq<Entry<V>>>, recv: seq<Triplet<V>>, first: nat): (r: seq<seq<Entry<V>>>)
    ensures |r| == |cols|
  {
    seq(|cols|, c requires 0 <= c < |cols| => Grown(cols[c], recv, first + c))
  }

  lemma GrownOne<V>(col: seq<Entry<V>>, recv: seq<Triplet<V>>, i: nat, c: nat)
    requires i < |recv|
    ensures Grown(col, recv[..i + 1], c)
         == (if recv[i].col == c then [Entry(recv[i].row, recv[i].val)] else []) + Grown(col, recv[..i], c)
    ensures |Grown(col, recv[..i], c)| == |Arrived(recv[..i], c)| + |col|
  {
    ArrivedOne(recv, i, c);
    var a := Arrived(recv[..i], c);
    var e := Entry(recv[i].row, recv[i].val);
    assert (a + [e])[..|a|] == a;
    assert [e] + Reversed(a) + col == [e] + (Reversed(a) + col);
    assert a + [] == a;
  }

  /** The last used[c] slots of the room of column c hold its entries so far. */
  ghost predicate Filled<V>(rowind: seq<int>, nzval: seq<V>, base: int, cols: seq<seq<Entry<V>>>, counts: seq<nat>,
                            used: seq<nat>, recv: seq<Triplet<V>>, first: nat) {
    && |cols| == |counts| == |used| && |rowind| == |nzval| == Total(counts, |counts|)
    && forall c {:trigger used[c]} :: 0 <= c < |cols| ==>
         FilledAt(rowind, nzval, base, cols[c], Total(counts, c + 1), used[c], recv, first + c)
  }

  ghost predicate FilledAt<V>(rowind: seq<int>, nzval: seq<V>, base: int, col: seq<Entry<V>>, end: nat, used: nat,
                              recv: seq<Triplet<V>>, c: nat) {
    && used == |Grown(col, recv, c)| <= end
    && Stored(rowind, nzval, base, end - used, Grown(col, recv, c))
  }

  lemma RowsPrepend<V>(e: Entry<V>, col: seq<Entry<V>>, base: int)
    ensures Rows([e] + col, base) == [base + e.row] + Rows(col, base)
    ensures Vals([e] + col) == [e.val] + Vals(col)
  {
  }

  lemma FillHere<V>(rowind: seq<int>, nzval: seq<V>, base: int, col: seq<Entry<V>>, end: nat, used: nat,
                    recv: seq<Triplet<V>>, i: nat, c: nat)
    requires i < |recv| && recv[i].col == c && |rowind| == |nzval| && used < end <= |rowind|
    requires FilledAt(rowind, nzval, base, col, end, used, recv[..i], c)
    ensures FilledAt(rowind[end - used - 1 := recv[i].row + base], nzval[end - used - 1 := recv[i].val], base, col, end,
                     used + 1, recv[..i + 1], c)
  {
    GrownOne(col, recv, i, c);
    var was, e := Grown(col, recv[..i], c), Entry(recv[i].row, recv[i].val);
    RowsPrepend(e, was, base);
    HoldsPrepend(rowind, end - used, Rows(was, base), base + e.row);
    HoldsPrepend(nzval, end - used, Vals(was), e.val);
  }

  lemma FillThere<V>(rowind: seq<int>, nzval: seq<V>, base: int, col: seq<Entry<V>>, end: nat, used: nat,
                     recv: seq<Triplet<V>>, i: nat, c: nat, at: nat, r: int, v: V)
    requires i < |recv| && recv[i].col != c && |rowind| == |nzval| && at < |rowind|
    requires FilledAt(rowind, nzval, base, col, end, used, recv[..i], c) && (at < end - used || end <= at)
    ensures FilledAt(rowind[at := r], nzval[at := v], base, col, end, used, recv[..i + 1], c)
  {
    GrownOne(col, recv, i, c);
    var was := Grown(col, recv[..i], c);
    assert Grown(col, recv[..i + 1], c) == was;
    HoldsElsewhere(rowind, end - used, Rows(was, base), at, r);
    HoldsElsewhere(nzval, end - used, Vals(was), at, v);
  }

  /** Rooms do not overlap. */
  lemma RoomApart(counts: seq<nat>, q: nat, c: nat)
    requires q < |counts| && c < |counts| && q != c
    ensures Total(counts, q + 1) <= Total(counts, c) || Total(counts, c + 1) <= Total(counts, q)
  {
    if q < c {
      TotalMonotone(counts, q + 1, c);
    } else {
      TotalMonotone(counts, c + 1, q);
    }
  }

  lemma RoomLeft<V>(cols: seq<seq<Entry<V>>>, counts: seq<nat>, recv: seq<Triplet<V>>, first: nat, i: nat, c: nat)
    requires i <= |recv| && c < |cols| == |counts|
    requires counts[c] == |cols[c]| + |Arrived(recv, first + c)|
    ensures |Grown(cols[c], recv[..i], first + c)| <= counts[c]
    ensures i < |recv| && recv[i].col == first + c ==> |Grown(cols[c], recv[..i], first + c)| < counts[c]
  {
    ArrivedPrefix(recv, i, first + c);
    if i < |recv| {
      ArrivedOne(recv, i, first + c);
      ArrivedPrefix(recv, i + 1, first + c);
    }
  }

  /** counts[c] is the final size of column c. */
  ghost predicate FinalCounts<V>(cols: seq<seq<Entry<V>>>, counts: seq<nat>, recv: seq<Triplet<V>>, first: nat) {
    && |counts| == |cols|
    && forall c {:trigger counts[c]} :: 0 <= c < |cols| ==> counts[c] == |cols[c]| + |Arrived(recv, first + c)|
  }

  /** Where column c's entries end and where the next arrival for column q goes: inside the room of q,
      outside what column c holds. */
  lemma FillPlace<V>(cols: seq<seq<Entry<V>>>, counts: seq<nat>, recv: seq<Triplet<V>>, first: nat, i: nat, q: nat,
                     at: int, c: nat)
    requires i < |recv| && q < |cols| && c < |cols| && recv[i].col == first + q && FinalCounts(cols, counts, recv, first)
    requires at == Total(counts, q + 1) - |Grown(cols[q], recv[..i], first + q)| - 1
    ensures 0 <= at < Total(counts, |counts|)
    ensures c != q ==> at < Total(counts, c + 1) - |Grown(cols[c], recv[..i], first + c)| || Total(counts, c + 1) <= at
  {
    assert counts[q] == |cols[q]| + |Arrived(recv, first + q)|;
    assert counts[c] == |cols[c]| + |Arrived(recv, first + c)|;
    RoomLeft(cols, counts, recv, first, i, q);
    RoomLeft(cols, counts, recv, first, i, c);
    TotalMonotone(counts, q + 1, |counts|);
    if c != q {
      RoomApart(counts, q, c);
    }
  }

  lemma FillStep<V>(rowind: seq<int>, nzval: seq<V>, base: int, cols: seq<seq<Entry<V>>>,
                    counts: seq<nat>, used: nat, recv: seq<Triplet<V>>, first: nat, i: nat, q: nat, at: int,
                    c: nat, usedC: nat)
    requires i < |recv| && q < |cols| && c < |cols| && recv[i].col == first + q && FinalCounts(cols, counts, recv, first)
    requires |rowind| == |nzval| == Total(counts, |counts|)
    requires used == |Grown(cols[q], recv[..i], first + q)|
    requires FilledAt(rowind, nzval, base, cols[c], Total(counts, c + 1), usedC, recv[..i], first + c)
    requires at == Total(counts, q + 1) - used - 1
    ensures 0 <= at < |rowind|
    ensures FilledAt(rowind[at := recv[i].row + base], nzval[at := recv[i].val], base, cols[c], Total(counts, c + 1),
                     if c == q then usedC + 1 else usedC, recv[..i + 1], first + c)
  {
    FillPlace(cols, counts, recv, first, i, q, at, c);
    TotalMonotone(counts, c + 1, |counts|);
    if c == q {
      FillHere(rowind, nzval, base, cols[c], Total(counts, c + 1), usedC, recv, i, first + c);
    } else {
      FillThere(rowind, nzval, base, cols[c], Total(counts, c + 1), usedC, recv, i, first + c, at,
                recv[i].row + base, recv[i].val);
    }
  }

  lemma FillOne<V>(rowind: seq<int>, nzval: seq<V>, base: int, cols: seq<seq<Entry<V>>>, counts: seq<nat>,
                   used: seq<nat>, recv: seq<Triplet<V>>, first: nat, i: nat, q: nat, at: int)
    requires i < |recv| && q < |cols| && recv[i].col == first + q && FinalCounts(cols, counts, recv, first)
    requires Filled(rowind, nzval, base, cols, counts, used, recv[..i], first)
    requires at == Total(counts, q + 1) - used[q] - 1
    ensures 0 <= at < |rowind|
    ensures Filled(rowind[at := recv[i].row + base], nzval[at := recv[i].val], base, cols, counts,
                   used[q := used[q] + 1], recv[..i + 1], first)
  {
    var used' := used[q := used[q] + 1];
    assert FilledAt(rowind, nzval, base, cols[q], Total(counts, q + 1), used[q], recv[..i], first + q);
    FillStep(rowind, nzval, base, cols, counts, used[q], recv, first, i, q, at, q, used[q]);
    forall c {:trigger used'[c]} | 0 <= c < |cols|
      ensures FilledAt(rowind[at := recv[i].row + base], nzval[at := recv[i].val], base, cols[c], Total(counts, c + 1),
                       used'[c], recv[..i + 1], first + c)
    {
      FillStep(rowind, nzval, base, cols, counts, used[q], recv, first, i, q, at, c, used[c]);
    }
  }

  lemma FillNone<V>(rowind: seq<int>, nzval: seq<V>, base: int, cols: seq<seq<Entry<V>>>, counts: seq<nat>,
                    used: seq<nat>, recv: seq<Triplet<V>>, first: nat)
    requires AllShifted(rowind, nzval, base, cols, counts, 0)
    requires |used| == |cols| && forall c :: 0 <= c < |cols| ==> used[c] == |cols[c]|
    ensures Filled(rowind, nzval, base, cols, counts, used, recv[..0], first)
  {
    forall c {:trigger used[c]} | 0 <= c < |cols|
      ensures FilledAt(rowind, nzval, base, cols[c], Total(counts, c + 1), used[c], recv[..0], first + c)
    {
      assert Shifted(rowind, nzval, base, cols, counts, 0, c);
      assert Grown(cols[c], recv[..0], first + c) == cols[c];
    }
  }

  lemma FillLast<V>(rowind: seq<int>, nzval: seq<V>, base: int, cols: seq<seq<Entry<V>>>, counts: seq<nat>,
                    used: seq<nat>, recv: seq<Triplet<V>>, first: nat, colptr: seq<int>)
    requires Filled(rowind, nzval, base, cols, counts, used, recv, first) && FinalCounts(cols, counts, recv, first)
    requires |colptr| == |cols| + 1
    requires forall c {:trigger colptr[c]} :: 0 <= c <= |cols| ==> colptr[c] == base + Total(counts, c)
    ensures Represents(base, colptr, rowind, nzval, GrownAll(cols, recv, first))
  {
    var grown := GrownAll(cols, recv, first);
    forall c | 0 <= c < |cols|
      ensures counts[c] == |grown[c]|
    {
    }
    forall c {:trigger colptr[c]} | 0 <= c <= |cols|
      ensures colptr[c] == base + Start(grown, c)
    {
      TotalIsStart(counts, grown, c);
    }
    TotalIsStart(counts, grown, |cols|);
    forall c | 0 <= c < |cols|
      ensures ColumnStored(rowind, nzval, base, grown, c)
    {
      TotalIsStart(counts, grown, c);
      assert FilledAt(rowind, nzval, base, cols[c], Total(counts, c + 1), used[c], recv, first + c);
    }
  }

  /** Column pointers turned into column lengths. */
  method Lengths<V>(base: int, colptr: seq<int>, ghost cols: seq<seq<Entry<V>>>) returns (lengths: seq<nat>)
    requires |colptr| == |cols| + 1
    requires forall c {:trigger colptr[c]} :: 0 <= c <= |cols| ==> colptr[c] == base + Start(cols, c)
    ensures |lengths| == |cols| && forall c :: 0 <= c < |cols| ==> lengths[c] == |cols[c]|
  {
    lengths := [];
    for c := 0 to |colptr| - 1
      invariant |lengths| == c && forall i :: 0 <= i < c ==> lengths[i] == |cols[i]|
    {
      assert Start(cols, c + 1) == Start(cols, c) + |cols[c]|;
      lengths := lengths + [colptr[c + 1] - colptr[c]];
    }
  }

  lemma BeforeShift<V>(base: int, colptr: seq<int>, rowind: seq<int>, nzval: seq<V>, rows: seq<int>, vals: seq<V>,
                       cols: seq<seq<Entry<V>>>, counts: seq<nat>)
    requires Represents(base, colptr, rowind, nzval, cols) && Room(cols, counts)
    requires |rows| == |vals| == Total(counts, |counts|) && rowind <= rows && nzval <= vals
    ensures AllShifted(rows, vals, base, cols, counts, |cols|)
  {
    forall c | 0 <= c < |cols|
      ensures Shifted(rows, vals, base, cols, counts, |cols|, c)
    {
      assert ColumnStored(rowind, nzval, base, cols, c);
      HoldsInLonger(rowind, rows, Start(cols, c), Rows(cols[c], base));
      HoldsInLonger(nzval, vals, Start(cols, c), Vals(cols[c]));
    }
  }

  lemma HoldsInLonger<T>(s: seq<T>, t: seq<T>, at: nat, x: seq<T>)
    requires s <= t && Holds(s, at, x)
    ensures Holds(t, at, x)
  {
    assert t[at..at + |x|] == s[at..at + |x|];
  }

  lemma CountsFinal<V>(cols: seq<seq<Entry<V>>>, lengths: seq<nat>, counts: seq<nat>, recv: seq<Triplet<V>>, first: nat)
    requires |lengths| == |cols| && (forall c :: 0 <= c < |cols| ==> lengths[c] == |cols[c]|)
    requires Tallied(counts, lengths, recv, first)
    ensures FinalCounts(cols, counts, recv, first) && Room(cols, counts)
    ensures Start(cols, |cols|) <= Total(counts, |counts|)
  {
    forall c {:trigger counts[c]} | 0 <= c < |cols|
      ensures counts[c] == |cols[c]| + |Arrived(recv, first + c)|
    {
      assert lengths[c] == |cols[c]|;
    }
    StartBelow(cols, counts, |cols|);
  }

  /** An arrival goes into the slot just in front of what its column holds. */
  method UnpackOne<V>(rows0: seq<int>, vals0: seq<V>, base: int, newColptr: seq<int>, used0: seq<nat>,
                      recv: seq<Triplet<V>>, first: nat, i: nat, ghost cols: seq<seq<Entry<V>>>, ghost counts: seq<nat>)
    returns (rows: seq<int>, vals: seq<V>, used: seq<nat>)
    requires |newColptr| == |cols| + 1 && Local(recv, first, |cols|) && i < |recv|
    requires FinalCounts(cols, counts, recv, first) && Filled(rows0, vals0, base, cols, counts, used0, recv[..i], first)
    requires forall c {:trigger newColptr[c]} :: 0 <= c <= |cols| ==> newColptr[c] == base + Total(counts, c)
    ensures Filled(rows, vals, base, cols, counts, used, recv[..i + 1], first)
  {
    var locCol := recv[i].col - first;
    var pos := newColptr[locCol + 1] - used0[locCol] - 1;
    FillOne(rows0, vals0, base, cols, counts, used0, recv, first, i, locCol, pos - base);
    used := used0[locCol := used0[locCol] + 1];
    rows, vals := rows0[pos - base := recv[i].row + base], vals0[pos - base := recv[i].val];
  }

  /** All arrivals, in the order they came. */
  method Unpack<V>(rowind: seq<int>, nzval: seq<V>, base: int, newColptr: seq<int>, lengths: seq<nat>,
                   recv: seq<Triplet<V>>, first: nat, ghost cols: seq<seq<Entry<V>>>, ghost counts: seq<nat>)
    returns (rows: seq<int>, vals: seq<V>)
    requires AllShifted(rowind, nzval, base, cols, counts, 0) && FinalCounts(cols, counts, recv, first)
    requires |lengths| == |cols| && forall c :: 0 <= c < |cols| ==> lengths[c] == |cols[c]|
    requires |newColptr| == |cols| + 1 && Local(recv, first, |cols|)
    requires forall c {:trigger newColptr[c]} :: 0 <= c <= |cols| ==> newColptr[c] == base + Total(counts, c)
    ensures Represents(base, newColptr, rows, vals, GrownAll(cols, recv, first))
  {
    rows, vals := rowind, nzval;
    var used := lengths;
    FillNone(rows, vals, base, cols, counts, used, recv, first);
    for i := 0 to |recv|
      invariant Filled(rows, vals, base, cols, counts, used, recv[..i], first)
    {
      rows, vals, used := UnpackOne(rows, vals, base, newColptr, used, recv, first, i, cols, counts);
    }
    assert recv[..|recv|] == recv;
    FillLast(rows, vals, base, cols, counts, used, recv, first, newColptr);
  }

  /** The receiving half of the expansion: lengths, new column pointers, in-place shift, unpacking. */
  method Grow<V(0)>(base: int, colptr: seq<int>, rowind: seq<int>, nzval: seq<V>, recv: seq<Triplet<V>>, first: nat,
                    ghost cols: seq<seq<Entry<V>>>) returns (newColptr: seq<int>, rows: seq<int>, vals: seq<V>)
    requires Represents(base, colptr, rowind, nzval, cols) && Local(recv, first, |cols|)
    ensures Represents(base, newColptr, rows, vals, GrownAll(cols, recv, first))
  {
    var lengths := Lengths(base, colptr, cols);
    var counts := Tally(lengths, recv, first);
    CountsFinal(cols, lengths, counts, recv, first);
    newColptr := PartialSums(counts, base);
    var nnz := newColptr[|counts|] - base;
    var fill: V := *;
    rows := rowind + seq(nnz - |rowind|, _ => 0);
    vals := nzval + seq(nnz - |nzval|, _ => fill);
    BeforeShift(base, colptr, rowind, nzval, rows, vals, cols, counts);
    rows, vals := ShiftColumns(rows, vals, base, colptr, newColptr, cols, counts);
    rows, vals := Unpack(rows, vals, base, newColptr, lengths, recv, first, cols, counts);
  }

  // ---------------------------------------------------------------------------------------------
  // Assembly from scratch
  // ---------------------------------------------------------------------------------------------

  function ArrivedAll<V>(recv: seq<Triplet<V>>, first: nat, n: nat): (r: seq<seq<Entry<V>>>)
    ensures |r| == n
  {
    seq(n, c requires 0 <= c < n => Arrived(recv, first + c))
  }

  ghost predicate Building<V>(rowind: seq<int>, nzval: seq<V>, base: int, counts: seq<nat>, cursor: seq<int>,
                              recv: seq<Triplet<V>>, first: nat) {
    && |cursor| == |counts| + 1 && |rowind| == |nzval| == Total(counts, |counts|)
    && forall c {:trigger cursor[c]} :: 0 <= c < |counts| ==>
         BuiltAt(rowind, nzval, base, Total(counts, c), cursor[c], recv, first + c)
  }

  ghost predicate BuiltAt<V>(rowind: seq<int>, nzval: seq<V>, base: int, begin: nat, free: int, recv: seq<Triplet<V>>, c: nat) {
    && free == base + begin + |Arrived(recv, c)|
    && Stored(rowind, nzval, base, begin, Arrived(recv, c))
  }

  lemma RowsAppend<V>(col: seq<Entry<V>>, e: Entry<V>, base: int)
    ensures Rows(col + [e], base) == Rows(col, base) + [base + e.row]
    ensures Vals(col + [e]) == Vals(col) + [e.val]
  {
  }

  lemma BuildStep<V>(rowind: seq<int>, nzval: seq<V>, base: int, begin: nat, free: int, recv: seq<Triplet<V>>, i: nat,
                     c: nat, at: nat)
    requires i < |recv| && |rowind| == |nzval| && at < |rowind|
    requires BuiltAt(rowind, nzval, base, begin, free, recv[..i], c)
    requires if recv[i].col == c then at == free - base else at < begin || begin + |Arrived(recv[..i], c)| <= at
    ensures BuiltAt(rowind[at := recv[i].row + base], nzval[at := recv[i].val], base, begin,
                    if recv[i].col == c then free + 1 else free, recv[..i + 1], c)
  {
    ArrivedOne(recv, i, c);
    var was, e := Arrived(recv[..i], c), Entry(recv[i].row, recv[i].val);
    if recv[i].col == c {
      RowsAppend(was, e, base);
      HoldsAppend(rowind, begin, Rows(was, base), base + e.row);
      HoldsAppend(nzval, begin, Vals(was), e.val);
    } else {
      assert was + [] == was;
      HoldsElsewhere(rowind, begin, Rows(was, base), at, recv[i].row + base);
      HoldsElsewhere(nzval, begin, Vals(was), at, recv[i].val);
    }
  }

  lemma BuildPlace<V>(counts: seq<nat>, recv: seq<Triplet<V>>, first: nat, i: nat, q: nat, at: int, c: nat)
    requires i < |recv| && q < |counts| && c < |counts| && recv[i].col == first + q
    requires counts[q] == |Arrived(recv, first + q)| && counts[c] == |Arrived(recv, first + c)|
    requires at == Total(counts, q) + |Arrived(recv[..i], first + q)|
    ensures 0 <= at < Total(counts, |counts|)
    ensures c != q ==> at < Total(counts, c) || Total(counts, c) + |Arrived(recv[..i], first + c)| <= at
  {
    ArrivedOne(recv, i, first + q);
    ArrivedPrefix(recv, i + 1, first + q);
    ArrivedPrefix(recv, i, first + c);
    TotalMonotone(counts, q + 1, |counts|);
    if c != q {
      RoomApart(counts, q, c);
    }
  }

  lemma BuildOne<V>(rowind: seq<int>, nzval: seq<V>, base: int, counts: seq<nat>, cursor: seq<int>,
                    recv: seq<Triplet<V>>, first: nat, i: nat, q: nat)
    requires i < |recv| && q < |counts| && recv[i].col == first + q
    requires forall c {:trigger counts[c]} :: 0 <= c < |counts| ==> counts[c] == |Arrived(recv, first + c)|
    requires Building(rowind, nzval, base, counts, cursor, recv[..i], first)
    ensures 0 <= cursor[q] - base < |rowind|
    ensures Building(rowind[cursor[q] - base := recv[i].row + base], nzval[cursor[q] - base := recv[i].val], base, counts,
                     cursor[q := cursor[q] + 1], recv[..i + 1], first)
  {
    var at, cursor' := cursor[q] - base, cursor[q := cursor[q] + 1];
    assert BuiltAt(rowind, nzval, base, Total(counts, q), cursor[q], recv[..i], first + q);
    BuildPlace(counts, recv, first, i, q, at, q);
    forall c {:trigger cursor'[c]} | 0 <= c < |counts|
      ensures BuiltAt(rowind[at := recv[i].row + base], nzval[at := recv[i].val], base, Total(counts, c), cursor'[c],
                      recv[..i + 1], first + c)
    {
      assert BuiltAt(rowind, nzval, base, Total(counts, c), cursor[c], recv[..i], first + c);
      BuildPlace(counts, recv, first, i, q, at, c);
      BuildStep(rowind, nzval, base, Total(counts, c), cursor[c], recv, i, first + c, at);
    }
  }

  lemma BuildNone<V>(rowind: seq<int>, nzval: seq<V>, base: int, counts: seq<nat>, cursor: seq<int>, recv: seq<Triplet<V>>, first: nat)
    requires recv == [] && |rowind| == |nzval| == Total(counts, |counts|) && |cursor| == |counts| + 1
    requires forall c {:trigger cursor[c]} :: 0 <= c <= |counts| ==> cursor[c] == base + Total(counts, c)
    ensures Building(rowind, nzval, base, counts, cursor, recv, first)
  {
    forall c {:trigger cursor[c]} | 0 <= c < |counts|
      ensures BuiltAt(rowind, nzval, base, Total(counts, c), cursor[c], recv, first + c)
    {
      TotalMonotone(counts, c, |counts|);
    }
  }

  lemma BuildLast<V>(rowind: seq<int>, nzval: seq<V>, base: int, counts: seq<nat>, cursor: seq<int>,
                     recv: seq<Triplet<V>>, first: nat, colptr: seq<int>)
    requires Building(rowind, nzval, base, counts, cursor, recv, first)
    requires forall c {:trigger counts[c]} :: 0 <= c < |counts| ==> counts[c] == |Arrived(recv, first + c)|
    requires |colptr| == |counts| + 1
    requires forall c {:trigger colptr[c]} :: 0 <= c <= |counts| ==> colptr[c] == base + Total(counts, c)
    ensures Represents(base, colptr, rowind, nzval, ArrivedAll(recv, first, |counts|))
  {
    var cols := ArrivedAll(recv, first, |counts|);
    forall c {:trigger colptr[c]} | 0 <= c <= |counts|
      ensures colptr[c] == base + Start(cols, c)
    {
      TotalIsStart(counts, cols, c);
    }
    TotalIsStart(counts, cols, |counts|);
    forall c | 0 <= c < |cols|
      ensures ColumnStored(rowind, nzval, base, cols, c)
    {
      TotalIsStart(counts, cols, c);
      assert BuiltAt(rowind, nzval, base, Total(counts, c), cursor[c], recv, first + c);
    }
  }

  method PlaceOne<V>(rowind0: seq<int>, nzval0: seq<V>, base: int, cursor0: seq<int>, recv: seq<Triplet<V>>, first: nat,
                     i: nat, ghost counts: seq<nat>) returns (rowind: seq<int>, nzval: seq<V>, cursor: seq<int>)
    requires i < |recv| && Local(recv, first, |counts|)
    requires forall c {:trigger counts[c]} :: 0 <= c < |counts| ==> counts[c] == |Arrived(recv, first + c)|
    requires Building(rowind0, nzval0, base, counts, cursor0, recv[..i], first)
    ensures Building(rowind, nzval, base, counts, cursor, recv[..i + 1], first)
  {
    var locCol := recv[i].col - first;
    BuildOne(rowind0, nzval0, base, counts, cursor0, recv, first, i, locCol);
    var pos := cursor0[locCol];
    rowind, nzval := rowind0[pos - base := recv[i].row + base], nzval0[pos - base := recv[i].val];
    cursor := cursor0[locCol := cursor0[locCol] + 1];
  }

  /** Every arrival is placed behind the earlier ones of its column. */
  method Place<V>(rowind0: seq<int>, nzval0: seq<V>, base: int, colptr: seq<int>, recv: seq<Triplet<V>>, first: nat,
                  ghost counts: seq<nat>) returns (rowind: seq<int>, nzval: seq<V>)
    requires Local(recv, first, |counts|) && |rowind0| == |nzval0| == Total(counts, |counts|) && |colptr| == |counts| + 1
    requires forall c {:trigger counts[c]} :: 0 <= c < |counts| ==> counts[c] == |Arrived(recv, first + c)|
    requires forall c {:trigger colptr[c]} :: 0 <= c <= |counts| ==> colptr[c] == base + Total(counts, c)
    ensures Represents(base, colptr, rowind, nzval, ArrivedAll(recv, first, |counts|))
  {
    rowind, nzval := rowind0, nzval0;
    var cursor := colptr;
    BuildNone(rowind, nzval, base, counts, cursor, recv[..0], first);
    for i := 0 to |recv|
      invariant Building(rowind, nzval, base, counts, cursor, recv[..i], first)
    {
      rowind, nzval, cursor := PlaceOne(rowind, nzval, base, cursor, recv, first, i, counts);
    }
    assert recv[..|recv|] == recv;
    BuildLast(rowind, nzval, base, counts, cursor, recv, first, colptr);
  }

  /** The receiving half of a permutation: count, sum up, and place. */
  method Assemble<V(0)>(base: int, recv: seq<Triplet<V>>, first: nat, n: nat)
    returns (colptr: seq<int>, rowind: seq<int>, nzval: seq<V>)
    requires Local(recv, first, n)
    ensures Represents(base, colptr, rowind, nzval, ArrivedAll(recv, first, n))
  {
    var counts := Tally(seq(n, _ => 0), recv, first);
    forall c {:trigger counts[c]} | 0 <= c < n
      ensures counts[c] == |Arrived(recv, first + c)|
    {
      assert counts[c] == seq(n, _ => 0)[c] + |Arrived(recv, first + c)|;
    }
    colptr := PartialSums(counts, base);
    var fill: V := *;
    rowind := seq(colptr[n] - base, _ => 0);
    nzval := seq(colptr[n] - base, _ => fill);
    rowind, nzval := Place(rowind, nzval, base, colptr, recv, first, counts);
  }
}
