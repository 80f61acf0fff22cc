/** The products of LDL': a DLT task multiplies a cell of its rank with D once, the updates with that pivot read
    the product, and the last of them deletes it.  A counter in the cell says how many are still to come: the
    TRSM task sets it while it tells its targets, and every update lowers it. */
module Products {
  import L = ThreadLocks
  import opened TaskProtocol
  import opened TaskGraph
  import opened RankThreads

  // ---------------------------------------------------------------------------------------------
  // The targets that a TRSM task tells on its own rank, in order
  // ---------------------------------------------------------------------------------------------

  function OutOf(b: Blocks, ms: seq<Msg>, s: Key, r: nat): seq<Key> { Out(GraphOf(b), AllPushes(b, ms), s, r) }

  /** What the pair of cells (J,I) and (K,I) adds to the list of TRSM(J,I) for rank r. */
  function PairTargets(b: Blocks, J: nat, I: nat, K: nat, r: nat): seq<Key> {
    (if K >= J && b.own(K, J) == r then [UpdateKey(b, K, J, I)] + (if b.ldl then [DltKey(J, I, r)] else []) else [])
    + (if K <= J && b.own(J, K) == r then [UpdateKey(b, J, K, I)] else [])
  }

  function LoopTargets(b: Blocks, J: nat, I: nat, Ks: seq<nat>, r: nat): seq<Key> {
    if Ks == [] then [] else PairTargets(b, J, I, Ks[0], r) + LoopTargets(b, J, I, Ks[1..], r)
  }

  lemma OutOfAppend(b: Blocks, xs: seq<Msg>, ys: seq<Msg>, s: Key, r: nat)
    ensures OutOf(b, xs + ys, s, r) == OutOf(b, xs, s, r) + OutOf(b, ys, s, r)
  {
    PushesAppend(b, xs, ys);
    OutAppend(GraphOf(b), AllPushes(b, xs), AllPushes(b, ys), s, r);
  }

  lemma OutOfTwo(b: Blocks, x: Msg, y: Msg, s: Key, r: nat)
    ensures OutOf(b, [x, y], s, r) == Out(GraphOf(b), Pushes(b, x), s, r) + Out(GraphOf(b), Pushes(b, y), s, r)
  {
    TwoMessages(b, x, y);
    OutAppend(GraphOf(b), Pushes(b, x), Pushes(b, y), s, r);
  }

  lemma {:induction false} OutNone(g: Graph<Key>, es: seq<(Key, Key)>, s: Key, r: nat)
    requires forall e <- es :: e.0 != s
    ensures Out(g, es, s, r) == []
  {
    if es != [] {
      assert es[0] in es;
      OutNone(g, es[1..], s, r);
    }
  }

  lemma OutFew(g: Graph<Key>, es: seq<(Key, Key)>, s: Key, r: nat)
    requires |es| <= 2
    ensures Out(g, es, s, r) == (if |es| > 0 && es[0].0 == s && g.owner(es[0].1) == r then [es[0].1] else [])
                              + (if |es| > 1 && es[1].0 == s && g.owner(es[1].1) == r then [es[1].1] else [])
  {
    if |es| > 0 {
      assert |es[1..]| == |es| - 1;
      if |es| > 1 {
        assert es[1..][1..] == [];
      }
    }
  }

  lemma OdOut(b: Blocks, I': nat, J': nat, K: nat, J: nat, I: nat, r: nat)
    requires K >= J'
    ensures OutOf(b, [Msg(b.own(J', I'), I', J', UPDATE2D_SEND_OD, K, J'), Msg(b.own(K, J'), I', J', UPDATE2D_RECV_OD, K, J')], TrsmKey(b, J, I), r)
         == if I' == I && J' == J && b.own(K, J) == r then [UpdateKey(b, K, J, I)] + (if b.ldl then [DltKey(J, I, r)] else []) else []
  {
    var x, y := Msg(b.own(J', I'), I', J', UPDATE2D_SEND_OD, K, J'), Msg(b.own(K, J'), I', J', UPDATE2D_RECV_OD, K, J');
    OutOfTwo(b, x, y, TrsmKey(b, J, I), r);
    OutFew(GraphOf(b), Pushes(b, x), TrsmKey(b, J, I), r);
    OutNone(GraphOf(b), Pushes(b, y), TrsmKey(b, J, I), r);
  }

  lemma UpOut(b: Blocks, I': nat, J': nat, K: nat, J: nat, I: nat, r: nat)
    requires K <= J'
    ensures OutOf(b, [Msg(b.own(J', I'), I', K, UPDATE2D_SEND, K, J'), Msg(b.own(J', K), I', K, UPDATE2D_RECV, K, J')], TrsmKey(b, J, I), r)
         == if I' == I && J' == J && b.own(J, K) == r then [UpdateKey(b, J, K, I)] else []
  {
    var x, y := Msg(b.own(J', I'), I', K, UPDATE2D_SEND, K, J'), Msg(b.own(J', K), I', K, UPDATE2D_RECV, K, J');
    OutOfTwo(b, x, y, TrsmKey(b, J, I), r);
    OutFew(GraphOf(b), Pushes(b, x), TrsmKey(b, J, I), r);
    OutNone(GraphOf(b), Pushes(b, y), TrsmKey(b, J, I), r);
  }

  lemma DiagOut(b: Blocks, I': nat, J': nat, K: nat, s: Key, r: nat)
    requires s.op.TRSM?
    ensures OutOf(b, [Msg(b.own(I', I'), I', K, UPDATE2D_DIAG_SEND, K, J'), Msg(b.own(J', K), I', K, UPDATE2D_DIAG_RECV, K, J')], s, r) == []
  {
    var x, y := Msg(b.own(I', I'), I', K, UPDATE2D_DIAG_SEND, K, J'), Msg(b.own(J', K), I', K, UPDATE2D_DIAG_RECV, K, J');
    OutOfTwo(b, x, y, s, r);
    OutNone(GraphOf(b), Pushes(b, x), s, r);
    OutNone(GraphOf(b), Pushes(b, y), s, r);
  }

  lemma PairOut(b: Blocks, I': nat, J': nat, K: nat, J: nat, I: nat, r: nat)
    ensures OutOf(b, PairMsgs(b, I', J', K), TrsmKey(b, J, I), r) == if I' == I && J' == J then PairTargets(b, J, I, K, r) else []
  {
    var s := TrsmKey(b, J, I);
    var od := if K >= J' then
      [Msg(b.own(J', I'), I', J', UPDATE2D_SEND_OD, K, J'), Msg(b.own(K, J'), I', J', UPDATE2D_RECV_OD, K, J')] else [];
    var up := if K <= J' then
      [Msg(b.own(J', I'), I', K, UPDATE2D_SEND, K, J'), Msg(b.own(J', K), I', K, UPDATE2D_RECV, K, J')] else [];
    var diag := if K <= J' && b.ldl then
      [Msg(b.own(I', I'), I', K, UPDATE2D_DIAG_SEND, K, J'), Msg(b.own(J', K), I', K, UPDATE2D_DIAG_RECV, K, J')] else [];
    if K >= J' {
      OdOut(b, I', J', K, J, I, r);
    }
    if K <= J' {
      UpOut(b, I', J', K, J, I, r);
      DiagOut(b, I', J', K, s, r);
    }
    OutOfAppend(b, up, diag, s, r);
    OutOfAppend(b, od, up + diag, s, r);
    PairParts(b, I', J', K, od, up, diag);
  }

  lemma {:induction false} PairLoopOut(b: Blocks, I': nat, J': nat, Ks: seq<nat>, J: nat, I: nat, r: nat)
    ensures OutOf(b, PairLoop(b, I', J', Ks), TrsmKey(b, J, I), r) == if I' == I && J' == J then LoopTargets(b, J, I, Ks, r) else []
  {
    if Ks != [] {
      PairOut(b, I', J', Ks[0], J, I, r);
      PairLoopOut(b, I', J', Ks[1..], J, I, r);
      OutOfAppend(b, PairMsgs(b, I', J', Ks[0]), PairLoop(b, I', J', Ks[1..]), TrsmKey(b, J, I), r);
    }
  }

  lemma {:induction false} AggLoopOut(b: Blocks, I': nat, J': nat, Ks: seq<nat>, s: Key, r: nat)
    requires s.op.TRSM?
    ensures OutOf(b, AggLoop(b, I', J', Ks), s, r) == []
  {
    if Ks != [] {
      var ms := AggMsgs(b, I', J', Ks[0]);
      if Ks[0] >= J' {
        OutOfTwo(b, ms[0], ms[1], s, r);
        OutNone(GraphOf(b), Pushes(b, ms[0]), s, r);
        OutNone(GraphOf(b), Pushes(b, ms[1]), s, r);
        assert ms == [ms[0], ms[1]];
      }
      AggLoopOut(b, I', J', Ks[1..], s, r);
      OutOfAppend(b, ms, AggLoop(b, I', J', Ks[1..]), s, r);
    }
  }

  lemma RowOut(b: Blocks, I': nat, J': nat, J: nat, I: nat, r: nat)
    ensures OutOf(b, RowMsgs(b, I', J'), TrsmKey(b, J, I), r) == if I' == I && J' == J then LoopTargets(b, J, I, b.anc(I), r) else []
  {
    var s, head := TrsmKey(b, J, I), HeadMsgs(b, I', J');
    OutOfTwo(b, head[0], head[1], s, r);
    OutNone(GraphOf(b), Pushes(b, head[0]), s, r);
    OutNone(GraphOf(b), Pushes(b, head[1]), s, r);
    PairLoopOut(b, I', J', b.anc(I'), J, I, r);
    AggLoopOut(b, I', J', b.anc(I'), s, r);
    OutOfAppend(b, head, PairLoop(b, I', J', b.anc(I')), s, r);
    OutOfAppend(b, head + PairLoop(b, I', J', b.anc(I')), AggLoop(b, I', J', b.anc(I')), s, r);
  }

  lemma {:induction false} RowLoopOut(b: Blocks, I': nat, Js: seq<nat>, J: nat, I: nat, r: nat)
    requires Increasing(Js)
    ensures OutOf(b, RowLoop(b, I', Js), TrsmKey(b, J, I), r) == if I' == I && J in Js then LoopTargets(b, J, I, b.anc(I), r) else []
  {
    if Js != [] {
      RowOut(b, I', Js[0], J, I, r);
      RowLoopOut(b, I', Js[1..], J, I, r);
      OutOfAppend(b, RowMsgs(b, I', Js[0]), RowLoop(b, I', Js[1..]), TrsmKey(b, J, I), r);
      assert Js == [Js[0]] + Js[1..];
    }
  }

  lemma OutUnfold(b: Blocks, lo: nat, hi: nat, s: Key, r: nat)
    requires lo < hi
    ensures OutOf(b, Msgs(b, lo, hi), s, r) == OutOf(b, RowLoop(b, lo, b.anc(lo)), s, r) + OutOf(b, Msgs(b, lo + 1, hi), s, r)
  {
    MsgsUnfold(b, lo, hi);
    OutOfAppend(b, RowLoop(b, lo, b.anc(lo)), Msgs(b, lo + 1, hi), s, r);
  }

  lemma OutEmpty(b: Blocks, lo: nat, hi: nat, s: Key, r: nat)
    requires lo >= hi
    ensures OutOf(b, Msgs(b, lo, hi), s, r) == []
  {
  }

  /** The messages of which supernodes matter for cell (J,I). */
  function ColumnTargets(b: Blocks, lo: nat, hi: nat, J: nat, I: nat, r: nat): seq<Key> {
    if lo <= I < hi && J in b.anc(I) then LoopTargets(b, J, I, b.anc(I), r) else []
  }

  ghost predicate OutIs(b: Blocks, lo: nat, hi: nat, J: nat, I: nat, r: nat) {
    OutOf(b, Msgs(b, lo, hi), TrsmKey(b, J, I), r) == ColumnTargets(b, lo, hi, J, I, r)
  }

  lemma OutStep(b: Blocks, lo: nat, hi: nat, J: nat, I: nat, r: nat)
    requires lo < hi && Increasing(b.anc(lo)) && OutIs(b, lo + 1, hi, J, I, r)
    ensures OutIs(b, lo, hi, J, I, r)
  {
    OutUnfold(b, lo, hi, TrsmKey(b, J, I), r);
    RowLoopOut(b, lo, b.anc(lo), J, I, r);
  }

  lemma OutEnd(b: Blocks, lo: nat, hi: nat, J: nat, I: nat, r: nat)
    requires lo >= hi
    ensures OutIs(b, lo, hi, J, I, r)
  {
    OutEmpty(b, lo, hi, TrsmKey(b, J, I), r);
  }

  lemma {:induction false} MsgsOut(b: Blocks, lo: nat, hi: nat, J: nat, I: nat, r: nat)
    requires forall k :: lo <= k < hi ==> Increasing(b.anc(k))
    ensures OutIs(b, lo, hi, J, I, r)
    decreases hi - lo
  {
    if lo < hi {
      MsgsOut(b, lo + 1, hi, J, I, r);
      OutStep(b, lo, hi, J, I, r);
    } else {
      OutEnd(b, lo, hi, J, I, r);
    }
  }

  /** The list of TRSM(J,I) for a rank: cell by cell of the column, an update with pivot (J,I) and its DLT task,
      or an update that (J,I) faces. */
  lemma TrsmTargets(b: Blocks, J: nat, I: nat, r: nat)
    requires ValidBlocks(b) && 1 <= I <= b.n && J in b.anc(I)
    ensures Succs(GraphOf(b), TrsmKey(b, J, I), r) == LoopTargets(b, J, I, b.anc(I), r)
  {
    MsgsOut(b, 1, b.n + 1, J, I, r);
  }

  // ---------------------------------------------------------------------------------------------
  // The counter
  // ---------------------------------------------------------------------------------------------

  predicate IsPivotTarget(k: Key, J: nat) { k.op.UPDATE2D_COMP? && k.cellI == J }

  function PivotCount(out: seq<Key>, J: nat): nat {
    if out == [] then 0 else (if IsPivotTarget(out[0], J) then 1 else 0) + PivotCount(out[1..], J)
  }

  /** The loop in the body of a TRSM task that sets the counter of its cell. */
  method CountPivots(out: seq<Key>, J: nat) returns (local_pivot: nat)
    ensures local_pivot == PivotCount(out, J)
  {
    local_pivot := 0;
    for i := 0 to |out|
      invariant PivotCount(out, J) == local_pivot + PivotCount(out[i..], J)
    {
      assert out[i..][1..] == out[i + 1..];
      if IsPivotTarget(out[i], J) {
        local_pivot := local_pivot + 1;
      }
    }
  }

  lemma {:induction false} PivotCountAppend(xs: seq<Key>, ys: seq<Key>, J: nat)
    ensures PivotCount(xs + ys, J) == PivotCount(xs, J) + PivotCount(ys, J)
  {
    if xs == [] {
      assert xs + ys == ys;
    } else {
      PivotCountAppend(xs[1..], ys, J);
      assert (xs + ys)[1..] == xs[1..] + ys;
    }
  }

  /** The rows of the updates of rank r that use cell (J,I) as pivot. */
  ghost function Users(b: Blocks, J: nat, Ks: seq<nat>, r: nat): set<nat> { set K | K in Ks && K >= J && b.own(K, J) == r }

  lemma PairCount(b: Blocks, J: nat, I: nat, K: nat, r: nat)
    ensures PivotCount(PairTargets(b, J, I, K, r), J) == if K >= J && b.own(K, J) == r then (if K == J then 2 else 1) else 0
  {
    var first := if K >= J && b.own(K, J) == r then [UpdateKey(b, K, J, I)] + (if b.ldl then [DltKey(J, I, r)] else []) else [];
    var second := if K <= J && b.own(J, K) == r then [UpdateKey(b, J, K, I)] else [];
    PivotCountAppend(first, second, J);
    if first != [] {
      assert first[1..] == if b.ldl then [DltKey(J, I, r)] else [];
      assert b.ldl ==> first[1..][1..] == [];
    }
    if second != [] {
      assert second[1..] == [];
    }
  }

  lemma UsersMore(b: Blocks, J: nat, Ks: seq<nat>, r: nat)
    requires Ks != [] && Increasing(Ks)
    ensures |Users(b, J, Ks, r)| == |Users(b, J, Ks[1..], r)| + if Ks[0] >= J && b.own(Ks[0], J) == r then 1 else 0
  {
    assert Ks == [Ks[0]] + Ks[1..];
    assert Ks[0] !in Ks[1..];
    if Ks[0] >= J && b.own(Ks[0], J) == r {
      assert Users(b, J, Ks, r) == Users(b, J, Ks[1..], r) + {Ks[0]};
    } else {
      assert Users(b, J, Ks, r) == Users(b, J, Ks[1..], r);
    }
  }

  lemma {:induction false} LoopCount(b: Blocks, J: nat, I: nat, Ks: seq<nat>, r: nat)
    requires Increasing(Ks)
    ensures PivotCount(LoopTargets(b, J, I, Ks, r), J) == |Users(b, J, Ks, r)| + if J in Ks && b.own(J, J) == r then 1 else 0
  {
    if Ks == [] {
      assert Users(b, J, Ks, r) == {};
    } else {
      PairCount(b, J, I, Ks[0], r);
      LoopCount(b, J, I, Ks[1..], r);
      PivotCountAppend(PairTargets(b, J, I, Ks[0], r), LoopTargets(b, J, I, Ks[1..], r), J);
      UsersMore(b, J, Ks, r);
      assert J in Ks <==> J == Ks[0] || J in Ks[1..];
      assert J == Ks[0] ==> J !in Ks[1..];
    }
  }

  /** The counter starts at the number of updates of the rank that use the cell as pivot, and one more if the
      update of the diagonal cell (J,J) is among them, which is told twice. */
  lemma StartCount(b: Blocks, J: nat, I: nat, r: nat)
    requires ValidBlocks(b) && 1 <= I <= b.n && J in b.anc(I)
    ensures PivotCount(Succs(GraphOf(b), TrsmKey(b, J, I), r), J) == |Users(b, J, b.anc(I), r)| + if b.own(J, J) == r then 1 else 0
  {
    TrsmTargets(b, J, I, r);
    LoopCount(b, J, I, b.anc(I), r);
  }

  // ---------------------------------------------------------------------------------------------
  // No update can start before the counter is complete
  // ---------------------------------------------------------------------------------------------

  /** At or after every increment the DLT task or update u is told, so neither has been told of all its inputs
      while an increment is still to come. */
  ghost predicate Covered(out: seq<Key>, J: nat, dlt: Key, u: Key) {
    forall i :: 0 <= i < |out| && IsPivotTarget(out[i], J) ==> ToldFrom(out, i, dlt, u)
  }

  ghost predicate ToldFrom(out: seq<Key>, i: nat, dlt: Key, u: Key) { exists j :: i <= j < |out| && (out[j] == dlt || out[j] == u) }

  lemma CoveredAppend(xs: seq<Key>, ys: seq<Key>, J: nat, dlt: Key, u: Key)
    requires Covered(ys, J, dlt, u) && (Covered(xs, J, dlt, u) || u in ys)
    ensures Covered(xs + ys, J, dlt, u)
  {
    var s := xs + ys;
    forall i | 0 <= i < |s| && IsPivotTarget(s[i], J)
      ensures ToldFrom(s, i, dlt, u)
    {
      if i >= |xs| {
        assert IsPivotTarget(ys[i - |xs|], J) && ToldFrom(ys, i - |xs|, dlt, u);
        var j :| i - |xs| <= j < |ys| && (ys[j] == dlt || ys[j] == u);
        assert s[|xs| + j] == ys[j];
      } else if u in ys {
        var j :| 0 <= j < |ys| && ys[j] == u;
        assert s[|xs| + j] == u;
      } else {
        assert IsPivotTarget(xs[i], J) && ToldFrom(xs, i, dlt, u);
        var j :| i <= j < |xs| && (xs[j] == dlt || xs[j] == u);
        assert s[j] == xs[j];
      }
    }
  }

  lemma {:induction false} LoopTells(b: Blocks, J: nat, I: nat, Ks: seq<nat>, K: nat, r: nat)
    requires K in Ks && K >= J && b.own(K, J) == r
    ensures UpdateKey(b, K, J, I) in LoopTargets(b, J, I, Ks, r)
  {
    if K != Ks[0] {
      LoopTells(b, J, I, Ks[1..], K, r);
    }
  }

  lemma PairCovered(b: Blocks, J: nat, I: nat, K: nat, r: nat, u: Key)
    requires b.ldl && (K != J || u == UpdateKey(b, J, J, I))
    ensures Covered(PairTargets(b, J, I, K, r), J, DltKey(J, I, r), u)
  {
    var out := PairTargets(b, J, I, K, r);
    forall i | 0 <= i < |out| && IsPivotTarget(out[i], J)
      ensures ToldFrom(out, i, DltKey(J, I, r), u)
    {
      if out[i] == u {
        assert i <= i < |out|;
      } else {
        assert i == 0 && out[1] == DltKey(J, I, r);
      }
    }
  }

  lemma {:induction false} LoopCovered(b: Blocks, J: nat, I: nat, Ks: seq<nat>, K: nat, r: nat)
    requires b.ldl && Increasing(Ks) && K >= J && b.own(K, J) == r && (K in Ks || forall k <- Ks :: k > J)
    ensures Covered(LoopTargets(b, J, I, Ks, r), J, DltKey(J, I, r), UpdateKey(b, K, J, I))
  {
    if Ks != [] {
      var u := UpdateKey(b, K, J, I);
      assert Ks == [Ks[0]] + Ks[1..];
      assert forall k <- Ks[1..] :: Ks[0] < k;
      assert forall k <- Ks[1..] :: k in Ks;
      assert K in Ks ==> K == Ks[0] || K in Ks[1..];
      assert K == Ks[0] ==> forall k <- Ks[1..] :: k > J;
      LoopCovered(b, J, I, Ks[1..], K, r);
      if K in Ks[1..] {
        LoopTells(b, J, I, Ks[1..], K, r);
      } else {
        assert Ks[0] in Ks;
        PairCovered(b, J, I, Ks[0], r, u);
      }
      CoveredAppend(PairTargets(b, J, I, Ks[0], r), LoopTargets(b, J, I, Ks[1..], r), J, DltKey(J, I, r), u);
    }
  }

  lemma ToldIn(out: seq<Key>, i: nat, dlt: Key, u: Key)
    requires i <= |out|
    ensures ToldFrom(out, i, dlt, u) ==> dlt in out[i..] || u in out[i..]
  {
    if ToldFrom(out, i, dlt, u) {
      var j :| i <= j < |out| && (out[j] == dlt || out[j] == u);
      assert out[i..][j - i] == out[j];
    }
  }

  lemma {:induction false} NoneLeft(out: seq<Key>, i: nat, J: nat, dlt: Key, u: Key)
    requires Covered(out, J, dlt, u) && i <= |out| && dlt !in out[i..] && u !in out[i..]
    ensures PivotCount(out[i..], J) == 0
    decreases |out| - i
  {
    if i < |out| {
      assert out[i..][1..] == out[i + 1..];
      NoneLeft(out, i + 1, J, dlt, u);
      ToldIn(out, i, dlt, u);
    }
  }

  /** When TRSM(J,I) has told its DLT task and an update with that pivot for the last time, every increment has
      been made: no update lowers a counter that is still being raised. */
  lemma IncrementsFirst(b: Blocks, J: nat, I: nat, K: nat, r: nat, i: nat)
    requires ValidBlocks(b) && b.ldl && 1 <= I <= b.n && J in b.anc(I) && K in b.anc(I) && K >= J && b.own(K, J) == r
    requires var out := Succs(GraphOf(b), TrsmKey(b, J, I), r);
             i <= |out| && DltKey(J, I, r) !in out[i..] && UpdateKey(b, K, J, I) !in out[i..]
    ensures PivotCount(Succs(GraphOf(b), TrsmKey(b, J, I), r)[i..], J) == 0
  {
    TrsmTargets(b, J, I, r);
    LoopCovered(b, J, I, b.anc(I), K, r);
    NoneLeft(LoopTargets(b, J, I, b.anc(I), r), i, J, DltKey(J, I, r), UpdateKey(b, K, J, I));
  }

  // ---------------------------------------------------------------------------------------------
  // Threads with counters and products
  // ---------------------------------------------------------------------------------------------

  /** The threads of a rank, the counters of its cells, the products that exist, and the updates that have used
      theirs. */
  datatype PState = PState(th: L.State<Key, Lock>, count: map<Lock, int>, live: set<Lock>, used: set<Key>)

  datatype PStep =
    | Thread(step: L.Step<Key>)
    | Use(t: Key)   // a running update multiplies with the product, lowers the counter, and deletes at zero

  function PivotOf(t: Key): Lock { (t.cellI, t.src) }

  /** An update whose pivot is a cell of its own rank; the copies of other cells are freed with their messages. */
  predicate LocalUse(b: Blocks, t: Key) { t.op.UPDATE2D_COMP? && b.own(t.cellI, t.src) == t.owner }

  ghost predicate PEnabled(b: Blocks, sys: L.System<Key, Lock>, s: PState, step: PStep)
    requires L.Shape(sys, s.th)
  {
    match step
    case Thread(l) => L.Enabled(sys, s.th, l) && (l.Release? && LocalUse(b, l.t) ==> l.t in s.used)
    case Use(t) => t in sys.tasks && s.th.place[t].Running? && LocalUse(b, t) && t !in s.used
  }

  function GetCount(count: map<Lock, int>, c: Lock): int { if c in count then count[c] else 0 }

  /** The end of a TRSM task sets the counter, the end of a DLT task leaves the product. */
  ghost function AfterThread(b: Blocks, s: PState, th: L.State<Key, Lock>, l: L.Step<Key>): PState {
    if l.Release? && l.t.op.TRSM? then
      s.(th := th, count := s.count[(l.t.cellJ, l.t.src) := PivotCount(Succs(GraphOf(b), l.t, l.t.owner), l.t.cellJ)])
    else if l.Release? && l.t.op.DLT2D_COMP? && b.own(l.t.cellI, l.t.src) == l.t.owner then
      s.(th := th, live := s.live + {PivotOf(l.t)})
    else s.(th := th)
  }

  /** An update computes the product itself should it be missing, and the one that brings the counter to zero
      deletes it. */
  ghost function AfterUse(s: PState, t: Key): PState {
    var c := GetCount(s.count, PivotOf(t)) - 1;
    s.(count := s.count[PivotOf(t) := c], used := s.used + {t},
       live := if c == 0 then s.live - {PivotOf(t)} else s.live + {PivotOf(t)})
  }

  ghost function PApply(b: Blocks, sys: L.System<Key, Lock>, s: PState, step: PStep): PState
    requires L.Shape(sys, s.th) && PEnabled(b, sys, s, step)
  {
    match step
    case Thread(l) => AfterThread(b, s, L.Apply(sys, s.th, l), l)
    case Use(t) => AfterUse(s, t)
  }

  ghost predicate PRun(b: Blocks, sys: L.System<Key, Lock>, s: PState, steps: seq<PStep>, s': PState)
    decreases |steps|
  {
    if steps == [] then s' == s
    else L.Shape(sys, s.th) && PEnabled(b, sys, s, steps[0]) && PRun(b, sys, PApply(b, sys, s, steps[0]), steps[1..], s')
  }

  ghost function PStart(sys: L.System<Key, Lock>): PState { PState(L.Init(sys), map[], {}, {}) }

  // ---------------------------------------------------------------------------------------------
  // The invariant
  // ---------------------------------------------------------------------------------------------

  ghost predicate Ended(th: L.State<Key, Lock>, t: Key) { t in th.place && L.Passed(th.place[t]) }

  ghost predicate Begun(th: L.State<Key, Lock>, t: Key) { t in th.place && !th.place[t].Waiting? }

  /** The updates of rank r with pivot (J,I) that have used the product. */
  ghost function UsedBy(b: Blocks, used: set<Key>, J: nat, I: nat, r: nat): set<nat> {
    set K | K in Users(b, J, b.anc(I), r) && UpdateKey(b, K, J, I) in used
  }

  /** One more than there are updates when the diagonal update is told twice. */
  function Extra(b: Blocks, J: nat, r: nat): nat { if b.own(J, J) == r then 1 else 0 }

  /** The counter is the number of updates still to come and the extra one; the product exists from the end of
      its DLT task until the counter is zero. */
  ghost predicate ProductInv(b: Blocks, s: PState, J: nat, I: nat) {
    var r := b.own(J, I);
    && (Ended(s.th, TrsmKey(b, J, I)) ==>
          GetCount(s.count, (J, I)) == |Users(b, J, b.anc(I), r)| + Extra(b, J, r) - |UsedBy(b, s.used, J, I, r)|)
    && ((J, I) in s.live <==> Ended(s.th, DltKey(J, I, r)) && GetCount(s.count, (J, I)) > 0)
  }

  /** An update that has used its product has begun, and none ends before. */
  ghost predicate UseInv(b: Blocks, s: PState, t: Key) {
    && (t in s.used ==> Begun(s.th, t))
    && (Ended(s.th, t) && LocalUse(b, t) ==> t in s.used)
  }

  ghost predicate PInv(b: Blocks, r: nat, sys: L.System<Key, Lock>, s: PState) {
    && L.Inv(sys, s.th) && (forall t: Key :: UseInv(b, s, t))
    && forall J: nat, I: nat :: 1 <= I <= b.n && J in b.anc(I) && b.own(J, I) == r ==> ProductInv(b, s, J, I)
  }

  ghost predicate OfRank(b: Blocks, r: nat, sys: L.System<Key, Lock>) {
    && ValidBlocks(b) && FillClosed(b) && b.ldl
    && sys.tasks == RankSystem(b, r, 0, false).tasks && sys.preds == RankSystem(b, r, 0, false).preds && sys.lock == LockOf
  }

  // ---------------------------------------------------------------------------------------------
  // Who comes before whom
  // ---------------------------------------------------------------------------------------------

  /** TRSM before DLT before the updates with that pivot. */
  lemma PivotOrder(b: Blocks, r: nat, sys: L.System<Key, Lock>, th: L.State<Key, Lock>, J: nat, I: nat, K: nat)
    requires OfRank(b, r, sys) && L.Shape(sys, th) && L.OrderInv(sys, th)
    requires 1 <= I <= b.n && J in b.anc(I) && b.own(J, I) == r && K in Users(b, J, b.anc(I), r)
    ensures Begun(th, UpdateKey(b, K, J, I)) ==> Ended(th, DltKey(J, I, r)) && Ended(th, TrsmKey(b, J, I))
    ensures Begun(th, DltKey(J, I, r)) ==> Ended(th, TrsmKey(b, J, I))
  {
    PivotEdge(b, I, J, K);
    if Begun(th, UpdateKey(b, K, J, I)) {
      UpstreamPassed(b, r, sys, th, DltKey(J, I, r), UpdateKey(b, K, J, I));
      UpstreamPassed(b, r, sys, th, TrsmKey(b, J, I), UpdateKey(b, K, J, I));
    }
    if Begun(th, DltKey(J, I, r)) {
      UpstreamPassed(b, r, sys, th, TrsmKey(b, J, I), DltKey(J, I, r));
    }
  }

  /** A DLT task has an update to serve. */
  lemma DltServes(b: Blocks, r: nat, sys: L.System<Key, Lock>, J: nat, I: nat)
    requires OfRank(b, r, sys) && DltKey(J, I, r) in sys.tasks
    ensures exists K :: K in Users(b, J, b.anc(I), r)
  {
    KnownTask(b, r, DltKey(J, I, r));
    var K :| K in b.anc(I) && K >= J && b.own(K, J) == r;
    assert K in Users(b, J, b.anc(I), r);
  }

  // ---------------------------------------------------------------------------------------------
  // Every step keeps the invariant
  // ---------------------------------------------------------------------------------------------

  /** A step of the threads ends a task only by its release, and begins one only when its inputs have arrived. */
  lemma ThreadMoves(sys: L.System<Key, Lock>, th: L.State<Key, Lock>, l: L.Step<Key>, t: Key)
    requires L.LocksOk(sys, th) && L.Enabled(sys, th, l) && L.Shape(sys, L.Apply(sys, th, l))
    ensures Ended(L.Apply(sys, th, l), t) <==> Ended(th, t) || l == L.Release(t)
    ensures Begun(th, t) ==> Begun(L.Apply(sys, th, l), t)
    ensures l == L.Release(t) ==> t in sys.tasks && Begun(th, t) && !Ended(th, t)
  {
    if t in sys.tasks {
      L.StepMoves(sys, th, l, t);
    }
  }

  lemma UseKept(b: Blocks, sys: L.System<Key, Lock>, s: PState, step: PStep, t: Key)
    requires L.Inv(sys, s.th) && PEnabled(b, sys, s, step) && UseInv(b, s, t)
    requires step.Thread? ==> L.Shape(sys, L.Apply(sys, s.th, step.step))
    ensures UseInv(b, PApply(b, sys, s, step), t)
  {
    if step.Thread? {
      ThreadMoves(sys, s.th, step.step, t);
    }
  }

  /** Which release changes the counter or the product of cell (J,I). */
  lemma ReleaseOf(b: Blocks, r: nat, sys: L.System<Key, Lock>, t: Key, J: nat, I: nat)
    requires OfRank(b, r, sys) && t in sys.tasks && b.own(J, I) == r
    ensures t.op.TRSM? && (t.cellJ, t.src) == (J, I) ==> t == TrsmKey(b, J, I)
    ensures t.op.DLT2D_COMP? && PivotOf(t) == (J, I) ==> t == DltKey(J, I, r)
  {
    KnownTask(b, r, t);
  }

  lemma NobodyUsed(b: Blocks, r: nat, sys: L.System<Key, Lock>, s: PState, J: nat, I: nat)
    requires OfRank(b, r, sys) && L.Shape(sys, s.th) && L.OrderInv(sys, s.th) && forall t: Key :: UseInv(b, s, t)
    requires 1 <= I <= b.n && J in b.anc(I) && b.own(J, I) == r && !Ended(s.th, DltKey(J, I, r))
    ensures UsedBy(b, s.used, J, I, r) == {}
  {
    forall K | K in UsedBy(b, s.used, J, I, r)
      ensures false
    {
      assert UseInv(b, s, UpdateKey(b, K, J, I));
      PivotOrder(b, r, sys, s.th, J, I, K);
    }
  }

  /** The end of the DLT task comes after that of the TRSM task. */
  lemma DltAfterTrsm(b: Blocks, r: nat, sys: L.System<Key, Lock>, th: L.State<Key, Lock>, J: nat, I: nat)
    requires OfRank(b, r, sys) && L.Shape(sys, th) && L.OrderInv(sys, th)
    requires 1 <= I <= b.n && J in b.anc(I) && b.own(J, I) == r
    ensures Begun(th, DltKey(J, I, r)) ==> Ended(th, TrsmKey(b, J, I))
  {
    if Begun(th, DltKey(J, I, r)) {
      DltServes(b, r, sys, J, I);
      var K :| K in Users(b, J, b.anc(I), r);
      PivotOrder(b, r, sys, th, J, I, K);
    }
  }

  ghost predicate Ready(b: Blocks, r: nat, sys: L.System<Key, Lock>, s: PState, J: nat, I: nat) {
    && OfRank(b, r, sys) && L.Shape(sys, s.th) && L.OrderInv(sys, s.th) && (forall t: Key :: UseInv(b, s, t))
    && 1 <= I <= b.n && J in b.anc(I) && b.own(J, I) == r && ProductInv(b, s, J, I)
  }

  lemma TrsmEnds(b: Blocks, r: nat, sys: L.System<Key, Lock>, s: PState, s': PState, J: nat, I: nat)
    requires Ready(b, r, sys, s, J, I) && !Ended(s.th, TrsmKey(b, J, I))
    requires s'.used == s.used && s'.live == s.live && (Ended(s'.th, DltKey(J, I, r)) <==> Ended(s.th, DltKey(J, I, r)))
    requires s'.count == s.count[(J, I) := PivotCount(Succs(GraphOf(b), TrsmKey(b, J, I), r), J)]
    ensures ProductInv(b, s', J, I)
  {
    DltAfterTrsm(b, r, sys, s.th, J, I);
    NobodyUsed(b, r, sys, s, J, I);
    StartCount(b, J, I, r);
  }

  lemma DltEnds(b: Blocks, r: nat, sys: L.System<Key, Lock>, s: PState, s': PState, J: nat, I: nat)
    requires Ready(b, r, sys, s, J, I) && Begun(s.th, DltKey(J, I, r)) && !Ended(s.th, DltKey(J, I, r))
    requires s'.used == s.used && s'.live == s.live + {(J, I)} && s'.count == s.count
    requires Ended(s'.th, DltKey(J, I, r)) && (Ended(s'.th, TrsmKey(b, J, I)) <==> Ended(s.th, TrsmKey(b, J, I)))
    ensures ProductInv(b, s', J, I)
  {
    DltAfterTrsm(b, r, sys, s.th, J, I);
    NobodyUsed(b, r, sys, s, J, I);
    DltServes(b, r, sys, J, I);
  }

  /** What the step does to the TRSM and the DLT task of the cell. */
  ghost predicate Follows(b: Blocks, th: L.State<Key, Lock>, th': L.State<Key, Lock>, l: L.Step<Key>, t: Key) {
    && (Ended(th', t) <==> Ended(th, t) || l == L.Release(t))
    && (l == L.Release(t) ==> Begun(th, t) && !Ended(th, t))
  }

  lemma ThreadProduct(b: Blocks, r: nat, sys: L.System<Key, Lock>, s: PState, th: L.State<Key, Lock>, l: L.Step<Key>, J: nat, I: nat)
    requires Ready(b, r, sys, s, J, I) && (l.Release? ==> l.t in sys.tasks)
    requires Follows(b, s.th, th, l, TrsmKey(b, J, I)) && Follows(b, s.th, th, l, DltKey(J, I, r))
    ensures ProductInv(b, AfterThread(b, s, th, l), J, I)
  {
    if l == L.Release(TrsmKey(b, J, I)) {
      TrsmEnds(b, r, sys, s, AfterThread(b, s, th, l), J, I);
    } else if l == L.Release(DltKey(J, I, r)) {
      DltEnds(b, r, sys, s, AfterThread(b, s, th, l), J, I);
    } else {
      OtherEnds(b, r, sys, s, th, l, J, I);
    }
  }

  lemma OtherEnds(b: Blocks, r: nat, sys: L.System<Key, Lock>, s: PState, th: L.State<Key, Lock>, l: L.Step<Key>, J: nat, I: nat)
    requires OfRank(b, r, sys) && b.own(J, I) == r && ProductInv(b, s, J, I) && (l.Release? ==> l.t in sys.tasks)
    requires Ended(th, TrsmKey(b, J, I)) <==> Ended(s.th, TrsmKey(b, J, I))
    requires Ended(th, DltKey(J, I, r)) <==> Ended(s.th, DltKey(J, I, r))
    requires l != L.Release(TrsmKey(b, J, I)) && l != L.Release(DltKey(J, I, r))
    ensures ProductInv(b, AfterThread(b, s, th, l), J, I)
  {
    if l.Release? {
      ReleaseOf(b, r, sys, l.t, J, I);
    }
    OtherProduct(b, s, AfterThread(b, s, th, l), J, I);
  }

  lemma ThreadStep(b: Blocks, r: nat, sys: L.System<Key, Lock>, s: PState, l: L.Step<Key>, J: nat, I: nat)
    requires Ready(b, r, sys, s, J, I) && L.LocksOk(sys, s.th) && PEnabled(b, sys, s, Thread(l)) && L.Shape(sys, L.Apply(sys, s.th, l))
    ensures ProductInv(b, PApply(b, sys, s, Thread(l)), J, I)
  {
    ThreadMoves(sys, s.th, l, TrsmKey(b, J, I));
    ThreadMoves(sys, s.th, l, DltKey(J, I, r));
    ThreadProduct(b, r, sys, s, L.Apply(sys, s.th, l), l, J, I);
  }

  lemma OtherProduct(b: Blocks, s: PState, s': PState, J: nat, I: nat)
    requires ProductInv(b, s, J, I) && UsedBy(b, s'.used, J, I, b.own(J, I)) == UsedBy(b, s.used, J, I, b.own(J, I))
    requires GetCount(s'.count, (J, I)) == GetCount(s.count, (J, I)) && ((J, I) in s'.live <==> (J, I) in s.live)
    requires Ended(s'.th, TrsmKey(b, J, I)) <==> Ended(s.th, TrsmKey(b, J, I))
    requires Ended(s'.th, DltKey(J, I, b.own(J, I))) <==> Ended(s.th, DltKey(J, I, b.own(J, I)))
    ensures ProductInv(b, s', J, I)
  {
  }

  lemma SmallerSet(a: set<nat>, c: set<nat>, x: nat)
    requires a <= c && x in c && x !in a
    ensures |a| < |c| && |a + {x}| == |a| + 1
  {
    SubsetSize(a, c - {x});
  }

  lemma {:induction false} SubsetSize(a: set<nat>, c: set<nat>)
    requires a <= c
    ensures |a| <= |c| && (|a| == |c| ==> a == c)
    decreases c
  {
    if x :| x in c && x !in a {
      SubsetSize(a, c - {x});
    } else {
      assert a == c;
    }
  }

  /** A running update whose turn is still to come finds the counter positive and the product there. */
  lemma ProductThere(b: Blocks, r: nat, sys: L.System<Key, Lock>, s: PState, t: Key)
    requires OfRank(b, r, sys) && L.Shape(sys, s.th) && L.OrderInv(sys, s.th)
    requires t in sys.tasks && LocalUse(b, t) && Begun(s.th, t) && t !in s.used && ProductInv(b, s, t.cellI, t.src)
    ensures t.cellJ in Users(b, t.cellI, b.anc(t.src), r) && t.cellJ !in UsedBy(b, s.used, t.cellI, t.src, r)
    ensures b.own(t.cellI, t.src) == r && 1 <= t.src <= b.n && t.cellI in b.anc(t.src) && t == UpdateKey(b, t.cellJ, t.cellI, t.src)
    ensures Ended(s.th, TrsmKey(b, t.cellI, t.src)) && Ended(s.th, DltKey(t.cellI, t.src, r))
    ensures GetCount(s.count, PivotOf(t)) > 0 && PivotOf(t) in s.live
  {
    KnownTask(b, r, t);
    PivotOrder(b, r, sys, s.th, t.cellI, t.src, t.cellJ);
    SmallerSet(UsedBy(b, s.used, t.cellI, t.src, r), Users(b, t.cellI, b.anc(t.src), r), t.cellJ);
  }

  lemma UseSame(b: Blocks, s: PState, t: Key, J: nat, I: nat)
    requires ProductInv(b, s, J, I) && PivotOf(t) == (J, I) && t == UpdateKey(b, t.cellJ, J, I)
    requires var r := b.own(J, I);
             && Ended(s.th, TrsmKey(b, J, I)) && Ended(s.th, DltKey(J, I, r)) && GetCount(s.count, (J, I)) > 0
             && t.cellJ in Users(b, J, b.anc(I), r) && t.cellJ !in UsedBy(b, s.used, J, I, r)
    ensures ProductInv(b, AfterUse(s, t), J, I)
  {
    var r := b.own(J, I);
    assert UsedBy(b, AfterUse(s, t).used, J, I, r) == UsedBy(b, s.used, J, I, r) + {t.cellJ};
    SmallerSet(UsedBy(b, s.used, J, I, r), Users(b, J, b.anc(I), r), t.cellJ);
  }

  lemma UseOther(b: Blocks, s: PState, t: Key, J: nat, I: nat)
    requires ProductInv(b, s, J, I) && PivotOf(t) != (J, I) && t.op.UPDATE2D_COMP?
    ensures ProductInv(b, AfterUse(s, t), J, I)
  {
    assert UsedBy(b, AfterUse(s, t).used, J, I, b.own(J, I)) == UsedBy(b, s.used, J, I, b.own(J, I));
    OtherProduct(b, s, AfterUse(s, t), J, I);
  }

  lemma UseProduct(b: Blocks, r: nat, sys: L.System<Key, Lock>, s: PState, t: Key, J: nat, I: nat)
    requires Ready(b, r, sys, s, J, I) && PEnabled(b, sys, s, Use(t)) && ProductInv(b, s, t.cellI, t.src)
    ensures ProductInv(b, PApply(b, sys, s, Use(t)), J, I)
  {
    if PivotOf(t) == (J, I) {
      ProductThere(b, r, sys, s, t);
      UseSame(b, s, t, J, I);
    } else {
      UseOther(b, s, t, J, I);
    }
  }

  lemma OwnPivot(b: Blocks, r: nat, sys: L.System<Key, Lock>, t: Key)
    requires OfRank(b, r, sys) && t in sys.tasks && LocalUse(b, t)
    ensures b.own(t.cellI, t.src) == r && 1 <= t.src <= b.n && t.cellI in b.anc(t.src)
  {
    KnownTask(b, r, t);
  }

  lemma ThreadKeepsUses(b: Blocks, sys: L.System<Key, Lock>, s: PState, l: L.Step<Key>)
    requires L.Inv(sys, s.th) && (forall t: Key :: UseInv(b, s, t)) && PEnabled(b, sys, s, Thread(l)) && L.Shape(sys, L.Apply(sys, s.th, l))
    ensures forall t: Key :: UseInv(b, PApply(b, sys, s, Thread(l)), t)
  {
    forall t: Key
      ensures UseInv(b, PApply(b, sys, s, Thread(l)), t)
    {
      UseKept(b, sys, s, Thread(l), t);
    }
  }

  lemma ThreadKeepsProducts(b: Blocks, r: nat, sys: L.System<Key, Lock>, s: PState, l: L.Step<Key>)
    requires OfRank(b, r, sys) && PInv(b, r, sys, s) && PEnabled(b, sys, s, Thread(l)) && L.Shape(sys, L.Apply(sys, s.th, l))
    ensures forall J: nat, I: nat :: 1 <= I <= b.n && J in b.anc(I) && b.own(J, I) == r ==> ProductInv(b, PApply(b, sys, s, Thread(l)), J, I)
  {
    forall J: nat, I: nat | 1 <= I <= b.n && J in b.anc(I) && b.own(J, I) == r
      ensures ProductInv(b, PApply(b, sys, s, Thread(l)), J, I)
    {
      ThreadStep(b, r, sys, s, l, J, I);
    }
  }

  lemma UseKeepsProducts(b: Blocks, r: nat, sys: L.System<Key, Lock>, s: PState, u: Key)
    requires OfRank(b, r, sys) && PInv(b, r, sys, s) && PEnabled(b, sys, s, Use(u))
    ensures PInv(b, r, sys, PApply(b, sys, s, Use(u)))
  {
    OwnPivot(b, r, sys, u);
    forall t: Key
      ensures UseInv(b, PApply(b, sys, s, Use(u)), t)
    {
      UseKept(b, sys, s, Use(u), t);
    }
    forall J: nat, I: nat | 1 <= I <= b.n && J in b.anc(I) && b.own(J, I) == r
      ensures ProductInv(b, PApply(b, sys, s, Use(u)), J, I)
    {
      UseProduct(b, r, sys, s, u, J, I);
    }
  }

  lemma StepKeepsProducts(b: Blocks, r: nat, sys: L.System<Key, Lock>, s: PState, step: PStep)
    requires OfRank(b, r, sys) && PInv(b, r, sys, s) && PEnabled(b, sys, s, step)
    ensures PInv(b, r, sys, PApply(b, sys, s, step))
  {
    match step
    case Thread(l) =>
      L.StepKeepsInv(sys, s.th, l);
      ThreadKeepsUses(b, sys, s, l);
      ThreadKeepsProducts(b, r, sys, s, l);
    case Use(t) => UseKeepsProducts(b, r, sys, s, t);
  }

  lemma StartProducts(b: Blocks, r: nat, sys: L.System<Key, Lock>)
    requires OfRank(b, r, sys)
    ensures PInv(b, r, sys, PStart(sys))
  {
    L.InitInv(sys);
  }

  lemma {:induction false} RunKeepsProducts(b: Blocks, r: nat, sys: L.System<Key, Lock>, s: PState, steps: seq<PStep>, s': PState)
    requires OfRank(b, r, sys) && PInv(b, r, sys, s) && PRun(b, sys, s, steps, s')
    ensures PInv(b, r, sys, s')
    decreases |steps|
  {
    if steps != [] {
      StepKeepsProducts(b, r, sys, s, steps[0]);
      RunKeepsProducts(b, r, sys, PApply(b, sys, s, steps[0]), steps[1..], s');
    }
  }

  // ---------------------------------------------------------------------------------------------
  // Products in every run
  // ---------------------------------------------------------------------------------------------

  /** A product is gone exactly when its updates have all used it and the diagonal update is not among them. */
  lemma GoneIff(b: Blocks, s: PState, J: nat, I: nat)
    requires var r := b.own(J, I);
             ProductInv(b, s, J, I) && Ended(s.th, TrsmKey(b, J, I)) && Ended(s.th, DltKey(J, I, r))
    ensures var r := b.own(J, I);
            (J, I) !in s.live <==> b.own(J, J) != r && forall K <- Users(b, J, b.anc(I), r) :: UpdateKey(b, K, J, I) in s.used
  {
    var r := b.own(J, I);
    SubsetSize(UsedBy(b, s.used, J, I, r), Users(b, J, b.anc(I), r));
    assert UsedBy(b, s.used, J, I, r) == Users(b, J, b.anc(I), r) <==> forall K <- Users(b, J, b.anc(I), r) :: UpdateKey(b, K, J, I) in s.used;
  }

  /** Every run of the threads of a rank on LDL': a running update finds the product of its pivot; the product of a
      cell is deleted only after every update of the rank with that pivot has used it, and then exactly if the
      rank does not own the diagonal cell of the row; so at the end the products that were never deleted are
      those of the cells that are with the diagonal cell of their row.  A DLT task that has not ended finds the
      counter positive and no product. */
  lemma ProductsInEveryRun(b: Blocks, r: nat, workers: nat, recheck: bool, steps: seq<PStep>, s: PState)
    requires ValidBlocks(b) && FillClosed(b) && b.ldl
    requires PRun(b, RankSystem(b, r, workers, recheck), PStart(RankSystem(b, r, workers, recheck)), steps, s)
    ensures forall t :: t in s.th.place && s.th.place[t].Running? && LocalUse(b, t) && t !in s.used ==>
              PivotOf(t) in s.live && GetCount(s.count, PivotOf(t)) > 0
    ensures forall J: nat, I: nat :: 1 <= I <= b.n && J in b.anc(I) && b.own(J, I) == r && Begun(s.th, DltKey(J, I, r)) ==>
              Ended(s.th, DltKey(J, I, r)) || (GetCount(s.count, (J, I)) > 0 && (J, I) !in s.live)
    ensures forall J: nat, I: nat :: 1 <= I <= b.n && J in b.anc(I) && b.own(J, I) == r && Ended(s.th, DltKey(J, I, r)) ==>
              ((J, I) !in s.live <==> b.own(J, J) != r && forall K <- Users(b, J, b.anc(I), r) :: UpdateKey(b, K, J, I) in s.used)
    ensures (forall t <- s.th.place.Keys :: s.th.place[t].Finished?) ==>
              forall J: nat, I: nat :: 1 <= I <= b.n && J in b.anc(I) && b.own(J, I) == r ==> ((J, I) in s.live <==> b.own(J, J) == r)
  {
    var sys := RankSystem(b, r, workers, recheck);
    StartProducts(b, r, sys);
    RunKeepsProducts(b, r, sys, PStart(sys), steps, s);
    forall t | t in s.th.place && s.th.place[t].Running? && LocalUse(b, t) && t !in s.used
      ensures PivotOf(t) in s.live && GetCount(s.count, PivotOf(t)) > 0
    {
      OwnPivot(b, r, sys, t);
      ProductThere(b, r, sys, s, t);
    }
    forall J: nat, I: nat | 1 <= I <= b.n && J in b.anc(I) && b.own(J, I) == r
      ensures Ended(s.th, DltKey(J, I, r)) ==>
                ((J, I) !in s.live <==> b.own(J, J) != r && forall K <- Users(b, J, b.anc(I), r) :: UpdateKey(b, K, J, I) in s.used)
      ensures (forall t <- s.th.place.Keys :: s.th.place[t].Finished?) ==> ((J, I) in s.live <==> b.own(J, J) == r)
      ensures Begun(s.th, DltKey(J, I, r)) ==> Ended(s.th, DltKey(J, I, r)) || (GetCount(s.count, (J, I)) > 0 && (J, I) !in s.live)
    {
      DltFinds(b, r, sys, s, J, I);
      ProductFate(b, r, sys, s, J, I);
    }
  }

  lemma DltFinds(b: Blocks, r: nat, sys: L.System<Key, Lock>, s: PState, J: nat, I: nat)
    requires Ready(b, r, sys, s, J, I)
    ensures Begun(s.th, DltKey(J, I, r)) ==> Ended(s.th, DltKey(J, I, r)) || (GetCount(s.count, (J, I)) > 0 && (J, I) !in s.live)
  {
    if Begun(s.th, DltKey(J, I, r)) && !Ended(s.th, DltKey(J, I, r)) {
      DltAfterTrsm(b, r, sys, s.th, J, I);
      NobodyUsed(b, r, sys, s, J, I);
      DltServes(b, r, sys, J, I);
    }
  }

  lemma ProductFate(b: Blocks, r: nat, sys: L.System<Key, Lock>, s: PState, J: nat, I: nat)
    requires Ready(b, r, sys, s, J, I)
    ensures Ended(s.th, DltKey(J, I, r)) ==>
              ((J, I) !in s.live <==> b.own(J, J) != r && forall K <- Users(b, J, b.anc(I), r) :: UpdateKey(b, K, J, I) in s.used)
    ensures (forall t <- s.th.place.Keys :: s.th.place[t].Finished?) ==> ((J, I) in s.live <==> b.own(J, J) == r)
  {
    DltAfterTrsm(b, r, sys, s.th, J, I);
    if Ended(s.th, DltKey(J, I, r)) {
      GoneIff(b, s, J, I);
    }
    AtTheEnd(b, r, sys, s, J, I);
  }

  lemma AtTheEnd(b: Blocks, r: nat, sys: L.System<Key, Lock>, s: PState, J: nat, I: nat)
    requires Ready(b, r, sys, s, J, I)
    requires Ended(s.th, DltKey(J, I, r)) ==>
               ((J, I) !in s.live <==> b.own(J, J) != r && forall K <- Users(b, J, b.anc(I), r) :: UpdateKey(b, K, J, I) in s.used)
    ensures (forall t <- s.th.place.Keys :: s.th.place[t].Finished?) ==> ((J, I) in s.live <==> b.own(J, J) == r)
  {
    if forall t <- s.th.place.Keys :: s.th.place[t].Finished? {
      forall K | K in Users(b, J, b.anc(I), r)
        ensures UpdateKey(b, K, J, I) in s.used && Ended(s.th, DltKey(J, I, r))
      {
        TaskMembers(b, UpdateKey(b, K, J, I));
        TaskMembers(b, DltKey(J, I, r));
        assert UseInv(b, s, UpdateKey(b, K, J, I));
      }
      if b.own(J, J) == r {
        assert J in Users(b, J, b.anc(I), r);
      }
    }
  }
}
