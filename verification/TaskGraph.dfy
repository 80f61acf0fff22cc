/** Construction of the factorization task graph.

    Every rank walks over its own supernodes and produces two streams, tasks to create and dependency
    messages, which an all-to-all exchange delivers to the ranks they concern.  The receiver of a message
    looks tasks up in sorted key indices, counts one more local or remote input for a task, or pushes a
    target onto the out-list of a task.  Rows of the matrix only serve to name supernodes here, so every
    row in a message is replaced by its supernode. */
module TaskGraph {
  import opened TaskProtocol

  // Declared in the order of the enumeration in Task.hpp.
  datatype Op = FACTOR | TRSM | UPDATE2D_COMP | DLT2D_COMP

  function OpRank(op: Op): nat {
    match op case FACTOR => 2 case TRSM => 3 case UPDATE2D_COMP => 6 case DLT2D_COMP => 29
  }

  datatype Key = Key(cellJ: nat, cellI: nat, src: nat, op: Op, owner: nat)

  /** The comparison of the key indices: source, then cell I, cell J, owner and type. */
  predicate KeyLess(a: Key, b: Key) {
    if a.src != b.src then a.src < b.src
    else if a.cellI != b.cellI then a.cellI < b.cellI
    else if a.cellJ != b.cellJ then a.cellJ < b.cellJ
    else if a.owner != b.owner then a.owner < b.owner
    else OpRank(a.op) < OpRank(b.op)
  }

  /** The supernodal block structure: supernodes 1..n, the supernodes below the diagonal block of each
      column in increasing order, and the rank that owns each cell. */
  datatype Blocks = Blocks(n: nat, anc: nat -> seq<nat>, own: (nat, nat) -> nat, np: nat, ldl: bool)

  ghost predicate Increasing(xs: seq<nat>) {
    forall i, j :: 0 <= i < j < |xs| ==> xs[i] < xs[j]
  }

  ghost predicate ValidBlocks(b: Blocks) {
    && (forall I :: 1 <= I <= b.n ==> Increasing(b.anc(I)) && forall J <- b.anc(I) :: I < J <= b.n)
    && (forall i, j :: b.own(i, j) < b.np)
  }

  /** The structure of a factor: two supernodes that meet in a column have a common cell. */
  ghost predicate FillClosed(b: Blocks) {
    forall I, J, K :: 1 <= I <= b.n && J in b.anc(I) && K in b.anc(I) && J < K ==> K in b.anc(J)
  }

  function FactorKey(b: Blocks, I: nat): Key { Key(I, I, I, FACTOR, b.own(I, I)) }
  function TrsmKey(b: Blocks, J: nat, I: nat): Key { Key(J, I, I, TRSM, b.own(J, I)) }
  function UpdateKey(b: Blocks, K: nat, J: nat, I: nat): Key { Key(K, J, I, UPDATE2D_COMP, b.own(K, J)) }
  function DltKey(J: nat, I: nat, r: nat): Key { Key(J, J, I, DLT2D_COMP, r) }

  // ---------------------------------------------------------------------------------------------
  // The two streams
  // ---------------------------------------------------------------------------------------------

  datatype Kind =
    | TRSM_SEND | TRSM_RECV
    | UPDATE2D_SEND_OD | UPDATE2D_RECV_OD
    | UPDATE2D_SEND | UPDATE2D_RECV
    | UPDATE2D_DIAG_SEND | UPDATE2D_DIAG_RECV
    | AGGREGATE2D_SEND | AGGREGATE2D_RECV

  datatype Msg = Msg(dest: nat, src: nat, tgt: nat, kind: Kind, lt: nat, facing: nat)

  /** The first inner loop: how cell (J,I) takes part in the updates with cell (K,I). */
  function PairMsgs(b: Blocks, I: nat, J: nat, K: nat): seq<Msg> {
    (if K >= J then
       [Msg(b.own(J, I), I, J, UPDATE2D_SEND_OD, K, J), Msg(b.own(K, J), I, J, UPDATE2D_RECV_OD, K, J)]
     else []) +
    (if K <= J then
       [Msg(b.own(J, I), I, K, UPDATE2D_SEND, K, J), Msg(b.own(J, K), I, K, UPDATE2D_RECV, K, J)] +
       (if b.ldl then
          [Msg(b.own(I, I), I, K, UPDATE2D_DIAG_SEND, K, J), Msg(b.own(J, K), I, K, UPDATE2D_DIAG_RECV, K, J)]
        else [])
     else [])
  }

  /** The second inner loop: the update of cell (K,J) feeds the task that finishes that cell. */
  function AggMsgs(b: Blocks, I: nat, J: nat, K: nat): seq<Msg> {
    if K >= J then
      [Msg(b.own(K, J), I, J, AGGREGATE2D_SEND, J, K), Msg(b.own(K, J), I, J, AGGREGATE2D_RECV, J, K)]
    else []
  }

  function PairLoop(b: Blocks, I: nat, J: nat, Ks: seq<nat>): seq<Msg> {
    if Ks == [] then [] else PairMsgs(b, I, J, Ks[0]) + PairLoop(b, I, J, Ks[1..])
  }

  function AggLoop(b: Blocks, I: nat, J: nat, Ks: seq<nat>): seq<Msg> {
    if Ks == [] then [] else AggMsgs(b, I, J, Ks[0]) + AggLoop(b, I, J, Ks[1..])
  }

  function RowMsgs(b: Blocks, I: nat, J: nat): seq<Msg> {
    [Msg(b.own(I, I), I, I, TRSM_SEND, J, J), Msg(b.own(J, I), I, I, TRSM_RECV, J, J)]
    + PairLoop(b, I, J, b.anc(I)) + AggLoop(b, I, J, b.anc(I))
  }

  function RowLoop(b: Blocks, I: nat, Js: seq<nat>): seq<Msg> {
    if Js == [] then [] else RowMsgs(b, I, Js[0]) + RowLoop(b, I, Js[1..])
  }

  /** The messages of supernodes lo..hi-1, in the order in which they are produced. */
  function Msgs(b: Blocks, lo: nat, hi: nat): seq<Msg>
    decreases hi - lo
  {
    if lo >= hi then [] else RowLoop(b, lo, b.anc(lo)) + Msgs(b, lo + 1, hi)
  }

  function AllMsgs(b: Blocks): seq<Msg> { Msgs(b, 1, b.n + 1) }

  function ForRank(ms: seq<Msg>, r: nat): seq<Msg> {
    if ms == [] then [] else (if ms[0].dest == r then [ms[0]] else []) + ForRank(ms[1..], r)
  }

  /** The tasks of one row: `sent` are the ranks that already have a DLT task for cell (J,I). */
  function UpdateLoop(b: Blocks, I: nat, J: nat, Ks: seq<nat>, sent: set<nat>): seq<Key> {
    if Ks == [] then []
    else if Ks[0] < J then UpdateLoop(b, I, J, Ks[1..], sent)
    else
      var r := b.own(Ks[0], J);
      [UpdateKey(b, Ks[0], J, I)]
      + (if b.ldl && r !in sent then [DltKey(J, I, r)] else [])
      + UpdateLoop(b, I, J, Ks[1..], sent + {r})
  }

  function TaskRowLoop(b: Blocks, I: nat, Js: seq<nat>): seq<Key> {
    if Js == [] then []
    else [TrsmKey(b, Js[0], I)] + UpdateLoop(b, I, Js[0], b.anc(I), {}) + TaskRowLoop(b, I, Js[1..])
  }

  function Tasks(b: Blocks, lo: nat, hi: nat): seq<Key>
    decreases hi - lo
  {
    if lo >= hi then [] else [FactorKey(b, lo)] + TaskRowLoop(b, lo, b.anc(lo)) + Tasks(b, lo + 1, hi)
  }

  function AllTasks(b: Blocks): seq<Key> { Tasks(b, 1, b.n + 1) }

  // ---------------------------------------------------------------------------------------------
  // What the receiver of a message does
  // ---------------------------------------------------------------------------------------------

  /** The pushes onto out_dependencies, as pairs of the task and the target pushed. */
  function Pushes(b: Blocks, m: Msg): seq<(Key, Key)> {
    var I := m.src;
    match m.kind
    case UPDATE2D_DIAG_SEND =>
      var J, K := m.facing, m.tgt;
      [(Key(I, I, I, FACTOR, m.dest), DltKey(K, I, b.own(J, K)))]
    case UPDATE2D_DIAG_RECV =>
      var J, K := m.facing, m.tgt;
      [(DltKey(K, I, m.dest), Key(J, K, I, UPDATE2D_COMP, m.dest))]
    case TRSM_SEND =>
      var J := m.facing;
      [(Key(I, I, I, FACTOR, m.dest), TrsmKey(b, J, I))]
    case AGGREGATE2D_SEND =>
      var J, K := m.tgt, m.facing;
      [(Key(K, J, I, UPDATE2D_COMP, m.dest), if K == J then FactorKey(b, J) else TrsmKey(b, K, J))]
    case UPDATE2D_SEND =>
      var J, K := m.facing, m.tgt;
      [(Key(J, I, I, TRSM, m.dest), UpdateKey(b, J, K, I))]
    case UPDATE2D_SEND_OD =>
      var J, K := m.tgt, m.lt;
      [(Key(J, I, I, TRSM, m.dest), UpdateKey(b, K, J, I))]
      + (if b.ldl then [(Key(J, I, I, TRSM, m.dest), DltKey(J, I, b.own(K, J)))] else [])
    case UPDATE2D_RECV_OD =>
      var J, K := m.tgt, m.lt;
      if b.ldl then [(DltKey(J, I, m.dest), Key(K, J, I, UPDATE2D_COMP, m.dest))] else []
    case _ => []
  }

  /** The increments of the dependency counts, as pairs of the task and whether the input is remote. */
  function Counts(b: Blocks, m: Msg): seq<(Key, bool)> {
    var I := m.src;
    match m.kind
    case UPDATE2D_DIAG_RECV =>
      var J, K := m.facing, m.tgt;
      var remote := b.own(I, I) != b.own(J, K);
      if b.ldl then [(DltKey(K, I, m.dest), remote), (Key(J, K, I, UPDATE2D_COMP, m.dest), false)]
      else [(Key(J, K, I, UPDATE2D_COMP, m.dest), remote)]
    case TRSM_RECV =>
      var J := m.facing;
      [(Key(J, I, I, TRSM, m.dest), b.own(J, I) != b.own(I, I))]
    case AGGREGATE2D_RECV =>
      var J, K := m.tgt, m.facing;
      [(if K == J then Key(J, J, J, FACTOR, m.dest) else Key(K, J, J, TRSM, m.dest), false)]
    case UPDATE2D_RECV =>
      var J, K := m.facing, m.tgt;
      [(Key(J, K, I, UPDATE2D_COMP, m.dest), b.own(J, I) != b.own(J, K))]
    case UPDATE2D_RECV_OD =>
      var J, K := m.tgt, m.lt;
      var remote := b.own(J, I) != b.own(K, J);
      [(Key(K, J, I, UPDATE2D_COMP, m.dest), remote)]
      + (if b.ldl then [(DltKey(J, I, m.dest), remote), (Key(K, J, I, UPDATE2D_COMP, m.dest), false)] else [])
    case _ => []
  }

  function AllPushes(b: Blocks, ms: seq<Msg>): seq<(Key, Key)> {
    if ms == [] then [] else Pushes(b, ms[0]) + AllPushes(b, ms[1..])
  }

  function AllCounts(b: Blocks, ms: seq<Msg>): seq<(Key, bool)> {
    if ms == [] then [] else Counts(b, ms[0]) + AllCounts(b, ms[1..])
  }

  function Tally(cs: seq<(Key, bool)>, t: Key, remote: bool): nat {
    if cs == [] then 0 else (if cs[0] == (t, remote) then 1 else 0) + Tally(cs[1..], t, remote)
  }

  // ---------------------------------------------------------------------------------------------
  // Double entry: what the receiving side counts is what the sending side pushes
  // ---------------------------------------------------------------------------------------------

  function GraphOf(b: Blocks): Graph<Key> {
    Graph((set k | k in AllTasks(b)), AllPushes(b, AllMsgs(b)), (k: Key) => k.owner,
          (s: Key, t: Key) => s.op.FACTOR? && t.op.DLT2D_COMP?, b.np)
  }

  ghost predicate BalancedFor(b: Blocks, ms: seq<Msg>, t: Key) {
    && |In(GraphOf(b), AllPushes(b, ms), t, true)| == Tally(AllCounts(b, ms), t, false)
    && |In(GraphOf(b), AllPushes(b, ms), t, false)| == Tally(AllCounts(b, ms), t, true)
  }

  lemma {:induction false} InAppend(g: Graph<Key>, xs: seq<(Key, Key)>, ys: seq<(Key, Key)>, t: Key, local: bool)
    ensures In(g, xs + ys, t, local) == In(g, xs, t, local) + In(g, ys, t, local)
  {
    if xs == [] {
      assert xs + ys == ys;
    } else {
      InAppend(g, xs[1..], ys, t, local);
      assert (xs + ys)[1..] == xs[1..] + ys && (xs + ys)[0] == xs[0];
      var mine := if xs[0].1 == t && (g.owner(xs[0].0) == g.owner(t)) == local then [xs[0].0] else [];
      assert In(g, xs, t, local) == mine + In(g, xs[1..], t, local);
      Associative(mine, In(g, xs[1..], t, local), In(g, ys, t, local));
    }
  }

  lemma {:induction false} TallyAppend(xs: seq<(Key, bool)>, ys: seq<(Key, bool)>, t: Key, remote: bool)
    ensures Tally(xs + ys, t, remote) == Tally(xs, t, remote) + Tally(ys, t, remote)
  {
    if xs == [] {
      assert xs + ys == ys;
    } else {
      TallyAppend(xs[1..], ys, t, remote);
      assert (xs + ys)[1..] == xs[1..] + ys;
    }
  }

  lemma Associative<A>(x: seq<A>, y: seq<A>, z: seq<A>)
    ensures x + (y + z) == x + y + z
  {
  }

  lemma {:induction false} PushesAppend(b: Blocks, xs: seq<Msg>, ys: seq<Msg>)
    ensures AllPushes(b, xs + ys) == AllPushes(b, xs) + AllPushes(b, ys)
  {
    if xs == [] {
      assert xs + ys == ys;
    } else {
      PushesAppend(b, xs[1..], ys);
      assert (xs + ys)[1..] == xs[1..] + ys;
      Associative(Pushes(b, xs[0]), AllPushes(b, xs[1..]), AllPushes(b, ys));
    }
  }

  lemma {:induction false} CountsAppend(b: Blocks, xs: seq<Msg>, ys: seq<Msg>)
    ensures AllCounts(b, xs + ys) == AllCounts(b, xs) + AllCounts(b, ys)
  {
    if xs == [] {
      assert xs + ys == ys;
    } else {
      CountsAppend(b, xs[1..], ys);
      assert (xs + ys)[1..] == xs[1..] + ys;
      Associative(Counts(b, xs[0]), AllCounts(b, xs[1..]), AllCounts(b, ys));
    }
  }

  lemma BalancedAppend(b: Blocks, xs: seq<Msg>, ys: seq<Msg>, t: Key)
    requires BalancedFor(b, xs, t) && BalancedFor(b, ys, t)
    ensures BalancedFor(b, xs + ys, t)
  {
    PushesAppend(b, xs, ys);
    CountsAppend(b, xs, ys);
    InAppend(GraphOf(b), AllPushes(b, xs), AllPushes(b, ys), t, true);
    InAppend(GraphOf(b), AllPushes(b, xs), AllPushes(b, ys), t, false);
    TallyAppend(AllCounts(b, xs), AllCounts(b, ys), t, true);
    TallyAppend(AllCounts(b, xs), AllCounts(b, ys), t, false);
  }

  lemma TwoMessages(b: Blocks, x: Msg, y: Msg)
    ensures AllPushes(b, [x, y]) == Pushes(b, x) + Pushes(b, y)
    ensures AllCounts(b, [x, y]) == Counts(b, x) + Counts(b, y)
  {
    assert [x, y][1..] == [y];
    assert [y][1..] == [];
    assert AllPushes(b, [y]) == Pushes(b, y) && AllCounts(b, [y]) == Counts(b, y);
  }

  lemma {:induction false} TallyOne(c: (Key, bool), t: Key, remote: bool)
    ensures Tally([c], t, remote) == if c == (t, remote) then 1 else 0
  {
    assert [c][1..] == [];
  }

  /** One push matched by one count. */
  ghost predicate Matched(e: (Key, Key), c: (Key, bool)) {
    c.0 == e.1 && c.1 == (e.0.owner != e.1.owner)
  }

  /** Lists of pushes and counts that match entry by entry are balanced. */
  lemma {:induction false} MatchedBalanced(b: Blocks, es: seq<(Key, Key)>, cs: seq<(Key, bool)>, t: Key)
    requires |es| == |cs| && forall i :: 0 <= i < |es| ==> Matched(es[i], cs[i])
    ensures |In(GraphOf(b), es, t, true)| == Tally(cs, t, false)
    ensures |In(GraphOf(b), es, t, false)| == Tally(cs, t, true)
  {
    if es != [] {
      assert Matched(es[0], cs[0]);
      MatchedBalanced(b, es[1..], cs[1..], t);
    }
  }

  lemma ExchangeBalanced(b: Blocks, x: Msg, y: Msg, t: Key)
    requires Counts(b, x) == [] && |Pushes(b, x) + Pushes(b, y)| == |Counts(b, y)|
    requires forall i :: 0 <= i < |Counts(b, y)| ==> Matched((Pushes(b, x) + Pushes(b, y))[i], Counts(b, y)[i])
    ensures BalancedFor(b, [x, y], t)
  {
    TwoMessages(b, x, y);
    assert Counts(b, x) + Counts(b, y) == Counts(b, y);
    MatchedBalanced(b, Pushes(b, x) + Pushes(b, y), Counts(b, y), t);
  }

  lemma PairBalanced(b: Blocks, I: nat, J: nat, K: nat, t: Key)
    ensures BalancedFor(b, PairMsgs(b, I, J, K), t)
  {
    var od := if K >= J then
      [Msg(b.own(J, I), I, J, UPDATE2D_SEND_OD, K, J), Msg(b.own(K, J), I, J, UPDATE2D_RECV_OD, K, J)] else [];
    var up := if K <= J then
      [Msg(b.own(J, I), I, K, UPDATE2D_SEND, K, J), Msg(b.own(J, K), I, K, UPDATE2D_RECV, K, J)] else [];
    var diag := if K <= J && b.ldl then
      [Msg(b.own(I, I), I, K, UPDATE2D_DIAG_SEND, K, J), Msg(b.own(J, K), I, K, UPDATE2D_DIAG_RECV, K, J)] else [];
    if K >= J {
      ExchangeBalanced(b, od[0], od[1], t);
    }
    if K <= J {
      ExchangeBalanced(b, up[0], up[1], t);
      if b.ldl {
        ExchangeBalanced(b, diag[0], diag[1], t);
      }
    }
    BalancedAppend(b, up, diag, t);
    BalancedAppend(b, od, up + diag, t);
    assert PairMsgs(b, I, J, K) == od + (up + diag);
  }

  lemma {:induction false} PairLoopBalanced(b: Blocks, I: nat, J: nat, Ks: seq<nat>, t: Key)
    ensures BalancedFor(b, PairLoop(b, I, J, Ks), t)
  {
    if Ks != [] {
      PairBalanced(b, I, J, Ks[0], t);
      PairLoopBalanced(b, I, J, Ks[1..], t);
      BalancedAppend(b, PairMsgs(b, I, J, Ks[0]), PairLoop(b, I, J, Ks[1..]), t);
    }
  }

  lemma {:induction false} AggLoopBalanced(b: Blocks, I: nat, J: nat, Ks: seq<nat>, t: Key)
    ensures BalancedFor(b, AggLoop(b, I, J, Ks), t)
  {
    if Ks != [] {
      var ms := AggMsgs(b, I, J, Ks[0]);
      if Ks[0] >= J {
        ExchangeBalanced(b, ms[0], ms[1], t);
        assert ms == [ms[0], ms[1]];
      }
      AggLoopBalanced(b, I, J, Ks[1..], t);
      BalancedAppend(b, ms, AggLoop(b, I, J, Ks[1..]), t);
    }
  }

  lemma RowBalanced(b: Blocks, I: nat, J: nat, t: Key)
    ensures BalancedFor(b, RowMsgs(b, I, J), t)
  {
    var head := [Msg(b.own(I, I), I, I, TRSM_SEND, J, J), Msg(b.own(J, I), I, I, TRSM_RECV, J, J)];
    ExchangeBalanced(b, head[0], head[1], t);
    PairLoopBalanced(b, I, J, b.anc(I), t);
    AggLoopBalanced(b, I, J, b.anc(I), t);
    BalancedAppend(b, head, PairLoop(b, I, J, b.anc(I)), t);
    BalancedAppend(b, head + PairLoop(b, I, J, b.anc(I)), AggLoop(b, I, J, b.anc(I)), t);
  }

  lemma {:induction false} RowLoopBalanced(b: Blocks, I: nat, Js: seq<nat>, t: Key)
    ensures BalancedFor(b, RowLoop(b, I, Js), t)
  {
    if Js != [] {
      RowBalanced(b, I, Js[0], t);
      RowLoopBalanced(b, I, Js[1..], t);
      BalancedAppend(b, RowMsgs(b, I, Js[0]), RowLoop(b, I, Js[1..]), t);
    }
  }

  lemma {:induction false} MsgsBalanced(b: Blocks, lo: nat, hi: nat, t: Key)
    ensures BalancedFor(b, Msgs(b, lo, hi), t)
    decreases hi - lo
  {
    if lo < hi {
      RowLoopBalanced(b, lo, b.anc(lo), t);
      MsgsBalanced(b, lo + 1, hi, t);
      BalancedAppend(b, RowLoop(b, lo, b.anc(lo)), Msgs(b, lo + 1, hi), t);
    }
  }

  /** The local and remote input counts of every task equal the number of times the task occurs in the
      out-lists of its own rank and of the other ranks. */
  lemma DoubleEntry(b: Blocks, t: Key)
    ensures Tally(AllCounts(b, AllMsgs(b)), t, false) == |Preds(GraphOf(b), t, true)|
    ensures Tally(AllCounts(b, AllMsgs(b)), t, true) == |Preds(GraphOf(b), t, false)|
  {
    MsgsBalanced(b, 1, b.n + 1, t);
  }

  // ---------------------------------------------------------------------------------------------
  // The tasks, and the messages, one by one
  // ---------------------------------------------------------------------------------------------

  ghost predicate IsTask(b: Blocks, k: Key) {
    var I := k.src;
    && 1 <= I <= b.n
    && match k.op
       case FACTOR => k == FactorKey(b, I)
       case TRSM => k.cellJ in b.anc(I) && k == TrsmKey(b, k.cellJ, I)
       case UPDATE2D_COMP =>
         k.cellI in b.anc(I) && k.cellJ in b.anc(I) && k.cellJ >= k.cellI && k == UpdateKey(b, k.cellJ, k.cellI, I)
       case DLT2D_COMP => k.cellI in b.anc(I) && IsDlt(b, k.cellI, I, b.anc(I), k)
  }

  /** A DLT task of cell (J,I) is needed on every rank that updates with it. */
  ghost predicate IsDlt(b: Blocks, J: nat, I: nat, Ks: seq<nat>, k: Key) {
    b.ldl && k == DltKey(J, I, k.owner) && exists K <- Ks :: K >= J && b.own(K, J) == k.owner
  }

  ghost predicate IsUpdate(b: Blocks, J: nat, I: nat, Ks: seq<nat>, k: Key) {
    k.cellJ in Ks && k.cellJ >= J && k == UpdateKey(b, k.cellJ, J, I)
  }

  lemma {:induction false} UpdateLoopMembers(b: Blocks, I: nat, J: nat, Ks: seq<nat>, sent: set<nat>, k: Key)
    ensures k in UpdateLoop(b, I, J, Ks, sent) <==>
            IsUpdate(b, J, I, Ks, k) || (k.owner !in sent && IsDlt(b, J, I, Ks, k))
  {
    if Ks != [] {
      if Ks[0] < J {
        UpdateLoopMembers(b, I, J, Ks[1..], sent, k);
      } else {
        UpdateLoopMembers(b, I, J, Ks[1..], sent + {b.own(Ks[0], J)}, k);
      }
      assert Ks == [Ks[0]] + Ks[1..];
      assert IsDlt(b, J, I, Ks, k) <==> IsDlt(b, J, I, Ks[..1], k) || IsDlt(b, J, I, Ks[1..], k);
    }
  }

  lemma {:induction false} TaskRowMembers(b: Blocks, I: nat, Js: seq<nat>, k: Key)
    ensures k in TaskRowLoop(b, I, Js) <==>
            exists J <- Js :: k == TrsmKey(b, J, I) || IsUpdate(b, J, I, b.anc(I), k) || IsDlt(b, J, I, b.anc(I), k)
  {
    if Js != [] {
      TaskRowMembers(b, I, Js[1..], k);
      UpdateLoopMembers(b, I, Js[0], b.anc(I), {}, k);
      assert Js == [Js[0]] + Js[1..];
    }
  }

  lemma {:induction false} TasksMembers(b: Blocks, lo: nat, hi: nat, k: Key)
    requires 1 <= lo && hi <= b.n + 1
    ensures k in Tasks(b, lo, hi) <==> lo <= k.src < hi && IsTask(b, k)
    decreases hi - lo
  {
    if lo < hi {
      TasksMembers(b, lo + 1, hi, k);
      TaskRowMembers(b, lo, b.anc(lo), k);
    }
  }

  lemma TaskMembers(b: Blocks, k: Key)
    ensures k in AllTasks(b) <==> IsTask(b, k)
  {
    TasksMembers(b, 1, b.n + 1, k);
  }

  function HeadMsgs(b: Blocks, I: nat, J: nat): seq<Msg> {
    [Msg(b.own(I, I), I, I, TRSM_SEND, J, J), Msg(b.own(J, I), I, I, TRSM_RECV, J, J)]
  }

  lemma {:induction false} PairLoopMembers(b: Blocks, I: nat, J: nat, Ks: seq<nat>, m: Msg)
    ensures m in PairLoop(b, I, J, Ks) <==> exists K <- Ks :: m in PairMsgs(b, I, J, K)
    ensures m in AggLoop(b, I, J, Ks) <==> exists K <- Ks :: m in AggMsgs(b, I, J, K)
  {
    if Ks != [] {
      PairLoopMembers(b, I, J, Ks[1..], m);
      assert Ks == [Ks[0]] + Ks[1..];
    }
  }

  ghost predicate RowMsg(b: Blocks, I: nat, J: nat, m: Msg) {
    || m in HeadMsgs(b, I, J)
    || exists K <- b.anc(I) :: m in PairMsgs(b, I, J, K) || m in AggMsgs(b, I, J, K)
  }

  lemma RowMembers(b: Blocks, I: nat, J: nat, m: Msg)
    ensures m in RowMsgs(b, I, J) <==> RowMsg(b, I, J, m)
  {
    PairLoopMembers(b, I, J, b.anc(I), m);
    var head, pairs, aggs := HeadMsgs(b, I, J), PairLoop(b, I, J, b.anc(I)), AggLoop(b, I, J, b.anc(I));
    assert m in head + pairs + aggs <==> m in head || m in pairs || m in aggs;
  }

  lemma {:induction false} RowLoopMembers(b: Blocks, I: nat, Js: seq<nat>, m: Msg)
    ensures m in RowLoop(b, I, Js) <==> exists J <- Js :: RowMsg(b, I, J, m)
  {
    if Js != [] {
      RowLoopMembers(b, I, Js[1..], m);
      RowMembers(b, I, Js[0], m);
      assert Js == [Js[0]] + Js[1..];
      assert m in RowLoop(b, I, Js) <==> m in RowMsgs(b, I, Js[0]) || m in RowLoop(b, I, Js[1..]);
    }
  }

  ghost predicate SnodeMsg(b: Blocks, I: nat, m: Msg) {
    exists J <- b.anc(I) :: RowMsg(b, I, J, m)
  }

  lemma SnodeMembers(b: Blocks, I: nat, m: Msg)
    ensures m in RowLoop(b, I, b.anc(I)) <==> SnodeMsg(b, I, m)
  {
    RowLoopMembers(b, I, b.anc(I), m);
  }

  ghost predicate SomeSnodeMsg(b: Blocks, lo: nat, hi: nat, m: Msg) {
    exists I: nat :: lo <= I < hi && SnodeMsg(b, I, m)
  }

  lemma SomeSnodeSplit(b: Blocks, lo: nat, hi: nat, m: Msg)
    requires lo < hi
    ensures SomeSnodeMsg(b, lo, hi, m) <==> SnodeMsg(b, lo, m) || SomeSnodeMsg(b, lo + 1, hi, m)
  {
  }

  lemma {:induction false} MsgsMembers(b: Blocks, lo: nat, hi: nat, m: Msg)
    ensures m in Msgs(b, lo, hi) <==> SomeSnodeMsg(b, lo, hi, m)
    decreases hi - lo
  {
    if lo < hi {
      MsgsMembers(b, lo + 1, hi, m);
      SnodeMembers(b, lo, m);
      SomeSnodeSplit(b, lo, hi, m);
    }
  }

  // ---------------------------------------------------------------------------------------------
  // Every key that is searched for exists, exactly when the structure is closed under fill
  // ---------------------------------------------------------------------------------------------

  /** Every key the receiver of `m` searches for is the key of a task. */
  ghost predicate LookupsHit(b: Blocks, m: Msg) {
    && (forall e <- Pushes(b, m) :: IsTask(b, e.0) && IsTask(b, e.1))
    && (forall c <- Counts(b, m) :: IsTask(b, c.0))
  }

  lemma PairMsgsHit(b: Blocks, I: nat, J: nat, K: nat, m: Msg)
    requires ValidBlocks(b) && 1 <= I <= b.n && J in b.anc(I) && K in b.anc(I)
    requires m in PairMsgs(b, I, J, K)
    ensures LookupsHit(b, m)
  {
  }

  lemma AggMsgsHit(b: Blocks, I: nat, J: nat, K: nat, m: Msg)
    requires ValidBlocks(b) && 1 <= I <= b.n && J in b.anc(I) && K in b.anc(I)
    requires m in AggMsgs(b, I, J, K) && (K != J ==> K in b.anc(J))
    ensures LookupsHit(b, m)
  {
  }

  lemma AllLookupsHit(b: Blocks, m: Msg)
    requires ValidBlocks(b) && FillClosed(b) && m in AllMsgs(b)
    ensures LookupsHit(b, m)
  {
    MsgsMembers(b, 1, b.n + 1, m);
    var I: nat :| 1 <= I < b.n + 1 && SnodeMsg(b, I, m);
    var J :| J in b.anc(I) && RowMsg(b, I, J, m);
    if m in HeadMsgs(b, I, J) {
      assert LookupsHit(b, m);
    } else {
      var K :| K in b.anc(I) && (m in PairMsgs(b, I, J, K) || m in AggMsgs(b, I, J, K));
      if m in PairMsgs(b, I, J, K) {
        PairMsgsHit(b, I, J, K, m);
      } else {
        AggMsgsHit(b, I, J, K, m);
      }
    }
  }

  lemma SnodePresent(b: Blocks, I: nat, m: Msg)
    requires 1 <= I <= b.n && SnodeMsg(b, I, m)
    ensures m in AllMsgs(b)
  {
    assert SomeSnodeMsg(b, 1, b.n + 1, m);
    MsgsMembers(b, 1, b.n + 1, m);
  }

  lemma RowPresent(b: Blocks, I: nat, J: nat, m: Msg)
    requires J in b.anc(I) && RowMsg(b, I, J, m)
    ensures SnodeMsg(b, I, m)
  {
  }

  lemma AggregatePresent(b: Blocks, I: nat, J: nat, K: nat, m: Msg)
    requires 1 <= I <= b.n && J in b.anc(I) && K in b.anc(I) && m in AggMsgs(b, I, J, K)
    ensures m in AllMsgs(b)
  {
    AggRowMsg(b, I, J, K, m);
    RowPresent(b, I, J, m);
    SnodePresent(b, I, m);
  }

  lemma AggRowMsg(b: Blocks, I: nat, J: nat, K: nat, m: Msg)
    requires K in b.anc(I) && m in AggMsgs(b, I, J, K)
    ensures RowMsg(b, I, J, m)
  {
  }

  /** Without the common cell the update of supernodes J and K has no task to feed. */
  lemma AggregateMisses(b: Blocks, I: nat, J: nat, K: nat, m: Msg)
    requires J < K && K !in b.anc(J) && m == Msg(b.own(K, J), I, J, AGGREGATE2D_SEND, J, K)
    ensures !LookupsHit(b, m)
  {
    var e := (Key(K, J, I, UPDATE2D_COMP, m.dest), TrsmKey(b, K, J));
    assert Pushes(b, m) == [e];
    assert e in Pushes(b, m) && !IsTask(b, e.1);
  }

  lemma MissingFillMisses(b: Blocks, I: nat, J: nat, K: nat) returns (m: Msg)
    requires 1 <= I <= b.n && J in b.anc(I) && K in b.anc(I) && J < K && K !in b.anc(J)
    ensures m in AllMsgs(b) && !LookupsHit(b, m)
  {
    m := Msg(b.own(K, J), I, J, AGGREGATE2D_SEND, J, K);
    assert m == AggMsgs(b, I, J, K)[0];
    AggregatePresent(b, I, J, K, m);
    AggregateMisses(b, I, J, K, m);
  }

  /** The searches of all ranks succeed for every message exactly when the structure is closed under fill. */
  lemma SearchesSucceedIffFillClosed(b: Blocks)
    requires ValidBlocks(b)
    ensures (forall m <- AllMsgs(b) :: LookupsHit(b, m)) <==> FillClosed(b)
  {
    if FillClosed(b) {
      forall m | m in AllMsgs(b)
        ensures LookupsHit(b, m)
      {
        AllLookupsHit(b, m);
      }
    } else {
      var I, J, K :| 1 <= I <= b.n && J in b.anc(I) && K in b.anc(I) && J < K && K !in b.anc(J);
      var m := MissingFillMisses(b, I, J, K);
    }
  }

  // ---------------------------------------------------------------------------------------------
  // The graph is well formed and acyclic
  // ---------------------------------------------------------------------------------------------

  /** FACTOR < TRSM < DLT < UPDATE within a supernode, and supernodes in order. */
  function TaskRank(k: Key): nat {
    4 * k.src + match k.op case FACTOR => 0 case TRSM => 1 case DLT2D_COMP => 2 case UPDATE2D_COMP => 3
  }

  /** The receiver touches only its own tasks, and every edge climbs. */
  ghost predicate Climbs(b: Blocks, m: Msg) {
    && (forall e <- Pushes(b, m) :: e.0.owner == m.dest && TaskRank(e.0) < TaskRank(e.1))
    && (forall c <- Counts(b, m) :: c.0.owner == m.dest)
  }

  lemma HeadMsgClimbs(b: Blocks, I: nat, J: nat, m: Msg)
    requires m in HeadMsgs(b, I, J)
    ensures Climbs(b, m)
  {
  }

  lemma PairMsgClimbs(b: Blocks, I: nat, J: nat, K: nat, m: Msg)
    requires m in PairMsgs(b, I, J, K)
    ensures Climbs(b, m)
  {
  }

  lemma AggMsgClimbs(b: Blocks, I: nat, J: nat, K: nat, m: Msg)
    requires I < J && m in AggMsgs(b, I, J, K)
    ensures Climbs(b, m)
  {
  }

  lemma RowMsgClimbs(b: Blocks, I: nat, J: nat, m: Msg)
    requires I < J && RowMsg(b, I, J, m)
    ensures Climbs(b, m)
  {
    if m in HeadMsgs(b, I, J) {
      HeadMsgClimbs(b, I, J, m);
    } else {
      var K :| K in b.anc(I) && (m in PairMsgs(b, I, J, K) || m in AggMsgs(b, I, J, K));
      if m in PairMsgs(b, I, J, K) {
        PairMsgClimbs(b, I, J, K, m);
      } else {
        AggMsgClimbs(b, I, J, K, m);
      }
    }
  }

  lemma MsgClimbs(b: Blocks, m: Msg)
    requires ValidBlocks(b) && m in AllMsgs(b)
    ensures Climbs(b, m)
  {
    MsgsMembers(b, 1, b.n + 1, m);
    var I: nat :| 1 <= I < b.n + 1 && SnodeMsg(b, I, m);
    var J :| J in b.anc(I) && RowMsg(b, I, J, m);
    RowMsgClimbs(b, I, J, m);
  }

  lemma {:induction false} PushOrigin(b: Blocks, ms: seq<Msg>, e: (Key, Key)) returns (m: Msg)
    requires e in AllPushes(b, ms)
    ensures m in ms && e in Pushes(b, m)
  {
    if e in Pushes(b, ms[0]) {
      m := ms[0];
    } else {
      m := PushOrigin(b, ms[1..], e);
    }
  }

  lemma GraphEdge(b: Blocks, e: (Key, Key))
    requires ValidBlocks(b) && FillClosed(b) && e in GraphOf(b).edges
    ensures IsTask(b, e.0) && IsTask(b, e.1) && TaskRank(e.0) < TaskRank(e.1)
  {
    var m := PushOrigin(b, AllMsgs(b), e);
    AllLookupsHit(b, m);
    MsgClimbs(b, m);
  }

  lemma TaskOwner(b: Blocks, k: Key)
    requires ValidBlocks(b) && IsTask(b, k)
    ensures k.owner < b.np
  {
  }

  lemma GraphWellFormed(b: Blocks)
    requires ValidBlocks(b) && FillClosed(b)
    ensures WellFormed(GraphOf(b))
    ensures Ranked(GraphOf(b), TaskRank)
  {
    var g := GraphOf(b);
    forall e | e in g.edges
      ensures e.0 in g.tasks && e.1 in g.tasks && TaskRank(e.0) < TaskRank(e.1)
    {
      GraphEdge(b, e);
      TaskMembers(b, e.0);
      TaskMembers(b, e.1);
    }
    forall t | t in g.tasks
      ensures g.owner(t) < g.np
    {
      TaskMembers(b, t);
      TaskOwner(b, t);
    }
  }

  /** The counters that the task graph starts with. */
  ghost function LocalCounts(b: Blocks): map<Key, nat> {
    map k | k in GraphOf(b).tasks :: Tally(AllCounts(b, AllMsgs(b)), k, false)
  }

  ghost function RemoteCounts(b: Blocks): map<Key, nat> {
    map k | k in GraphOf(b).tasks :: Tally(AllCounts(b, AllMsgs(b)), k, true)
  }

  lemma CountersBalanced(b: Blocks)
    ensures Balanced(GraphOf(b), LocalCounts(b), RemoteCounts(b))
  {
    forall t | t in GraphOf(b).tasks
      ensures LocalCounts(b)[t] == |Preds(GraphOf(b), t, true)|
      ensures RemoteCounts(b)[t] == |Preds(GraphOf(b), t, false)|
    {
      DoubleEntry(b, t);
    }
  }

  ghost function Start(b: Blocks): State<Key> { Init(GraphOf(b), LocalCounts(b), RemoteCounts(b)) }

  lemma AllTasksDone(b: Blocks, s: State<Key>)
    ensures s.Done() == GraphOf(b).tasks <==> forall t :: t in s.log <==> IsTask(b, t)
  {
    forall t
      ensures t in GraphOf(b).tasks <==> IsTask(b, t)
      ensures t in s.Done() <==> t in s.log
    {
      TaskMembers(b, t);
    }
    SameSets(s.Done(), GraphOf(b).tasks);
  }

  lemma SameSets<A(!new)>(x: set<A>, y: set<A>)
    ensures x == y <==> forall a :: a in x <==> a in y
  {
  }

  /** Every run of the factorization, on any number of ranks, with any assignment of cells to ranks and
      for LL and LDL alike, executes every task once, in an order that respects all dependencies, and
      ends after a number of steps that no interleaving changes. */
  lemma EveryFactorizationRun(b: Blocks, steps: seq<Step<Key>>, s: State<Key>)
    requires ValidBlocks(b) && FillClosed(b)
    requires Run(GraphOf(b), Start(b), steps, s)
    ensures Inv(GraphOf(b), s)
    ensures NoDuplicates(s.log) && RespectsEdges(GraphOf(b), s.log)
    ensures |steps| <= StepsLeft(GraphOf(b), Start(b))
    ensures Stuck(GraphOf(b), s) <==> |steps| == StepsLeft(GraphOf(b), Start(b))
    ensures Stuck(GraphOf(b), s) <==> forall t :: t in s.log <==> IsTask(b, t)
  {
    GraphWellFormed(b);
    CountersBalanced(b);
    EveryRun(GraphOf(b), LocalCounts(b), RemoteCounts(b), TaskRank, steps, s);
    AllTasksDone(b, s);
  }

  // ---------------------------------------------------------------------------------------------
  // The construction as the ranks run it
  // ---------------------------------------------------------------------------------------------

  function Get<A(==), B>(m: map<A, seq<B>>, a: A): seq<B> { if a in m then m[a] else [] }
  function GetCount<A(==)>(m: map<A, nat>, a: A): nat { if a in m then m[a] else 0 }

  /** The lists filed per destination rank hold exactly the messages produced, in order. */
  ghost predicate Routed(messages: map<nat, seq<Msg>>, produced: seq<Msg>) {
    forall r: nat :: Get(messages, r) == ForRank(produced, r)
  }

  lemma {:induction false} ForRankAppend(xs: seq<Msg>, ys: seq<Msg>, r: nat)
    ensures ForRank(xs + ys, r) == ForRank(xs, r) + ForRank(ys, r)
  {
    if xs == [] {
      assert xs + ys == ys;
    } else {
      ForRankAppend(xs[1..], ys, r);
      assert (xs + ys)[1..] == xs[1..] + ys;
      Associative(if xs[0].dest == r then [xs[0]] else [], ForRank(xs[1..], r), ForRank(ys, r));
    }
  }

  method PushBack(messages: map<nat, seq<Msg>>, m: Msg, ghost produced: seq<Msg>) returns (r: map<nat, seq<Msg>>)
    requires Routed(messages, produced)
    ensures Routed(r, produced + [m])
  {
    r := messages[m.dest := Get(messages, m.dest) + [m]];
    forall q: nat
      ensures Get(r, q) == ForRank(produced + [m], q)
    {
      ForRankAppend(produced, [m], q);
      assert [m][1..] == [];
      assert Get(messages, q) == ForRank(produced, q);
    }
  }

  method PushPair(messages: map<nat, seq<Msg>>, x: Msg, y: Msg, ghost produced: seq<Msg>) returns (r: map<nat, seq<Msg>>)
    requires Routed(messages, produced)
    ensures Routed(r, produced + [x, y])
  {
    r := PushBack(messages, x, produced);
    r := PushBack(r, y, produced + [x]);
    assert produced + [x] + [y] == produced + [x, y];
  }

  method GeneratePair(b: Blocks, I: nat, J: nat, K: nat, messages: map<nat, seq<Msg>>, ghost produced: seq<Msg>)
    returns (r: map<nat, seq<Msg>>)
    requires Routed(messages, produced)
    ensures Routed(r, produced + PairMsgs(b, I, J, K))
  {
    r := messages;
    ghost var ms := [];
    if K >= J {
      var x, y := Msg(b.own(J, I), I, J, UPDATE2D_SEND_OD, K, J), Msg(b.own(K, J), I, J, UPDATE2D_RECV_OD, K, J);
      r := PushPair(r, x, y, produced);
      ms := [x, y];
    } else {
      assert produced + ms == produced;
    }
    if K <= J {
      var x, y := Msg(b.own(J, I), I, K, UPDATE2D_SEND, K, J), Msg(b.own(J, K), I, K, UPDATE2D_RECV, K, J);
      r := PushPair(r, x, y, produced + ms);
      Associative(produced, ms, [x, y]);
      ms := ms + [x, y];
      if b.ldl {
        var u, v := Msg(b.own(I, I), I, K, UPDATE2D_DIAG_SEND, K, J), Msg(b.own(J, K), I, K, UPDATE2D_DIAG_RECV, K, J);
        r := PushPair(r, u, v, produced + ms);
        Associative(produced, ms, [u, v]);
        ms := ms + [u, v];
      }
    }
    assert ms == PairMsgs(b, I, J, K);
  }

  lemma PairStep(b: Blocks, I: nat, J: nat, Ks: seq<nat>, k: nat, now: seq<Msg>)
    requires k < |Ks|
    ensures now + PairLoop(b, I, J, Ks[k..]) == now + PairMsgs(b, I, J, Ks[k]) + PairLoop(b, I, J, Ks[k + 1..])
    ensures now + AggLoop(b, I, J, Ks[k..]) == now + AggMsgs(b, I, J, Ks[k]) + AggLoop(b, I, J, Ks[k + 1..])
  {
    assert Ks[k..][1..] == Ks[k + 1..];
    Associative(now, PairMsgs(b, I, J, Ks[k]), PairLoop(b, I, J, Ks[k + 1..]));
    Associative(now, AggMsgs(b, I, J, Ks[k]), AggLoop(b, I, J, Ks[k + 1..]));
  }

  method GeneratePairs(b: Blocks, I: nat, J: nat, Ks: seq<nat>, messages: map<nat, seq<Msg>>, ghost produced: seq<Msg>)
    returns (r: map<nat, seq<Msg>>)
    requires Routed(messages, produced)
    ensures Routed(r, produced + PairLoop(b, I, J, Ks))
  {
    r := messages;
    ghost var now := produced;
    assert Ks[0..] == Ks;
    for k := 0 to |Ks|
      invariant Routed(r, now)
      invariant now + PairLoop(b, I, J, Ks[k..]) == produced + PairLoop(b, I, J, Ks)
    {
      r := GeneratePair(b, I, J, Ks[k], r, now);
      PairStep(b, I, J, Ks, k, now);
      now := now + PairMsgs(b, I, J, Ks[k]);
    }
    assert now == now + PairLoop(b, I, J, Ks[|Ks|..]);
  }

  method GenerateAggregates(b: Blocks, I: nat, J: nat, Ks: seq<nat>, messages: map<nat, seq<Msg>>, ghost produced: seq<Msg>)
    returns (r: map<nat, seq<Msg>>)
    requires Routed(messages, produced)
    ensures Routed(r, produced + AggLoop(b, I, J, Ks))
  {
    r := messages;
    ghost var now := produced;
    assert Ks[0..] == Ks;
    for k := 0 to |Ks|
      invariant Routed(r, now)
      invariant now + AggLoop(b, I, J, Ks[k..]) == produced + AggLoop(b, I, J, Ks)
    {
      var K := Ks[k];
      if K >= J {
        r := PushPair(r, Msg(b.own(K, J), I, J, AGGREGATE2D_SEND, J, K), Msg(b.own(K, J), I, J, AGGREGATE2D_RECV, J, K), now);
      } else {
        assert now + AggMsgs(b, I, J, K) == now;
      }
      PairStep(b, I, J, Ks, k, now);
      now := now + AggMsgs(b, I, J, K);
    }
    assert now == now + AggLoop(b, I, J, Ks[|Ks|..]);
  }

  lemma RowParts(b: Blocks, I: nat, J: nat, produced: seq<Msg>)
    ensures produced + HeadMsgs(b, I, J) + PairLoop(b, I, J, b.anc(I)) + AggLoop(b, I, J, b.anc(I))
            == produced + RowMsgs(b, I, J)
  {
    Associative(produced, HeadMsgs(b, I, J), PairLoop(b, I, J, b.anc(I)));
    Associative(produced, HeadMsgs(b, I, J) + PairLoop(b, I, J, b.anc(I)), AggLoop(b, I, J, b.anc(I)));
  }

  method GenerateRow(b: Blocks, I: nat, J: nat, messages: map<nat, seq<Msg>>, ghost produced: seq<Msg>)
    returns (r: map<nat, seq<Msg>>)
    requires Routed(messages, produced)
    ensures Routed(r, produced + RowMsgs(b, I, J))
  {
    var anc := b.anc(I);
    r := PushPair(messages, Msg(b.own(I, I), I, I, TRSM_SEND, J, J), Msg(b.own(J, I), I, I, TRSM_RECV, J, J), produced);
    r := GeneratePairs(b, I, J, anc, r, produced + HeadMsgs(b, I, J));
    r := GenerateAggregates(b, I, J, anc, r, produced + HeadMsgs(b, I, J) + PairLoop(b, I, J, anc));
    RowParts(b, I, J, produced);
  }

  lemma RowStep(b: Blocks, I: nat, Js: seq<nat>, j: nat, now: seq<Msg>)
    requires j < |Js|
    ensures now + RowLoop(b, I, Js[j..]) == now + RowMsgs(b, I, Js[j]) + RowLoop(b, I, Js[j + 1..])
  {
    assert Js[j..][1..] == Js[j + 1..];
    Associative(now, RowMsgs(b, I, Js[j]), RowLoop(b, I, Js[j + 1..]));
  }

  method GenerateSupernode(b: Blocks, I: nat, messages: map<nat, seq<Msg>>, ghost produced: seq<Msg>)
    returns (r: map<nat, seq<Msg>>)
    requires Routed(messages, produced)
    ensures Routed(r, produced + RowLoop(b, I, b.anc(I)))
  {
    var anc := b.anc(I);
    r := messages;
    ghost var now := produced;
    assert anc[0..] == anc;
    for j := 0 to |anc|
      invariant Routed(r, now)
      invariant now + RowLoop(b, I, anc[j..]) == produced + RowLoop(b, I, anc)
    {
      r := GenerateRow(b, I, anc[j], r, now);
      RowStep(b, I, anc, j, now);
      now := now + RowMsgs(b, I, anc[j]);
    }
    assert now == now + RowLoop(b, I, anc[|anc|..]);
  }

  /** What one rank produces for its supernodes first..last-1. */
  method GenerateMessages(b: Blocks, first: nat, last: nat) returns (messages: map<nat, seq<Msg>>)
    requires first <= last
    ensures forall r: nat :: Get(messages, r) == ForRank(Msgs(b, first, last), r)
  {
    messages := map[];
    ghost var now: seq<Msg> := [];
    assert now + Msgs(b, first, last) == Msgs(b, first, last);
    for I := first to last
      invariant Routed(messages, now)
      invariant now + Msgs(b, I, last) == Msgs(b, first, last)
    {
      messages := GenerateSupernode(b, I, messages, now);
      Associative(now, RowLoop(b, I, b.anc(I)), Msgs(b, I + 1, last));
      now := now + RowLoop(b, I, b.anc(I));
    }
    assert now == now + Msgs(b, last, last);
  }

  /** What the all-to-all delivers to rank `r` when rank p owns supernodes dist[p]..dist[p+1]-1. */
  function Received(b: Blocks, dist: seq<nat>, r: nat): seq<Msg> {
    if |dist| <= 1 then [] else ForRank(Msgs(b, dist[0], dist[1]), r) + Received(b, dist[1..], r)
  }

  ghost predicate Partition(dist: seq<nat>, lo: nat, hi: nat) {
    |dist| >= 1 && dist[0] == lo && dist[|dist| - 1] == hi && forall i, j :: 0 <= i < j < |dist| ==> dist[i] <= dist[j]
  }

  lemma {:induction false} MsgsSplit(b: Blocks, lo: nat, mid: nat, hi: nat)
    requires lo <= mid <= hi
    ensures Msgs(b, lo, hi) == Msgs(b, lo, mid) + Msgs(b, mid, hi)
    decreases mid - lo
  {
    if lo < mid {
      MsgsSplit(b, lo + 1, mid, hi);
      Associative(RowLoop(b, lo, b.anc(lo)), Msgs(b, lo + 1, mid), Msgs(b, mid, hi));
    } else {
      assert [] + Msgs(b, mid, hi) == Msgs(b, mid, hi);
    }
  }

  /** However the supernodes are spread over the ranks, a rank receives the same messages in the same order. */
  lemma {:induction false} ReceivedInOrder(b: Blocks, dist: seq<nat>, lo: nat, hi: nat, r: nat)
    requires Partition(dist, lo, hi)
    ensures Received(b, dist, r) == ForRank(Msgs(b, lo, hi), r)
  {
    if |dist| > 1 {
      assert Partition(dist[1..], dist[1], hi);
      ReceivedInOrder(b, dist[1..], dist[1], hi, r);
      MsgsSplit(b, lo, dist[1], hi);
      ForRankAppend(Msgs(b, lo, dist[1]), Msgs(b, dist[1], hi), r);
    }
  }

  ghost predicate SortedKeys(keys: seq<Key>) {
    forall i, j :: 0 <= i < j < |keys| ==> KeyLess(keys[i], keys[j])
  }

  /** std::lower_bound on a key index finds exactly the key that is present. */
  method LowerBound(keys: seq<Key>, k: Key) returns (i: nat)
    requires SortedKeys(keys)
    ensures i <= |keys|
    ensures forall j :: 0 <= j < i ==> KeyLess(keys[j], k)
    ensures forall j :: i <= j < |keys| ==> !KeyLess(keys[j], k)
    ensures k in keys <==> i < |keys| && keys[i] == k
  {
    var lo, hi := 0, |keys|;
    while lo < hi
      invariant 0 <= lo <= hi <= |keys|
      invariant forall j :: 0 <= j < lo ==> KeyLess(keys[j], k)
      invariant forall j :: hi <= j < |keys| ==> !KeyLess(keys[j], k)
    {
      var mid := (lo + hi) / 2;
      if KeyLess(keys[mid], k) {
        forall j | 0 <= j < mid
          ensures KeyLess(keys[j], k)
        {
          assert KeyLess(keys[j], keys[mid]);
        }
        lo := mid + 1;
      } else {
        forall j | mid < j < |keys|
          ensures !KeyLess(keys[j], k)
        {
          assert KeyLess(keys[mid], keys[j]);
        }
        hi := mid;
      }
    }
    i := lo;
    if k in keys {
      var p :| 0 <= p < |keys| && keys[p] == k;
      if i < p {
        assert KeyLess(keys[i], keys[p]);
      }
    }
  }

  /** Every key that `m` names is in the sorted index of its owner. */
  ghost predicate Indexed(b: Blocks, index: seq<seq<Key>>, m: Msg) {
    && (forall e <- Pushes(b, m) :: Found(index, e.0) && Found(index, e.1))
    && (forall c <- Counts(b, m) :: Found(index, c.0))
  }

  ghost predicate Found(index: seq<seq<Key>>, k: Key) { k.owner < |index| && k in index[k.owner] }

  ghost predicate Counted(local: map<Key, nat>, remote: map<Key, nat>, cs: seq<(Key, bool)>) {
    forall t :: GetCount(local, t) == Tally(cs, t, false) && GetCount(remote, t) == Tally(cs, t, true)
  }

  ghost predicate Filed(b: Blocks, out: map<(Key, nat), seq<Key>>, es: seq<(Key, Key)>) {
    forall s, r: nat :: Get(out, (s, r)) == Out(GraphOf(b), es, s, r)
  }

  lemma {:induction false} OutAppend(g: Graph<Key>, xs: seq<(Key, Key)>, ys: seq<(Key, Key)>, s: Key, r: nat)
    ensures Out(g, xs + ys, s, r) == Out(g, xs, s, r) + Out(g, ys, s, r)
  {
    if xs == [] {
      assert xs + ys == ys;
    } else {
      OutAppend(g, xs[1..], ys, s, r);
      assert (xs + ys)[1..] == xs[1..] + ys && (xs + ys)[0] == xs[0];
      var mine := if xs[0].0 == s && g.owner(xs[0].1) == r then [xs[0].1] else [];
      assert Out(g, xs, s, r) == mine + Out(g, xs[1..], s, r);
      Associative(mine, Out(g, xs[1..], s, r), Out(g, ys, s, r));
    }
  }

  method CountInput(index: seq<seq<Key>>, c: (Key, bool), local: map<Key, nat>, remote: map<Key, nat>, ghost cs: seq<(Key, bool)>)
    returns (local': map<Key, nat>, remote': map<Key, nat>)
    requires (forall keys <- index :: SortedKeys(keys)) && Found(index, c.0)
    requires Counted(local, remote, cs)
    ensures Counted(local', remote', cs + [c])
  {
    var keys := index[c.0.owner];
    var pos := LowerBound(keys, c.0);
    var t := keys[pos];
    local', remote' := local, remote;
    if c.1 {
      remote' := remote[t := GetCount(remote, t) + 1];
    } else {
      local' := local[t := GetCount(local, t) + 1];
    }
    forall u
      ensures GetCount(local', u) == Tally(cs + [c], u, false) && GetCount(remote', u) == Tally(cs + [c], u, true)
    {
      TallyAppend(cs, [c], u, false);
      TallyAppend(cs, [c], u, true);
      TallyOne(c, u, false);
      TallyOne(c, u, true);
      assert GetCount(local, u) == Tally(cs, u, false) && GetCount(remote, u) == Tally(cs, u, true);
    }
  }

  method PushTarget(b: Blocks, index: seq<seq<Key>>, e: (Key, Key), out: map<(Key, nat), seq<Key>>, ghost es: seq<(Key, Key)>)
    returns (out': map<(Key, nat), seq<Key>>)
    requires (forall keys <- index :: SortedKeys(keys)) && Found(index, e.0) && Found(index, e.1)
    requires Filed(b, out, es)
    ensures Filed(b, out', es + [e])
  {
    var pos := LowerBound(index[e.0.owner], e.0);
    var task := index[e.0.owner][pos];
    pos := LowerBound(index[e.1.owner], e.1);
    var target := index[e.1.owner][pos];
    var slot := (task, target.owner);
    out' := out[slot := Get(out, slot) + [target]];
    forall s, r: nat
      ensures Get(out', (s, r)) == Out(GraphOf(b), es + [e], s, r)
    {
      OutAppend(GraphOf(b), es, [e], s, r);
      assert [e][1..] == [];
      assert Get(out, (s, r)) == Out(GraphOf(b), es, s, r);
    }
  }

  method ProcessMessage(b: Blocks, index: seq<seq<Key>>, m: Msg,
                        local: map<Key, nat>, remote: map<Key, nat>, out: map<(Key, nat), seq<Key>>,
                        ghost cs: seq<(Key, bool)>, ghost es: seq<(Key, Key)>)
    returns (local': map<Key, nat>, remote': map<Key, nat>, out': map<(Key, nat), seq<Key>>)
    requires (forall keys <- index :: SortedKeys(keys)) && Indexed(b, index, m)
    requires Counted(local, remote, cs) && Filed(b, out, es)
    ensures Counted(local', remote', cs + Counts(b, m))
    ensures Filed(b, out', es + Pushes(b, m))
  {
    local', remote', out' := local, remote, out;
    var counts, pushes := Counts(b, m), Pushes(b, m);
    assert cs + counts[..0] == cs && es + pushes[..0] == es;
    for i := 0 to |counts|
      invariant Counted(local', remote', cs + counts[..i])
    {
      local', remote' := CountInput(index, counts[i], local', remote', cs + counts[..i]);
      assert cs + counts[..i] + [counts[i]] == cs + counts[..i + 1];
    }
    for i := 0 to |pushes|
      invariant Filed(b, out', es + pushes[..i])
    {
      out' := PushTarget(b, index, pushes[i], out', es + pushes[..i]);
      assert es + pushes[..i] + [pushes[i]] == es + pushes[..i + 1];
    }
    assert counts[..|counts|] == counts && pushes[..|pushes|] == pushes;
  }

  lemma OneMessage(b: Blocks, ms: seq<Msg>, i: nat)
    requires i < |ms|
    ensures AllPushes(b, ms[..i + 1]) == AllPushes(b, ms[..i]) + Pushes(b, ms[i])
    ensures AllCounts(b, ms[..i + 1]) == AllCounts(b, ms[..i]) + Counts(b, ms[i])
  {
    assert ms[..i + 1] == ms[..i] + [ms[i]];
    PushesAppend(b, ms[..i], [ms[i]]);
    CountsAppend(b, ms[..i], [ms[i]]);
    assert [ms[i]][1..] == [];
    assert AllPushes(b, [ms[i]]) == Pushes(b, ms[i]) && AllCounts(b, [ms[i]]) == Counts(b, ms[i]);
  }

  /** One rank works through the messages it received. */
  method ProcessMessages(b: Blocks, index: seq<seq<Key>>, recv: seq<Msg>)
    returns (local: map<Key, nat>, remote: map<Key, nat>, out: map<(Key, nat), seq<Key>>)
    requires (forall keys <- index :: SortedKeys(keys)) && forall m <- recv :: Indexed(b, index, m)
    ensures forall t :: GetCount(local, t) == Tally(AllCounts(b, recv), t, false)
    ensures forall t :: GetCount(remote, t) == Tally(AllCounts(b, recv), t, true)
    ensures forall s, r: nat :: Get(out, (s, r)) == Out(GraphOf(b), AllPushes(b, recv), s, r)
  {
    local, remote, out := map[], map[], map[];
    for i := 0 to |recv|
      invariant Counted(local, remote, AllCounts(b, recv[..i]))
      invariant Filed(b, out, AllPushes(b, recv[..i]))
    {
      local, remote, out := ProcessMessage(b, index, recv[i], local, remote, out,
        AllCounts(b, recv[..i]), AllPushes(b, recv[..i]));
      OneMessage(b, recv, i);
    }
    assert recv[..|recv|] == recv;
  }

  /** A rank sees all that concerns its own tasks: what it tallies and files for them is what the
      messages of all ranks tally and file. */
  lemma {:induction false} RankSeesAll(b: Blocks, ms: seq<Msg>, t: Key, remote: bool, r: nat)
    requires forall m <- ms :: Climbs(b, m)
    ensures Tally(AllCounts(b, ForRank(ms, t.owner)), t, remote) == Tally(AllCounts(b, ms), t, remote)
    ensures Out(GraphOf(b), AllPushes(b, ForRank(ms, t.owner)), t, r) == Out(GraphOf(b), AllPushes(b, ms), t, r)
  {
    if ms != [] {
      var m, rest := ms[0], ForRank(ms[1..], t.owner);
      RankSeesAll(b, ms[1..], t, remote, r);
      TallyAppend(Counts(b, m), AllCounts(b, ms[1..]), t, remote);
      OutAppend(GraphOf(b), Pushes(b, m), AllPushes(b, ms[1..]), t, r);
      if m.dest == t.owner {
        PushesAppend(b, [m], rest);
        CountsAppend(b, [m], rest);
        OneMessageAlone(b, m);
        TallyAppend(Counts(b, m), AllCounts(b, rest), t, remote);
        OutAppend(GraphOf(b), Pushes(b, m), AllPushes(b, rest), t, r);
      } else {
        assert Climbs(b, m);
        NotMine(b, Counts(b, m), Pushes(b, m), t, remote, r);
        assert [] + rest == rest;
      }
    }
  }

  lemma OneMessageAlone(b: Blocks, m: Msg)
    ensures AllPushes(b, [m]) == Pushes(b, m) && AllCounts(b, [m]) == Counts(b, m)
  {
    assert [m][1..] == [];
  }

  lemma {:induction false} NotMine(b: Blocks, cs: seq<(Key, bool)>, es: seq<(Key, Key)>, t: Key, remote: bool, r: nat)
    requires (forall c <- cs :: c.0.owner != t.owner) && (forall e <- es :: e.0.owner != t.owner)
    ensures Tally(cs, t, remote) == 0
    ensures Out(GraphOf(b), es, t, r) == []
  {
    if cs != [] {
      NotMine(b, cs[1..], es, t, remote, r);
    } else if es != [] {
      NotMine(b, cs, es[1..], t, remote, r);
    }
  }

  /** End to end: whatever the distribution of supernodes, after a rank has processed what it received, the
      counters of a task on that rank equal the number of times the task occurs in the out-lists of all
      ranks, split by owner, and its out-lists are those of the global graph. */
  lemma ConstructionIsDoubleEntry(b: Blocks, dist: seq<nat>, t: Key, r: nat)
    requires ValidBlocks(b) && Partition(dist, 1, b.n + 1)
    ensures Tally(AllCounts(b, Received(b, dist, t.owner)), t, false) == |Preds(GraphOf(b), t, true)|
    ensures Tally(AllCounts(b, Received(b, dist, t.owner)), t, true) == |Preds(GraphOf(b), t, false)|
    ensures Out(GraphOf(b), AllPushes(b, Received(b, dist, t.owner)), t, r) == Succs(GraphOf(b), t, r)
  {
    ReceivedInOrder(b, dist, 1, b.n + 1, t.owner);
    forall m | m in AllMsgs(b)
      ensures Climbs(b, m)
    {
      MsgClimbs(b, m);
    }
    RankSeesAll(b, AllMsgs(b), t, true, r);
    RankSeesAll(b, AllMsgs(b), t, false, r);
    DoubleEntry(b, t);
  }

  // ---------------------------------------------------------------------------------------------
  // Every task is created once
  // ---------------------------------------------------------------------------------------------

  lemma DistinctAppend(xs: seq<Key>, ys: seq<Key>)
    requires NoDuplicates(xs) && NoDuplicates(ys) && forall k <- xs :: k !in ys
    ensures NoDuplicates(xs + ys)
  {
    forall i, j | 0 <= i < j < |xs + ys|
      ensures (xs + ys)[i] != (xs + ys)[j]
    {
      if i < |xs| && |xs| <= j {
        assert (xs + ys)[i] in xs && (xs + ys)[j] == ys[j - |xs|] && ys[j - |xs|] in ys;
      }
    }
  }

  lemma {:induction false} UpdateLoopDistinct(b: Blocks, I: nat, J: nat, Ks: seq<nat>, sent: set<nat>)
    requires Increasing(Ks)
    ensures NoDuplicates(UpdateLoop(b, I, J, Ks, sent))
  {
    if Ks != [] {
      if Ks[0] < J {
        UpdateLoopDistinct(b, I, J, Ks[1..], sent);
      } else {
        var r := b.own(Ks[0], J);
        var rest := UpdateLoop(b, I, J, Ks[1..], sent + {r});
        var head := [UpdateKey(b, Ks[0], J, I)] + (if b.ldl && r !in sent then [DltKey(J, I, r)] else []);
        UpdateLoopDistinct(b, I, J, Ks[1..], sent + {r});
        UpdateLoopMembers(b, I, J, Ks[1..], sent + {r}, UpdateKey(b, Ks[0], J, I));
        UpdateLoopMembers(b, I, J, Ks[1..], sent + {r}, DltKey(J, I, r));
        DistinctAppend(head, rest);
      }
    }
  }

  lemma {:induction false} TaskRowDistinct(b: Blocks, I: nat, Js: seq<nat>)
    requires Increasing(Js) && Increasing(b.anc(I))
    ensures NoDuplicates(TaskRowLoop(b, I, Js))
  {
    if Js != [] {
      var J := Js[0];
      var mine := UpdateLoop(b, I, J, b.anc(I), {});
      var rest := TaskRowLoop(b, I, Js[1..]);
      TaskRowDistinct(b, I, Js[1..]);
      UpdateLoopDistinct(b, I, J, b.anc(I), {});
      UpdateLoopMembers(b, I, J, b.anc(I), {}, TrsmKey(b, J, I));
      DistinctAppend([TrsmKey(b, J, I)], mine);
      forall k | k in [TrsmKey(b, J, I)] + mine
        ensures k !in rest
      {
        UpdateLoopMembers(b, I, J, b.anc(I), {}, k);
        TaskRowMembers(b, I, Js[1..], k);
      }
      DistinctAppend([TrsmKey(b, J, I)] + mine, rest);
    }
  }

  lemma {:induction false} TasksDistinct(b: Blocks, lo: nat, hi: nat)
    requires ValidBlocks(b) && 1 <= lo && hi <= b.n + 1
    ensures NoDuplicates(Tasks(b, lo, hi))
    decreases hi - lo
  {
    if lo < hi {
      var row := TaskRowLoop(b, lo, b.anc(lo));
      TasksDistinct(b, lo + 1, hi);
      TaskRowDistinct(b, lo, b.anc(lo));
      TaskRowMembers(b, lo, b.anc(lo), FactorKey(b, lo));
      DistinctAppend([FactorKey(b, lo)], row);
      forall k | k in [FactorKey(b, lo)] + row
        ensures k !in Tasks(b, lo + 1, hi)
      {
        TaskRowMembers(b, lo, b.anc(lo), k);
        TasksMembers(b, lo + 1, hi, k);
      }
      DistinctAppend([FactorKey(b, lo)] + row, Tasks(b, lo + 1, hi));
    }
  }

  /** The task stream holds every task exactly once. */
  lemma TasksCreatedOnce(b: Blocks)
    requires ValidBlocks(b)
    ensures NoDuplicates(AllTasks(b))
    ensures forall k :: k in AllTasks(b) <==> IsTask(b, k)
  {
    TasksDistinct(b, 1, b.n + 1);
    forall k
      ensures k in AllTasks(b) <==> IsTask(b, k)
    {
      TaskMembers(b, k);
    }
  }

  // ---------------------------------------------------------------------------------------------
  // The edges, one by one
  // ---------------------------------------------------------------------------------------------

  /** The task after which cell (K,J) holds its final value. */
  function FinalKey(b: Blocks, K: nat, J: nat): Key {
    if K == J then FactorKey(b, J) else TrsmKey(b, K, J)
  }

  /** What can be upstream of a task. */
  ghost predicate EdgeShape(b: Blocks, e: (Key, Key)) {
    var u, t := e.0, e.1;
    match t.op
    case FACTOR => u.op.UPDATE2D_COMP? && u.owner == t.owner
    case TRSM => u == FactorKey(b, t.src) || (u.op.UPDATE2D_COMP? && u.owner == t.owner)
    case DLT2D_COMP => u == FactorKey(b, t.src) || u == TrsmKey(b, t.cellJ, t.src)
    case UPDATE2D_COMP =>
      || u == TrsmKey(b, t.cellI, t.src)
      || u == TrsmKey(b, t.cellJ, t.src)
      || (b.ldl && u == DltKey(t.cellI, t.src, t.owner))
  }

  lemma HeadMsgShape(b: Blocks, I: nat, J: nat, m: Msg)
    requires m in HeadMsgs(b, I, J)
    ensures forall e <- Pushes(b, m) :: EdgeShape(b, e)
  {
  }

  lemma PairMsgShape(b: Blocks, I: nat, J: nat, K: nat, m: Msg)
    requires m in PairMsgs(b, I, J, K)
    ensures forall e <- Pushes(b, m) :: EdgeShape(b, e)
  {
  }

  lemma AggMsgShape(b: Blocks, I: nat, J: nat, K: nat, m: Msg)
    requires m in AggMsgs(b, I, J, K)
    ensures forall e <- Pushes(b, m) :: EdgeShape(b, e)
  {
  }

  lemma RowMsgShape(b: Blocks, I: nat, J: nat, m: Msg)
    requires RowMsg(b, I, J, m)
    ensures forall e <- Pushes(b, m) :: EdgeShape(b, e)
  {
    if m in HeadMsgs(b, I, J) {
      HeadMsgShape(b, I, J, m);
    } else {
      var K :| K in b.anc(I) && (m in PairMsgs(b, I, J, K) || m in AggMsgs(b, I, J, K));
      if m in PairMsgs(b, I, J, K) {
        PairMsgShape(b, I, J, K, m);
      } else {
        AggMsgShape(b, I, J, K, m);
      }
    }
  }

  lemma EdgeShapes(b: Blocks, e: (Key, Key))
    requires e in GraphOf(b).edges
    ensures EdgeShape(b, e)
  {
    var m := PushOrigin(b, AllMsgs(b), e);
    MsgsMembers(b, 1, b.n + 1, m);
    var I: nat :| 1 <= I < b.n + 1 && SnodeMsg(b, I, m);
    var J :| J in b.anc(I) && RowMsg(b, I, J, m);
    RowMsgShape(b, I, J, m);
  }

  lemma {:induction false} PushPresent(b: Blocks, ms: seq<Msg>, m: Msg, e: (Key, Key))
    requires m in ms && e in Pushes(b, m)
    ensures e in AllPushes(b, ms)
  {
    if ms[0] != m {
      PushPresent(b, ms[1..], m, e);
    }
  }

  lemma RowEdge(b: Blocks, I: nat, J: nat, m: Msg, e: (Key, Key))
    requires 1 <= I <= b.n && J in b.anc(I) && RowMsg(b, I, J, m) && e in Pushes(b, m)
    ensures e in GraphOf(b).edges
  {
    RowPresent(b, I, J, m);
    SnodePresent(b, I, m);
    PushPresent(b, AllMsgs(b), m, e);
  }

  lemma PairEdge(b: Blocks, I: nat, J: nat, K: nat, m: Msg, e: (Key, Key))
    requires 1 <= I <= b.n && J in b.anc(I) && K in b.anc(I) && m in PairMsgs(b, I, J, K) && e in Pushes(b, m)
    ensures e in GraphOf(b).edges
  {
    assert RowMsg(b, I, J, m);
    RowEdge(b, I, J, m, e);
  }

  /** The edges that a supernode J below column I adds. */
  lemma TrsmEdge(b: Blocks, I: nat, J: nat)
    requires 1 <= I <= b.n && J in b.anc(I)
    ensures (FactorKey(b, I), TrsmKey(b, J, I)) in GraphOf(b).edges
  {
    var m := HeadMsgs(b, I, J)[0];
    assert Pushes(b, m) == [(FactorKey(b, I), TrsmKey(b, J, I))];
    RowEdge(b, I, J, m, (FactorKey(b, I), TrsmKey(b, J, I)));
  }

  lemma PivotEdge(b: Blocks, I: nat, J: nat, K: nat)
    requires 1 <= I <= b.n && J in b.anc(I) && K in b.anc(I) && K >= J
    ensures (TrsmKey(b, J, I), UpdateKey(b, K, J, I)) in GraphOf(b).edges
    ensures b.ldl ==> (TrsmKey(b, J, I), DltKey(J, I, b.own(K, J))) in GraphOf(b).edges
    ensures b.ldl ==> (DltKey(J, I, b.own(K, J)), UpdateKey(b, K, J, I)) in GraphOf(b).edges
  {
    var x, y := PairMsgs(b, I, J, K)[0], PairMsgs(b, I, J, K)[1];
    PairEdge(b, I, J, K, x, (TrsmKey(b, J, I), UpdateKey(b, K, J, I)));
    if b.ldl {
      PairEdge(b, I, J, K, x, (TrsmKey(b, J, I), DltKey(J, I, b.own(K, J))));
      PairEdge(b, I, J, K, y, (DltKey(J, I, b.own(K, J)), UpdateKey(b, K, J, I)));
    }
  }

  lemma FacingEdge(b: Blocks, I: nat, J: nat, K: nat)
    requires 1 <= I <= b.n && J in b.anc(I) && K in b.anc(I) && K >= J
    ensures (TrsmKey(b, K, I), UpdateKey(b, K, J, I)) in GraphOf(b).edges
    ensures b.ldl ==> (FactorKey(b, I), DltKey(J, I, b.own(K, J))) in GraphOf(b).edges
  {
    var x := Msg(b.own(K, I), I, J, UPDATE2D_SEND, J, K);
    assert x in PairMsgs(b, I, K, J);
    PairEdge(b, I, K, J, x, (TrsmKey(b, K, I), UpdateKey(b, K, J, I)));
    if b.ldl {
      var y := Msg(b.own(I, I), I, J, UPDATE2D_DIAG_SEND, J, K);
      assert y in PairMsgs(b, I, K, J);
      PairEdge(b, I, K, J, y, (FactorKey(b, I), DltKey(J, I, b.own(K, J))));
    }
  }

  lemma AggregateEdge(b: Blocks, I: nat, J: nat, K: nat)
    requires 1 <= I <= b.n && J in b.anc(I) && K in b.anc(I) && K >= J
    ensures (UpdateKey(b, K, J, I), FinalKey(b, K, J)) in GraphOf(b).edges
  {
    var m := AggMsgs(b, I, J, K)[0];
    AggRowMsg(b, I, J, K, m);
    RowEdge(b, I, J, m, (UpdateKey(b, K, J, I), FinalKey(b, K, J)));
  }

  // ---------------------------------------------------------------------------------------------
  // Two different cells feed an update once each, one cell alone feeds it twice
  // ---------------------------------------------------------------------------------------------

  /** The edge from cell (X,I) to the update that combines it with cell (Y,I). */
  function OperandEdge(b: Blocks, I: nat, X: nat, Y: nat): (Key, Key) {
    (TrsmKey(b, X, I), if X <= Y then UpdateKey(b, Y, X, I) else UpdateKey(b, X, Y, I))
  }

  function Weight(X: nat, Y: nat): nat { if X == Y then 2 else 1 }

  ghost function Times(b: Blocks, ms: seq<Msg>, e: (Key, Key)): nat { multiset(AllPushes(b, ms))[e] }

  lemma TimesAppend(b: Blocks, xs: seq<Msg>, ys: seq<Msg>, e: (Key, Key))
    ensures Times(b, xs + ys, e) == Times(b, xs, e) + Times(b, ys, e)
  {
    PushesAppend(b, xs, ys);
  }

  lemma TimesTwo(b: Blocks, x: Msg, y: Msg, e: (Key, Key))
    ensures Times(b, [x, y], e) == multiset(Pushes(b, x))[e] + multiset(Pushes(b, y))[e]
  {
    TwoMessages(b, x, y);
  }

  lemma PivotTimes(b: Blocks, I: nat, X: nat, Y: nat, I': nat, J: nat, K: nat, x: Msg, y: Msg)
    requires K >= J
    requires x == Msg(b.own(J, I'), I', J, UPDATE2D_SEND_OD, K, J)
    requires y == Msg(b.own(K, J), I', J, UPDATE2D_RECV_OD, K, J)
    ensures Times(b, [x, y], OperandEdge(b, I, X, Y)) == if I' == I && J == X && K == Y then 1 else 0
  {
    TimesTwo(b, x, y, OperandEdge(b, I, X, Y));
  }

  lemma FacingTimes(b: Blocks, I: nat, X: nat, Y: nat, I': nat, J: nat, K: nat, x: Msg, y: Msg)
    requires K <= J
    requires x == Msg(b.own(J, I'), I', K, UPDATE2D_SEND, K, J)
    requires y == Msg(b.own(J, K), I', K, UPDATE2D_RECV, K, J)
    ensures Times(b, [x, y], OperandEdge(b, I, X, Y)) == if I' == I && J == X && K == Y then 1 else 0
  {
    TimesTwo(b, x, y, OperandEdge(b, I, X, Y));
  }

  lemma DiagTimes(b: Blocks, I': nat, J: nat, K: nat, x: Msg, y: Msg, e: (Key, Key))
    requires e.0.op.TRSM?
    requires x == Msg(b.own(I', I'), I', K, UPDATE2D_DIAG_SEND, K, J)
    requires y == Msg(b.own(J, K), I', K, UPDATE2D_DIAG_RECV, K, J)
    ensures Times(b, [x, y], e) == 0
  {
    TimesTwo(b, x, y, e);
  }

  lemma PairTimes(b: Blocks, I: nat, X: nat, Y: nat, I': nat, J: nat, K: nat)
    ensures Times(b, PairMsgs(b, I', J, K), OperandEdge(b, I, X, Y)) == if I' == I && J == X && K == Y then Weight(X, Y) else 0
  {
    var e := OperandEdge(b, I, X, Y);
    var od := if K >= J then
      [Msg(b.own(J, I'), I', J, UPDATE2D_SEND_OD, K, J), Msg(b.own(K, J), I', J, UPDATE2D_RECV_OD, K, J)] else [];
    var up := if K <= J then
      [Msg(b.own(J, I'), I', K, UPDATE2D_SEND, K, J), Msg(b.own(J, K), I', K, UPDATE2D_RECV, K, J)] else [];
    var diag := if K <= J && b.ldl then
      [Msg(b.own(I', I'), I', K, UPDATE2D_DIAG_SEND, K, J), Msg(b.own(J, K), I', K, UPDATE2D_DIAG_RECV, K, J)] else [];
    if K >= J {
      PivotTimes(b, I, X, Y, I', J, K, od[0], od[1]);
    }
    if K <= J {
      FacingTimes(b, I, X, Y, I', J, K, up[0], up[1]);
      if b.ldl {
        DiagTimes(b, I', J, K, diag[0], diag[1], e);
      }
    }
    TimesAppend(b, up, diag, e);
    TimesAppend(b, od, up + diag, e);
    PairParts(b, I', J, K, od, up, diag);
  }

  lemma PairParts(b: Blocks, I: nat, J: nat, K: nat, od: seq<Msg>, up: seq<Msg>, diag: seq<Msg>)
    requires od == if K >= J then
      [Msg(b.own(J, I), I, J, UPDATE2D_SEND_OD, K, J), Msg(b.own(K, J), I, J, UPDATE2D_RECV_OD, K, J)] else []
    requires up == if K <= J then
      [Msg(b.own(J, I), I, K, UPDATE2D_SEND, K, J), Msg(b.own(J, K), I, K, UPDATE2D_RECV, K, J)] else []
    requires diag == if K <= J && b.ldl then
      [Msg(b.own(I, I), I, K, UPDATE2D_DIAG_SEND, K, J), Msg(b.own(J, K), I, K, UPDATE2D_DIAG_RECV, K, J)] else []
    ensures PairMsgs(b, I, J, K) == od + (up + diag)
  {
  }

  lemma {:induction false} PairLoopTimes(b: Blocks, I: nat, X: nat, Y: nat, I': nat, J: nat, Ks: seq<nat>)
    requires Increasing(Ks)
    ensures Times(b, PairLoop(b, I', J, Ks), OperandEdge(b, I, X, Y)) == if I' == I && J == X && Y in Ks then Weight(X, Y) else 0
  {
    if Ks != [] {
      PairTimes(b, I, X, Y, I', J, Ks[0]);
      PairLoopTimes(b, I, X, Y, I', J, Ks[1..]);
      TimesAppend(b, PairMsgs(b, I', J, Ks[0]), PairLoop(b, I', J, Ks[1..]), OperandEdge(b, I, X, Y));
      assert Ks == [Ks[0]] + Ks[1..];
    }
  }

  lemma AggTimes(b: Blocks, I': nat, J: nat, K: nat, e: (Key, Key))
    requires e.0.op.TRSM?
    ensures Times(b, AggMsgs(b, I', J, K), e) == 0
  {
    var ms := AggMsgs(b, I', J, K);
    if K >= J {
      TimesTwo(b, ms[0], ms[1], e);
      assert ms == [ms[0], ms[1]];
    }
  }

  lemma {:induction false} AggLoopTimes(b: Blocks, I': nat, J: nat, Ks: seq<nat>, e: (Key, Key))
    requires e.0.op.TRSM?
    ensures Times(b, AggLoop(b, I', J, Ks), e) == 0
  {
    if Ks != [] {
      AggTimes(b, I', J, Ks[0], e);
      AggLoopTimes(b, I', J, Ks[1..], e);
      TimesAppend(b, AggMsgs(b, I', J, Ks[0]), AggLoop(b, I', J, Ks[1..]), e);
    }
  }

  lemma RowTimes(b: Blocks, I: nat, X: nat, Y: nat, I': nat, J: nat)
    requires Increasing(b.anc(I'))
    ensures Times(b, RowMsgs(b, I', J), OperandEdge(b, I, X, Y)) == if I' == I && J == X && Y in b.anc(I) then Weight(X, Y) else 0
  {
    var e := OperandEdge(b, I, X, Y);
    var head := HeadMsgs(b, I', J);
    TimesTwo(b, head[0], head[1], e);
    PairLoopTimes(b, I, X, Y, I', J, b.anc(I'));
    AggLoopTimes(b, I', J, b.anc(I'), e);
    TimesAppend(b, head, PairLoop(b, I', J, b.anc(I')), e);
    TimesAppend(b, head + PairLoop(b, I', J, b.anc(I')), AggLoop(b, I', J, b.anc(I')), e);
  }

  lemma {:induction false} RowLoopTimes(b: Blocks, I: nat, X: nat, Y: nat, I': nat, Js: seq<nat>)
    requires Increasing(b.anc(I')) && Increasing(Js)
    ensures Times(b, RowLoop(b, I', Js), OperandEdge(b, I, X, Y)) == if I' == I && X in Js && Y in b.anc(I) then Weight(X, Y) else 0
  {
    if Js != [] {
      RowTimes(b, I, X, Y, I', Js[0]);
      RowLoopTimes(b, I, X, Y, I', Js[1..]);
      TimesAppend(b, RowMsgs(b, I', Js[0]), RowLoop(b, I', Js[1..]), OperandEdge(b, I, X, Y));
      assert Js == [Js[0]] + Js[1..];
    }
  }

  lemma SnodeTimes(b: Blocks, I: nat, X: nat, Y: nat, I': nat)
    requires ValidBlocks(b) && 1 <= I' <= b.n && X in b.anc(I) && Y in b.anc(I)
    ensures Times(b, RowLoop(b, I', b.anc(I')), OperandEdge(b, I, X, Y)) == if I' == I then Weight(X, Y) else 0
  {
    RowLoopTimes(b, I, X, Y, I', b.anc(I'));
  }

  ghost function SnodeCount(b: Blocks, I: nat, e: (Key, Key)): nat { Times(b, RowLoop(b, I, b.anc(I)), e) }

  ghost function SnodeCounts(b: Blocks, lo: nat, hi: nat, e: (Key, Key)): nat
    decreases hi - lo
  {
    if lo >= hi then 0 else SnodeCount(b, lo, e) + SnodeCounts(b, lo + 1, hi, e)
  }

  lemma {:induction false} MsgsTimes(b: Blocks, lo: nat, hi: nat, e: (Key, Key))
    ensures Times(b, Msgs(b, lo, hi), e) == SnodeCounts(b, lo, hi, e)
    decreases hi - lo
  {
    if lo < hi {
      MsgsTimes(b, lo + 1, hi, e);
      TimesUnfold(b, lo, hi, e);
    } else {
      NoTimes(b, lo, hi, e);
    }
  }

  /** An edge that only one supernode pushes is pushed as often as that supernode pushes it. */
  lemma {:induction false} OneSnodeCounts(b: Blocks, I: nat, lo: nat, hi: nat, e: (Key, Key), w: nat)
    requires forall I': nat :: lo <= I' < hi ==> SnodeCount(b, I', e) == if I' == I then w else 0
    ensures SnodeCounts(b, lo, hi, e) == if lo <= I < hi then w else 0
    decreases hi - lo
  {
    if lo < hi {
      OneSnodeCounts(b, I, lo + 1, hi, e, w);
      assert SnodeCount(b, lo, e) == if lo == I then w else 0;
    }
  }

  lemma TimesUnfold(b: Blocks, lo: nat, hi: nat, e: (Key, Key))
    requires lo < hi
    ensures Times(b, Msgs(b, lo, hi), e) == Times(b, RowLoop(b, lo, b.anc(lo)), e) + Times(b, Msgs(b, lo + 1, hi), e)
  {
    MsgsUnfold(b, lo, hi);
    TimesAppend(b, RowLoop(b, lo, b.anc(lo)), Msgs(b, lo + 1, hi), e);
  }

  lemma MsgsUnfold(b: Blocks, lo: nat, hi: nat)
    requires lo < hi
    ensures Msgs(b, lo, hi) == RowLoop(b, lo, b.anc(lo)) + Msgs(b, lo + 1, hi)
  {
  }

  lemma NoTimes(b: Blocks, lo: nat, hi: nat, e: (Key, Key))
    requires lo >= hi
    ensures Times(b, Msgs(b, lo, hi), e) == 0
  {
  }

  lemma {:induction false} InTimes(g: Graph<Key>, edges: seq<(Key, Key)>, s: Key, t: Key)
    ensures multiset(In(g, edges, t, g.owner(s) == g.owner(t)))[s] == multiset(edges)[(s, t)]
  {
    if edges != [] {
      InTimes(g, edges[1..], s, t);
      assert edges == [edges[0]] + edges[1..];
    }
  }

  lemma SnodeTimesAll(b: Blocks, I: nat, X: nat, Y: nat, e: (Key, Key))
    requires ValidBlocks(b) && X in b.anc(I) && Y in b.anc(I)
    requires e == OperandEdge(b, I, X, Y)
    ensures forall I': nat :: 1 <= I' < b.n + 1 ==> SnodeCount(b, I', e) == if I' == I then Weight(X, Y) else 0
  {
    forall I': nat | 1 <= I' < b.n + 1
      ensures SnodeCount(b, I', e) == if I' == I then Weight(X, Y) else 0
    {
      SnodeTimes(b, I, X, Y, I');
    }
  }

  lemma OneSnode(b: Blocks, I: nat, e: (Key, Key), w: nat)
    requires 1 <= I <= b.n
    requires forall I': nat :: 1 <= I' < b.n + 1 ==> SnodeCount(b, I', e) == if I' == I then w else 0
    ensures multiset(GraphOf(b).edges)[e] == w
  {
    OneSnodeCounts(b, I, 1, b.n + 1, e, w);
    MsgsTimes(b, 1, b.n + 1, e);
    assert AllPushes(b, Msgs(b, 1, b.n + 1)) == GraphOf(b).edges;
  }

  lemma OperandCount(b: Blocks, I: nat, X: nat, Y: nat, e: (Key, Key))
    requires ValidBlocks(b) && 1 <= I <= b.n && X in b.anc(I) && Y in b.anc(I)
    requires e == OperandEdge(b, I, X, Y)
    ensures multiset(Preds(GraphOf(b), e.1, e.0.owner == e.1.owner))[e.0] == Weight(X, Y)
  {
    SnodeTimesAll(b, I, X, Y, e);
    OneSnode(b, I, e, Weight(X, Y));
    InTimes(GraphOf(b), GraphOf(b).edges, e.0, e.1);
  }
}
