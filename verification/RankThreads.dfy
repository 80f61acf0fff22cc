/** The threads of one rank at work on the tasks of the factorization: what a running task reads or writes no
    other running task writes. */
module RankThreads {
  import L = ThreadLocks
  import R = ThreadRuns
  import opened TaskProtocol
  import opened TaskGraph

  type Lock = (nat, nat)

  /** TRSM and UPDATE tasks lock the cell that they write; FACTOR and DLT tasks have no lock. */
  function LockOf(k: Key): L.Option<Lock> {
    if k.op.TRSM? || k.op.UPDATE2D_COMP? then L.Some((k.cellJ, k.cellI)) else L.None
  }

  ghost function LocalPreds(b: Blocks, t: Key): set<Key> { set u | u in Preds(GraphOf(b), t, true) }

  /** The tasks of rank r, each waiting for its predecessors on the rank; input from other ranks may arrive at
      any moment. */
  ghost function RankSystem(b: Blocks, r: nat, workers: nat, recheck: bool): L.System<Key, Lock> {
    L.System((set k | k in GraphOf(b).tasks && k.owner == r), LockOf, (t => LocalPreds(b, t)), workers, recheck)
  }

  /** What a task writes or reads on its rank: a cell, or the product of a cell with D. */
  datatype Datum = Cell(K: nat, J: nat) | Product(J: nat, I: nat)

  function Written(k: Key): Datum {
    if k.op.DLT2D_COMP? then Product(k.cellI, k.src) else Cell(k.cellJ, k.cellI)
  }

  /** Copies fetched from other ranks are written by no task and left out. */
  ghost function Read(b: Blocks, k: Key): set<Datum> {
    var I := k.src;
    match k.op
    case FACTOR => {}
    case TRSM => OwnCell(b, k, I, I)
    case DLT2D_COMP => OwnCell(b, k, I, I) + OwnCell(b, k, k.cellI, I)
    case UPDATE2D_COMP =>
      OwnCell(b, k, k.cellI, I) + OwnCell(b, k, k.cellJ, I) + if b.ldl then {Product(k.cellI, I)} else {}
  }

  function OwnCell(b: Blocks, k: Key, K: nat, J: nat): set<Datum> {
    if b.own(K, J) == k.owner then {Cell(K, J)} else {}
  }

  // ---------------------------------------------------------------------------------------------
  // What has ended when a task runs
  // ---------------------------------------------------------------------------------------------

  ghost predicate Started(b: Blocks, r: nat, sys: L.System<Key, Lock>, s: L.State<Key, Lock>, t: Key) {
    && sys.tasks == RankSystem(b, r, 0, false).tasks && sys.preds == RankSystem(b, r, 0, false).preds
    && s.place.Keys == sys.tasks && L.OrderInv(sys, s)
    && t in sys.tasks && !s.place[t].Waiting?
  }

  /** The predecessors of a task on its rank have ended when the task starts. */
  lemma UpstreamPassed(b: Blocks, r: nat, sys: L.System<Key, Lock>, s: L.State<Key, Lock>, u: Key, t: Key)
    requires Started(b, r, sys, s, t) && (u, t) in GraphOf(b).edges && u.owner == r
    ensures u in s.place && L.Passed(s.place[u])
  {
    InMembers(GraphOf(b), GraphOf(b).edges, t, true);
    assert u in LocalPreds(b, t) && L.PredsPassed(sys, s, t);
  }

  lemma KnownTask(b: Blocks, r: nat, t: Key)
    requires t in RankSystem(b, r, 0, false).tasks
    ensures IsTask(b, t) && t.owner == r
  {
    TaskMembers(b, t);
  }

  /** Once the final task of a cell has started, all updates of the cell have ended. */
  lemma UpdatesPassed(b: Blocks, r: nat, sys: L.System<Key, Lock>, s: L.State<Key, Lock>, K: nat, J: nat, u: Key)
    requires ValidBlocks(b) && Started(b, r, sys, s, FinalKey(b, K, J)) && u in sys.tasks && Written(u) == Cell(K, J)
    ensures u == FinalKey(b, K, J) || L.Passed(s.place[u])
  {
    KnownTask(b, r, u);
    if u.op.UPDATE2D_COMP? {
      AggregateEdge(b, u.src, J, K);
      UpstreamPassed(b, r, sys, s, u, FinalKey(b, K, J));
    }
  }

  /** The task that finishes what t reads is upstream of t. */
  lemma ReadUpstream(b: Blocks, r: nat, t: Key, K: nat, J: nat)
    requires ValidBlocks(b) && IsTask(b, t) && t.owner == r && Cell(K, J) in Read(b, t)
    ensures (FinalKey(b, K, J), t) in GraphOf(b).edges && FinalKey(b, K, J).owner == r
  {
    var I := t.src;
    match t.op
    case FACTOR =>
    case TRSM => TrsmEdge(b, I, t.cellJ);
    case DLT2D_COMP =>
      var X :| X in b.anc(I) && X >= t.cellI && b.own(X, t.cellI) == t.owner;
      PivotEdge(b, I, t.cellI, X);
      FacingEdge(b, I, t.cellI, X);
    case UPDATE2D_COMP =>
      PivotEdge(b, I, t.cellI, t.cellJ);
      FacingEdge(b, I, t.cellI, t.cellJ);
  }

  /** Nobody writes what a running task reads. */
  lemma ReadIsQuiet(b: Blocks, r: nat, sys: L.System<Key, Lock>, s: L.State<Key, Lock>, t: Key, u: Key)
    requires ValidBlocks(b) && Started(b, r, sys, s, t) && u in sys.tasks && Written(u) in Read(b, t)
    ensures L.Passed(s.place[u])
  {
    KnownTask(b, r, t);
    KnownTask(b, r, u);
    match Written(u)
    case Cell(K, J) =>
      ReadUpstream(b, r, t, K, J);
      UpstreamPassed(b, r, sys, s, FinalKey(b, K, J), t);
      UpdatesPassed(b, r, sys, s, K, J, u);
    case Product(J, I) =>
      PivotEdge(b, I, J, t.cellJ);
      UpstreamPassed(b, r, sys, s, u, t);
  }

  /** Two running tasks write different data: updates of one cell share its lock, and the FACTOR or TRSM task of
      a cell starts after the updates of the cell have ended. */
  lemma WritesApart(b: Blocks, r: nat, sys: L.System<Key, Lock>, s: L.State<Key, Lock>, t: Key, u: Key)
    requires ValidBlocks(b) && Started(b, r, sys, s, t) && Started(b, r, sys, s, u) && sys.lock == LockOf && L.LockInv(sys, s)
    requires s.place[t].Running? && s.place[u].Running? && Written(t) == Written(u)
    ensures t == u
  {
    KnownTask(b, r, t);
    KnownTask(b, r, u);
    if Written(t).Cell? && !(t.op.UPDATE2D_COMP? && u.op.UPDATE2D_COMP?) {
      var final := FinalKey(b, t.cellJ, t.cellI);
      assert final == t || final == u;
      UpdatesPassed(b, r, sys, s, t.cellJ, t.cellI, t);
      UpdatesPassed(b, r, sys, s, t.cellJ, t.cellI, u);
    }
  }

  // ---------------------------------------------------------------------------------------------
  // Whole runs
  // ---------------------------------------------------------------------------------------------

  lemma LocalPred(b: Blocks, r: nat, t: Key, u: Key)
    requires ValidBlocks(b) && FillClosed(b) && t in RankSystem(b, r, 0, false).tasks && u in LocalPreds(b, t)
    ensures u in RankSystem(b, r, 0, false).tasks && TaskRank(u) < TaskRank(t)
  {
    InMembers(GraphOf(b), GraphOf(b).edges, t, true);
    GraphEdge(b, (u, t));
    TaskMembers(b, u);
  }

  lemma RankOrdered(b: Blocks, r: nat, workers: nat, recheck: bool)
    requires ValidBlocks(b) && FillClosed(b)
    ensures R.Ordered(RankSystem(b, r, workers, recheck), TaskRank)
  {
    forall t, u | t in RankSystem(b, r, workers, recheck).tasks && u in LocalPreds(b, t)
      ensures u in RankSystem(b, r, workers, recheck).tasks && TaskRank(u) < TaskRank(t)
    {
      LocalPred(b, r, t, u);
    }
  }

  /** Every run of the threads of any rank on the factorization, LL or LDL: two tasks that run at once neither
      write the same cell or product nor read what the other writes. */
  lemma NoRaces(b: Blocks, r: nat, workers: nat, recheck: bool, steps: seq<L.Step<Key>>, s: L.State<Key, Lock>, t: Key, u: Key)
    requires ValidBlocks(b) && FillClosed(b) && workers > 0
    requires R.Run(RankSystem(b, r, workers, recheck), L.Init(RankSystem(b, r, workers, recheck)), steps, s)
    requires t in s.place && u in s.place && t != u && s.place[t].Running? && s.place[u].Running?
    ensures Written(t) != Written(u) && Written(u) !in Read(b, t)
  {
    var sys := RankSystem(b, r, workers, recheck);
    RankOrdered(b, r, workers, recheck);
    R.EveryRun(sys, TaskRank, steps, s);
    if Written(u) in Read(b, t) {
      ReadIsQuiet(b, r, sys, s, t, u);
    }
    if Written(t) == Written(u) {
      WritesApart(b, r, sys, s, t, u);
    }
  }

  ghost predicate OwnsNothing(b: Blocks, r: nat) {
    forall K: nat, J: nat :: 1 <= J <= b.n && (K == J || K in b.anc(J)) ==> b.own(K, J) != r
  }

  /** A rank has tasks exactly when it owns a cell. */
  lemma TasksOfOwner(b: Blocks, r: nat)
    requires ValidBlocks(b) && FillClosed(b)
    ensures OwnsNothing(b, r) <==> RankSystem(b, r, 0, false).tasks == {}
  {
    if t :| t in RankSystem(b, r, 0, false).tasks {
      KnownTask(b, r, t);
      CellOfTask(b, t);
    }
    if K: nat, J: nat :| 1 <= J <= b.n && (K == J || K in b.anc(J)) && b.own(K, J) == r {
      TaskMembers(b, FinalKey(b, K, J));
      assert FinalKey(b, K, J) in RankSystem(b, r, 0, false).tasks;
    }
  }

  lemma CellOfTask(b: Blocks, t: Key)
    requires ValidBlocks(b) && FillClosed(b) && IsTask(b, t)
    ensures !OwnsNothing(b, t.owner)
  {
    if t.op.DLT2D_COMP? {
      var X :| X in b.anc(t.src) && X >= t.cellI && b.own(X, t.cellI) == t.owner;
      assert X == t.cellI || X in b.anc(t.cellI);
    } else {
      assert t.cellJ == t.cellI || t.cellJ in b.anc(t.cellI);
    }
  }

  /** The threads of a rank finish all its tasks in every run that ends exactly when workers poll once more
      after they have seen `done`, or the rank owns no cell. */
  lemma RankFinishesIff(b: Blocks, r: nat, workers: nat, recheck: bool)
    requires ValidBlocks(b) && FillClosed(b) && workers > 0
    ensures R.AllRunsFinish(RankSystem(b, r, workers, recheck)) <==> recheck || OwnsNothing(b, r)
  {
    RankOrdered(b, r, workers, recheck);
    R.AllRunsFinishIff(RankSystem(b, r, workers, recheck), TaskRank);
    TasksOfOwner(b, r);
  }
}
