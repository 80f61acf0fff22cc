/** The whole factorization: all ranks with their threads, the messages between them, and the data.

    A state joins that of the scheduler over all ranks, one thread state per rank, and the values that the running
    tasks have computed.  A task is taken over by the threads of its rank when its counter has come down to zero;
    it computes from what it finds when a worker starts it, and writes, tells its targets and leaves the scheduler
    when its body ends.  Between start and end any other task may run, on any thread and any rank. */
module ThreadedFactorization {
  import L = ThreadLocks
  import R = ThreadRuns
  import T = RankThreads
  import F = Factorization
  import opened TaskProtocol
  import opened TaskGraph

  /** The number of workers of every rank, and whether they poll once more after `done`. */
  datatype Setup = Setup(workers: nat, recheck: bool)

  datatype CState<!V> = CState(d: F.DState<V>, th: seq<L.State<Key, T.Lock>>, val: map<Key, V>)

  datatype CStep =
    | Net(step: Step<Key>)                  // a message, a get or a procedure call
    | Thread(r: nat, work: L.Step<Key>)     // the threads of rank r

  ghost function SysOf(b: Blocks, u: Setup, r: nat): L.System<Key, T.Lock> { T.RankSystem(b, r, u.workers, u.recheck) }

  /** What task t computes from memory m and its input messages, and where it goes. */
  function Computed<V>(p: F.Problem<V>, m: F.Memory<V>, t: Key, inputs: seq<Obj<Key>>): V {
    var m' := F.RunTask(p, m, t, inputs);
    if t.op.DLT2D_COMP? then F.Read(m'.bufs, t, p.alg.unset) else F.Read(m'.cells, F.CellOf(t), p.alg.unset)
  }

  function Store<V>(m: F.Memory<V>, t: Key, v: V): F.Memory<V> {
    if t.op.DLT2D_COMP? then m.(bufs := m.bufs[t := v]) else m.(cells := m.cells[F.CellOf(t) := v])
  }

  ghost predicate Shaped<V(!new)>(b: Blocks, u: Setup, s: CState<V>) {
    && Keyed(GraphOf(b), s.d.ctl) && |s.th| == b.np
    && forall r :: 0 <= r < b.np ==> L.Shape(SysOf(b, u, r), s.th[r])
  }

  ghost predicate CEnabled<V(!new)>(b: Blocks, u: Setup, s: CState<V>, step: CStep)
    requires Shaped(b, u, s)
  {
    match step
    case Net(n) => !n.Execute? && Known(GraphOf(b), n) && Enabled(GraphOf(b), s.d.ctl, n)
    case Thread(r, l) => r < b.np && L.Enabled(SysOf(b, u, r), s.th[r], l) && (l.Arrive? ==> l.t in s.d.ctl.ready)
  }

  /** What the threads of rank r do to the scheduler and the data. */
  ghost function AfterThread<V(!new)>(p: F.Problem<V>, s: CState<V>, r: nat, l: L.Step<Key>, th: L.State<Key, T.Lock>): CState<V>
    requires r < |s.th| && Keyed(GraphOf(p.b), s.d.ctl)
  {
    var s1 := s.(th := s.th[r := th]);
    if l.Take? && l.w < |s.th[r].box| && s.th[r].box[l.w] != [] then
      var t := s.th[r].box[l.w][0];
      s1.(val := s.val[t := Computed(p, s.d.mem, t, if t in s.d.ctl.inputMsg then s.d.ctl.inputMsg[t] else [])])
    else if l.Release? && l.t in s.val then
      s1.(d := F.DState(AfterExecute(GraphOf(p.b), s.d.ctl, l.t), Store(s.d.mem, l.t, s.val[l.t])))
    else s1
  }

  ghost function CApply<V(!new)>(p: F.Problem<V>, u: Setup, s: CState<V>, step: CStep): CState<V>
    requires Shaped(p.b, u, s) && CEnabled(p.b, u, s, step)
  {
    match step
    case Net(n) => s.(d := F.ApplyData(p, s.d, n))
    case Thread(r, l) => AfterThread(p, s, r, l, L.Apply(SysOf(p.b, u, r), s.th[r], l))
  }

  ghost predicate CRun<V(!new)>(p: F.Problem<V>, u: Setup, s: CState<V>, steps: seq<CStep>, s': CState<V>)
    decreases |steps|
  {
    if steps == [] then s' == s
    else Shaped(p.b, u, s) && CEnabled(p.b, u, s, steps[0]) && CRun(p, u, CApply(p, u, s, steps[0]), steps[1..], s')
  }

  ghost function CStart<V>(b: Blocks, u: Setup, d: F.DState<V>): CState<V> {
    CState(d, seq(b.np, r requires 0 <= r => L.Init(SysOf(b, u, r))), map[])
  }

  // ---------------------------------------------------------------------------------------------
  // What a ready task computes
  // ---------------------------------------------------------------------------------------------

  /** The value that the sequential order gives a task; an update adds its product to what its cell holds. */
  function Expected<V>(p: F.Problem<V>, m: F.Memory<V>, t: Key): V {
    match t.op
    case FACTOR => F.Fin(p, t.cellJ, t.cellI)
    case TRSM => F.Fin(p, t.cellJ, t.cellI)
    case DLT2D_COMP => p.alg.dlt(p.alg.diagOf(F.Fin(p, t.src, t.src)), F.Fin(p, t.cellI, t.src))
    case UPDATE2D_COMP => p.alg.update(F.Read(m.cells, F.CellOf(t), p.alg.unset), F.Pivot(p, t.cellI, t.src), F.Fin(p, t.cellJ, t.src))
  }

  lemma StoreComputed<V(!new)>(p: F.Problem<V>, m: F.Memory<V>, t: Key, inputs: seq<Obj<Key>>)
    ensures F.RunTask(p, m, t, inputs) == Store(m, t, Computed(p, m, t, inputs))
  {
  }

  lemma ReadyComputes<V(!new)>(p: F.Problem<V>, d: F.DState<V>, t: Key)
    requires F.Good(p, d) && t in d.ctl.ready
    ensures t in d.ctl.inputMsg && Computed(p, d.mem, t, d.ctl.inputMsg[t]) == Expected(p, d.mem, t)
  {
    F.KnownTask(p.b, d.ctl, t);
    match t.op
    case FACTOR => F.FactorRuns(p, d, t.src);
    case TRSM => F.TrsmRuns(p, d, t.cellJ, t.src);
    case DLT2D_COMP => F.DltRuns(p, d, t);
    case UPDATE2D_COMP => F.UpdateRuns(p, d, t);
  }

  // ---------------------------------------------------------------------------------------------
  // The invariant
  // ---------------------------------------------------------------------------------------------

  /** The threads and the scheduler agree on what has ended, and have in hand only what is ready. */
  ghost predicate Linked(ctl: State<Key>, th: L.State<Key, T.Lock>, t: Key)
    requires t in th.place
  {
    && (L.Passed(th.place[t]) <==> t in ctl.log)
    && (!th.place[t].Waiting? ==> t in ctl.ready || t in ctl.log)
  }

  /** A running task has computed what it would compute now. */
  ghost predicate ValueOk<V>(p: F.Problem<V>, m: F.Memory<V>, val: map<Key, V>, th: L.State<Key, T.Lock>, t: Key)
    requires t in th.place
  {
    th.place[t].Running? ==> t in val && val[t] == Expected(p, m, t)
  }

  ghost predicate TasksOk<V(!new)>(p: F.Problem<V>, u: Setup, s: CState<V>, r: nat)
    requires r < |s.th|
  {
    forall t <- SysOf(p.b, u, r).tasks ::
      t in s.th[r].place && Linked(s.d.ctl, s.th[r], t) && ValueOk(p, s.d.mem, s.val, s.th[r], t)
  }

  /** The threads of every rank keep their invariant. */
  ghost predicate ThreadsOk(b: Blocks, u: Setup, th: seq<L.State<Key, T.Lock>>) {
    |th| == b.np && forall r :: 0 <= r < b.np ==> L.Inv(SysOf(b, u, r), th[r])
  }

  ghost predicate AllTasksOk<V(!new)>(p: F.Problem<V>, u: Setup, s: CState<V>) {
    |s.th| == p.b.np && forall r :: 0 <= r < p.b.np ==> TasksOk(p, u, s, r)
  }

  ghost predicate CInv<V(!new)>(p: F.Problem<V>, u: Setup, s: CState<V>) {
    F.Good(p, s.d) && ThreadsOk(p.b, u, s.th) && AllTasksOk(p, u, s)
  }

  lemma ThreadsShaped(b: Blocks, u: Setup, th: seq<L.State<Key, T.Lock>>, r: nat)
    requires ThreadsOk(b, u, th) && r < b.np
    ensures r < |th| && L.Shape(SysOf(b, u, r), th[r]) && L.LockInv(SysOf(b, u, r), th[r])
  {
    assert L.Inv(SysOf(b, u, r), th[r]);
  }

  lemma InvShaped<V(!new)>(p: F.Problem<V>, u: Setup, s: CState<V>)
    requires F.Good(p, s.d) && ThreadsOk(p.b, u, s.th)
    ensures Shaped(p.b, u, s)
  {
    forall r | 0 <= r < p.b.np
      ensures L.Shape(SysOf(p.b, u, r), s.th[r])
    {
      ThreadsShaped(p.b, u, s.th, r);
    }
  }

  lemma StartTasks<V(!new)>(p: F.Problem<V>, u: Setup, d: F.DState<V>, r: nat)
    requires F.StartData(p, d) && r < p.b.np
    ensures TasksOk(p, u, CStart(p.b, u, d), r)
  {
  }

  lemma StartThreads<V(!new)>(b: Blocks, u: Setup, d: F.DState<V>)
    ensures ThreadsOk(b, u, CStart(b, u, d).th)
  {
    forall r | 0 <= r < b.np
      ensures L.Inv(SysOf(b, u, r), CStart(b, u, d).th[r])
    {
      L.InitInv(SysOf(b, u, r));
    }
  }

  lemma StartInv<V(!new)>(p: F.Problem<V>, u: Setup, d: F.DState<V>)
    requires ValidBlocks(p.b) && FillClosed(p.b) && F.Commutes(p.alg) && F.StartData(p, d)
    ensures CInv(p, u, CStart(p.b, u, d))
  {
    F.StartGood(p, d);
    StartThreads(p.b, u, d);
    forall r | 0 <= r < p.b.np
      ensures TasksOk(p, u, CStart(p.b, u, d), r)
    {
      StartTasks(p, u, d, r);
    }
  }

  // ---------------------------------------------------------------------------------------------
  // Steps of the network
  // ---------------------------------------------------------------------------------------------

  /** Such a step ends no task, makes none unready, and leaves the cells alone. */
  lemma NetShape<V(!new)>(p: F.Problem<V>, d: F.DState<V>, n: Step<Key>)
    requires Keyed(GraphOf(p.b), d.ctl) && Known(GraphOf(p.b), n) && !n.Execute?
    ensures var d' := F.ApplyData(p, d, n);
            && d'.ctl.log == d.ctl.log && d'.mem.cells == d.mem.cells
            && forall t :: t in d.ctl.ready ==> t in d'.ctl.ready
  {
  }

  lemma ExpectedCells<V(!new)>(p: F.Problem<V>, m: F.Memory<V>, m': F.Memory<V>, t: Key)
    requires m.cells == m'.cells
    ensures Expected(p, m, t) == Expected(p, m', t)
  {
  }

  lemma NetTasks<V(!new)>(p: F.Problem<V>, u: Setup, s: CState<V>, d: F.DState<V>, r: nat)
    requires r < |s.th| && TasksOk(p, u, s, r)
    requires d.ctl.log == s.d.ctl.log && d.mem.cells == s.d.mem.cells && forall t :: t in s.d.ctl.ready ==> t in d.ctl.ready
    ensures TasksOk(p, u, s.(d := d), r)
  {
    forall t | t in SysOf(p.b, u, r).tasks
      ensures t in s.th[r].place && Linked(d.ctl, s.th[r], t) && ValueOk(p, d.mem, s.val, s.th[r], t)
    {
      assert Linked(s.d.ctl, s.th[r], t) && ValueOk(p, s.d.mem, s.val, s.th[r], t);
      ExpectedCells(p, s.d.mem, d.mem, t);
    }
  }

  lemma NetAllTasks<V(!new)>(p: F.Problem<V>, u: Setup, s: CState<V>, d: F.DState<V>)
    requires AllTasksOk(p, u, s)
    requires d.ctl.log == s.d.ctl.log && d.mem.cells == s.d.mem.cells && forall t :: t in s.d.ctl.ready ==> t in d.ctl.ready
    ensures AllTasksOk(p, u, s.(d := d))
  {
    var s' := s.(d := d);
    forall r | 0 <= r < p.b.np
      ensures TasksOk(p, u, s', r)
    {
      NetTasks(p, u, s, d, r);
    }
  }

  lemma NetKeeps<V(!new)>(p: F.Problem<V>, u: Setup, s: CState<V>, n: Step<Key>)
    requires CInv(p, u, s) && !n.Execute? && Keyed(GraphOf(p.b), s.d.ctl) && Known(GraphOf(p.b), n) && Enabled(GraphOf(p.b), s.d.ctl, n)
    ensures CInv(p, u, s.(d := F.ApplyData(p, s.d, n)))
  {
    F.StepKeepsGood(p, s.d, n);
    NetShape(p, s.d, n);
    NetAllTasks(p, u, s, F.ApplyData(p, s.d, n));
  }

  // ---------------------------------------------------------------------------------------------
  // Steps of the threads
  // ---------------------------------------------------------------------------------------------

  lemma OwnerRank(b: Blocks, u: Setup, r: nat, t: Key)
    ensures t in SysOf(b, u, r).tasks <==> t in GraphOf(b).tasks && t.owner == r
  {
  }

  /** A task in the hands of the threads is ready. */
  lemma InHand<V(!new)>(p: F.Problem<V>, u: Setup, s: CState<V>, r: nat, t: Key)
    requires r < |s.th| && TasksOk(p, u, s, r) && t in SysOf(p.b, u, r).tasks && t in s.th[r].place
    requires !s.th[r].place[t].Waiting? && !L.Passed(s.th[r].place[t])
    ensures t in s.d.ctl.ready && t !in s.d.ctl.log
  {
    assert Linked(s.d.ctl, s.th[r], t);
  }

  lemma ThreadsStep(b: Blocks, u: Setup, th: seq<L.State<Key, T.Lock>>, r: nat, l: L.Step<Key>)
    requires ThreadsOk(b, u, th) && r < b.np && L.Shape(SysOf(b, u, r), th[r]) && L.Enabled(SysOf(b, u, r), th[r], l)
    ensures ThreadsOk(b, u, th[r := L.Apply(SysOf(b, u, r), th[r], l)])
  {
    assert L.Inv(SysOf(b, u, r), th[r]);
    L.StepKeepsInv(SysOf(b, u, r), th[r], l);
  }

  /** How a step of the threads may move a task of the rank. */
  lemma RankMoves(b: Blocks, u: Setup, th: seq<L.State<Key, T.Lock>>, r: nat, l: L.Step<Key>, t: Key)
    requires ThreadsOk(b, u, th) && r < b.np && L.Shape(SysOf(b, u, r), th[r]) && L.Enabled(SysOf(b, u, r), th[r], l)
    requires t in SysOf(b, u, r).tasks
    ensures var th' := L.Apply(SysOf(b, u, r), th[r], l);
            t in th[r].place && t in th'.place && L.Moved(l, t, th[r].place[t], th'.place[t])
  {
    assert L.Inv(SysOf(b, u, r), th[r]);
    L.StepMoves(SysOf(b, u, r), th[r], l, t);
  }

  lemma QuietTask<V(!new)>(p: F.Problem<V>, d: F.DState<V>, val: map<Key, V>, th: L.State<Key, T.Lock>, th': L.State<Key, T.Lock>, l: L.Step<Key>, t: Key)
    requires t in th.place && t in th'.place && L.Moved(l, t, th.place[t], th'.place[t])
    requires Linked(d.ctl, th, t) && ValueOk(p, d.mem, val, th, t) && (l.Arrive? ==> l.t in d.ctl.ready) && !l.Take? && !l.Release?
    ensures Linked(d.ctl, th', t) && ValueOk(p, d.mem, val, th', t)
  {
  }

  /** A step that neither starts nor ends a body. */
  lemma QuietTasks<V(!new)>(p: F.Problem<V>, u: Setup, s: CState<V>, r: nat, l: L.Step<Key>)
    requires ThreadsOk(p.b, u, s.th) && r < p.b.np && TasksOk(p, u, s, r) && (l.Arrive? ==> l.t in s.d.ctl.ready)
    requires L.Shape(SysOf(p.b, u, r), s.th[r]) && L.Enabled(SysOf(p.b, u, r), s.th[r], l) && !l.Take? && !l.Release?
    ensures TasksOk(p, u, s.(th := s.th[r := L.Apply(SysOf(p.b, u, r), s.th[r], l)]), r)
  {
    var sys, th := SysOf(p.b, u, r), L.Apply(SysOf(p.b, u, r), s.th[r], l);
    forall t | t in sys.tasks
      ensures t in th.place && Linked(s.d.ctl, th, t) && ValueOk(p, s.d.mem, s.val, th, t)
    {
      RankMoves(p.b, u, s.th, r, l, t);
      assert Linked(s.d.ctl, s.th[r], t) && ValueOk(p, s.d.mem, s.val, s.th[r], t);
      QuietTask(p, s.d, s.val, s.th[r], th, l, t);
    }
  }

  /** What a poll that brings task x does to any task t of the rank. */
  lemma TakeTask<V(!new)>(p: F.Problem<V>, d: F.DState<V>, val: map<Key, V>, th: L.State<Key, T.Lock>, th': L.State<Key, T.Lock>, w: nat, x: Key, v: V, t: Key)
    requires t in th.place && t in th'.place && L.Moved(L.Take(w), t, th.place[t], th'.place[t])
    requires Linked(d.ctl, th, t) && ValueOk(p, d.mem, val, th, t)
    requires th'.place == th.place[x := L.Running(w)] && x in th.place && th.place[x].Boxed? && v == Expected(p, d.mem, x)
    ensures Linked(d.ctl, th', t) && ValueOk(p, d.mem, val[x := v], th', t)
  {
  }

  /** A worker starts the first task of its mailbox, which computes from what it finds. */
  lemma TakeTasks<V(!new)>(p: F.Problem<V>, u: Setup, s: CState<V>, r: nat, w: nat, x: Key, v: V)
    requires ThreadsOk(p.b, u, s.th) && r < p.b.np && TasksOk(p, u, s, r)
    requires L.Shape(SysOf(p.b, u, r), s.th[r]) && L.Enabled(SysOf(p.b, u, r), s.th[r], L.Take(w))
    requires x == s.th[r].box[w][0] && x in s.th[r].place && s.th[r].place[x].Boxed? && v == Expected(p, s.d.mem, x)
    ensures TasksOk(p, u, s.(th := s.th[r := L.Apply(SysOf(p.b, u, r), s.th[r], L.Take(w))], val := s.val[x := v]), r)
  {
    var sys, th := SysOf(p.b, u, r), L.Apply(SysOf(p.b, u, r), s.th[r], L.Take(w));
    forall t | t in sys.tasks
      ensures t in th.place && Linked(s.d.ctl, th, t) && ValueOk(p, s.d.mem, s.val[x := v], th, t)
    {
      RankMoves(p.b, u, s.th, r, L.Take(w), t);
      assert Linked(s.d.ctl, s.th[r], t) && ValueOk(p, s.d.mem, s.val, s.th[r], t);
      TakeTask(p, s.d, s.val, s.th[r], th, w, x, v, t);
    }
  }

  lemma HeadInHand<V(!new)>(p: F.Problem<V>, u: Setup, s: CState<V>, r: nat, w: nat)
    requires ThreadsOk(p.b, u, s.th) && r < p.b.np && TasksOk(p, u, s, r) && w < |s.th[r].box| && s.th[r].box[w] != []
    ensures var x := s.th[r].box[w][0];
            x in s.d.ctl.ready && x.owner == r && x in s.th[r].place && s.th[r].place[x].Boxed?
  {
    assert L.Inv(SysOf(p.b, u, r), s.th[r]);
    L.BoxedHead(SysOf(p.b, u, r), s.th[r], w);
    InHand(p, u, s, r, s.th[r].box[w][0]);
  }

  /** Values of tasks of other ranks do not matter. */
  lemma OtherTasks<V(!new)>(p: F.Problem<V>, u: Setup, s: CState<V>, s': CState<V>, r: nat, t: Key)
    requires r < |s.th| && r < |s'.th| && TasksOk(p, u, s, r) && s'.th[r] == s.th[r] && s'.d == s.d
    requires t.owner != r && forall k :: k in s.val && k != t ==> k in s'.val && s'.val[k] == s.val[k]
    ensures TasksOk(p, u, s', r)
  {
    forall k | k in SysOf(p.b, u, r).tasks
      ensures k in s'.th[r].place && Linked(s'.d.ctl, s'.th[r], k) && ValueOk(p, s'.d.mem, s'.val, s'.th[r], k)
    {
      OwnerRank(p.b, u, r, k);
      assert Linked(s.d.ctl, s.th[r], k) && ValueOk(p, s.d.mem, s.val, s.th[r], k);
    }
  }

  /** Two tasks in hand at once write the same cell only if they share its lock: the final task of a cell is not
      ready before its updates have ended. */
  lemma CellFree(b: Blocks, ctl: State<Key>, t: Key, k: Key)
    requires ValidBlocks(b) && Inv(GraphOf(b), ctl) && t in ctl.ready && k in ctl.ready && t != k
    requires k.op.UPDATE2D_COMP? && !t.op.DLT2D_COMP? && F.CellOf(t) == F.CellOf(k)
    ensures T.LockOf(t) == T.LockOf(k) && T.LockOf(t).Some? && t.owner == k.owner
  {
    F.KnownTask(b, ctl, t);
    F.KnownTask(b, ctl, k);
    if !t.op.UPDATE2D_COMP? {
      AggregateEdge(b, k.src, k.cellI, k.cellJ);
      F.UpstreamDone(b, ctl, t, k);
      ReadyPredsDone(GraphOf(b), ctl, k);
    }
  }

  /** A ready update of the cell that x writes shares its lock. */
  ghost predicate Apart(ctl: State<Key>, x: Key) {
    forall k <- ctl.ready :: k != x && k.op.UPDATE2D_COMP? && !x.op.DLT2D_COMP? && F.CellOf(x) == F.CellOf(k) ==>
      T.LockOf(x) == T.LockOf(k) && T.LockOf(x).Some? && x.owner == k.owner
  }

  lemma ReadyApart(b: Blocks, ctl: State<Key>, x: Key)
    requires ValidBlocks(b) && Inv(GraphOf(b), ctl) && x in ctl.ready
    ensures Apart(ctl, x)
  {
    forall k | k in ctl.ready && k != x && k.op.UPDATE2D_COMP? && !x.op.DLT2D_COMP? && F.CellOf(x) == F.CellOf(k)
      ensures T.LockOf(x) == T.LockOf(k) && T.LockOf(x).Some? && x.owner == k.owner
    {
      CellFree(b, ctl, x, k);
    }
  }

  lemma ExpectedSame<V(!new)>(p: F.Problem<V>, m: F.Memory<V>, t: Key, v: V, k: Key)
    requires k.op.UPDATE2D_COMP? && !t.op.DLT2D_COMP? ==> F.CellOf(t) != F.CellOf(k)
    ensures Expected(p, Store(m, t, v), k) == Expected(p, m, k)
  {
  }

  // ---------------------------------------------------------------------------------------------
  // The end of a body
  // ---------------------------------------------------------------------------------------------

  /** What the end of task x leaves of the log and the ready tasks. */
  ghost predicate Ends(ctl: State<Key>, ctl': State<Key>, x: Key) {
    && (forall t :: t in ctl'.log <==> t in ctl.log || t == x)
    && (forall t :: t != x ==> (t in ctl'.ready <==> t in ctl.ready))
  }

  /** What the end of task x leaves of the places of the tasks of its rank. */
  ghost predicate Released(th: L.State<Key, T.Lock>, th': L.State<Key, T.Lock>, x: Key) {
    && x in th.place && th.place[x].Running?
    && x in th'.place && th'.place == th.place[x := th'.place[x]] && L.Passed(th'.place[x])
  }

  lemma ReleasePasses(b: Blocks, u: Setup, th: seq<L.State<Key, T.Lock>>, r: nat, x: Key)
    requires r < |th| && L.Shape(SysOf(b, u, r), th[r]) && L.Enabled(SysOf(b, u, r), th[r], L.Release(x))
    ensures Released(th[r], L.Apply(SysOf(b, u, r), th[r], L.Release(x)), x)
  {
  }

  /** Another task of the same rank when the body of x ends. */
  lemma EndTask<V(!new)>(p: F.Problem<V>, ctl: State<Key>, ctl': State<Key>, m: F.Memory<V>, val: map<Key, V>, th: L.State<Key, T.Lock>,
                         th': L.State<Key, T.Lock>, x: Key, v: V, t: Key)
    requires t in th.place && t in th'.place && Linked(ctl, th, t) && ValueOk(p, m, val, th, t)
    requires Ends(ctl, ctl', x) && Released(th, th', x)
    requires t != x && th.place[t].Running? ==> Expected(p, Store(m, x, v), t) == Expected(p, m, t)
    ensures Linked(ctl', th', t) && ValueOk(p, Store(m, x, v), val, th', t)
  {
  }

  lemma EndOther<V(!new)>(p: F.Problem<V>, ctl: State<Key>, ctl': State<Key>, m: F.Memory<V>, val: map<Key, V>, th: L.State<Key, T.Lock>, x: Key, v: V, t: Key)
    requires t in th.place && t != x && Linked(ctl, th, t) && ValueOk(p, m, val, th, t)
    requires Ends(ctl, ctl', x)
    requires th.place[t].Running? ==> Expected(p, Store(m, x, v), t) == Expected(p, m, t)
    ensures Linked(ctl', th, t) && ValueOk(p, Store(m, x, v), val, th, t)
  {
  }

  /** No two running tasks of a rank have one lock. */
  ghost predicate Exclusive(th: L.State<Key, T.Lock>) {
    forall x, t :: x in th.place && t in th.place && th.place[x].Running? && th.place[t].Running? && x != t ==>
      T.LockOf(x).Some? ==> T.LockOf(x) != T.LockOf(t)
  }

  lemma RankExclusive(b: Blocks, u: Setup, th: seq<L.State<Key, T.Lock>>, r: nat)
    requires ThreadsOk(b, u, th) && r < b.np
    ensures r < |th| && Exclusive(th[r])
  {
    ThreadsShaped(b, u, th, r);
    forall x, t | x in th[r].place && t in th[r].place && th[r].place[x].Running? && th[r].place[t].Running? && x != t && T.LockOf(x).Some?
      ensures T.LockOf(x) != T.LockOf(t)
    {
      if T.LockOf(x) == T.LockOf(t) {
        R.Exclusion(SysOf(b, u, r), th[r], x, t);
      }
    }
  }

  /** No task in hand is to write where x writes. */
  lemma EndApart<V(!new)>(p: F.Problem<V>, ctl: State<Key>, m: F.Memory<V>, x: Key, t: Key, v: V)
    requires Apart(ctl, x) && t in ctl.ready && t != x
    requires x.owner == t.owner && T.LockOf(x).Some? ==> T.LockOf(x) != T.LockOf(t)
    ensures Expected(p, Store(m, x, v), t) == Expected(p, m, t)
  {
    assert t.op.UPDATE2D_COMP? && !x.op.DLT2D_COMP? ==> F.CellOf(t) != F.CellOf(x);
    ExpectedSame(p, m, x, v, t);
  }

  /** Any task of the rank of x when the body of x ends. */
  lemma EndOwn<V(!new)>(p: F.Problem<V>, ctl: State<Key>, ctl': State<Key>, m: F.Memory<V>, val: map<Key, V>, th: L.State<Key, T.Lock>,
                        th': L.State<Key, T.Lock>, x: Key, v: V, t: Key)
    requires Apart(ctl, x) && Ends(ctl, ctl', x)
    requires Exclusive(th) && Released(th, th', x)
    requires t in th.place && Linked(ctl, th, t) && ValueOk(p, m, val, th, t)
    ensures t in th'.place && Linked(ctl', th', t) && ValueOk(p, Store(m, x, v), val, th', t)
  {
    if t != x && th.place[t].Running? {
      EndApart(p, ctl, m, x, t, v);
    }
    EndTask(p, ctl, ctl', m, val, th, th', x, v, t);
  }

  /** The state when the body of x ends. */
  ghost function Ended<V>(s: CState<V>, ctl: State<Key>, th: seq<L.State<Key, T.Lock>>, x: Key, v: V): CState<V> {
    CState(F.DState(ctl, Store(s.d.mem, x, v)), th, s.val)
  }

  lemma EndTasks<V(!new)>(p: F.Problem<V>, u: Setup, s: CState<V>, ctl: State<Key>, r: nat, x: Key, v: V, th: L.State<Key, T.Lock>)
    requires r < |s.th| && TasksOk(p, u, s, r)
    requires Apart(s.d.ctl, x) && Ends(s.d.ctl, ctl, x) && Exclusive(s.th[r]) && Released(s.th[r], th, x)
    ensures TasksOk(p, u, Ended(s, ctl, s.th[r := th], x, v), r)
  {
    forall t | t in SysOf(p.b, u, r).tasks
      ensures t in th.place && Linked(ctl, th, t) && ValueOk(p, Store(s.d.mem, x, v), s.val, th, t)
    {
      assert Linked(s.d.ctl, s.th[r], t) && ValueOk(p, s.d.mem, s.val, s.th[r], t);
      EndOwn(p, s.d.ctl, ctl, s.d.mem, s.val, s.th[r], th, x, v, t);
    }
  }

  /** Any task of another rank. */
  lemma EndForeign<V(!new)>(p: F.Problem<V>, ctl: State<Key>, ctl': State<Key>, m: F.Memory<V>, val: map<Key, V>, th: L.State<Key, T.Lock>, x: Key, v: V, t: Key)
    requires Apart(ctl, x) && Ends(ctl, ctl', x) && t.owner != x.owner
    requires t in th.place && Linked(ctl, th, t) && ValueOk(p, m, val, th, t)
    ensures Linked(ctl', th, t) && ValueOk(p, Store(m, x, v), val, th, t)
  {
    if th.place[t].Running? {
      EndApart(p, ctl, m, x, t, v);
    }
    EndOther(p, ctl, ctl', m, val, th, x, v, t);
  }

  lemma EndOtherTasks<V(!new)>(p: F.Problem<V>, u: Setup, s: CState<V>, ctl: State<Key>, x: Key, v: V, q: nat, ths: seq<L.State<Key, T.Lock>>)
    requires q < |s.th| && q < |ths| && ths[q] == s.th[q] && TasksOk(p, u, s, q)
    requires x.owner != q && Apart(s.d.ctl, x) && Ends(s.d.ctl, ctl, x)
    ensures TasksOk(p, u, Ended(s, ctl, ths, x, v), q)
  {
    forall t | t in SysOf(p.b, u, q).tasks
      ensures t in s.th[q].place && Linked(ctl, s.th[q], t) && ValueOk(p, Store(s.d.mem, x, v), s.val, s.th[q], t)
    {
      OwnerRank(p.b, u, q, t);
      assert Linked(s.d.ctl, s.th[q], t) && ValueOk(p, s.d.mem, s.val, s.th[q], t);
      EndForeign(p, s.d.ctl, ctl, s.d.mem, s.val, s.th[q], x, v, t);
    }
  }

  // ---------------------------------------------------------------------------------------------
  // Every step keeps the invariant, and is a step of the atomic factorization or none
  // ---------------------------------------------------------------------------------------------

  lemma QuietAllTasks<V(!new)>(p: F.Problem<V>, u: Setup, s: CState<V>, r: nat, th: L.State<Key, T.Lock>)
    requires AllTasksOk(p, u, s) && r < p.b.np && TasksOk(p, u, s.(th := s.th[r := th]), r)
    ensures AllTasksOk(p, u, s.(th := s.th[r := th]))
  {
    var s' := s.(th := s.th[r := th]);
    forall q | 0 <= q < p.b.np
      ensures TasksOk(p, u, s', q)
    {
      assert TasksOk(p, u, s, q);
    }
  }

  lemma TakeAllTasks<V(!new)>(p: F.Problem<V>, u: Setup, s: CState<V>, r: nat, th: L.State<Key, T.Lock>, x: Key, v: V)
    requires AllTasksOk(p, u, s) && r < p.b.np && x.owner == r && TasksOk(p, u, s.(th := s.th[r := th], val := s.val[x := v]), r)
    ensures AllTasksOk(p, u, s.(th := s.th[r := th], val := s.val[x := v]))
  {
    var s' := s.(th := s.th[r := th], val := s.val[x := v]);
    forall q | 0 <= q < p.b.np
      ensures TasksOk(p, u, s', q)
    {
      if q != r {
        OtherTasks(p, u, s, s', q, x);
      }
    }
  }

  lemma EndAllTasks<V(!new)>(p: F.Problem<V>, u: Setup, s: CState<V>, ctl: State<Key>, r: nat, x: Key, v: V, th: L.State<Key, T.Lock>)
    requires AllTasksOk(p, u, s) && r < p.b.np
    requires x.owner == r && Apart(s.d.ctl, x) && Ends(s.d.ctl, ctl, x) && TasksOk(p, u, Ended(s, ctl, s.th[r := th], x, v), r)
    ensures AllTasksOk(p, u, Ended(s, ctl, s.th[r := th], x, v))
  {
    var s' := Ended(s, ctl, s.th[r := th], x, v);
    forall q | 0 <= q < p.b.np
      ensures TasksOk(p, u, s', q)
    {
      if q != r {
        EndOtherTasks(p, u, s, ctl, x, v, q, s.th[r := th]);
      }
    }
  }

  /** The end of a body is the atomic execution of the task. */
  lemma EndIsExecute<V(!new)>(p: F.Problem<V>, u: Setup, s: CState<V>, r: nat, x: Key)
    requires F.Good(p, s.d) && r < |s.th| && TasksOk(p, u, s, r) && x in SysOf(p.b, u, r).tasks && x in s.th[r].place && s.th[r].place[x].Running?
    ensures x in s.val && x in s.d.ctl.ready && Known(GraphOf(p.b), Execute(x)) && Keyed(GraphOf(p.b), s.d.ctl)
    ensures F.DState(AfterExecute(GraphOf(p.b), s.d.ctl, x), Store(s.d.mem, x, s.val[x])) == F.ApplyData(p, s.d, Execute(x))
  {
    InHand(p, u, s, r, x);
    assert ValueOk(p, s.d.mem, s.val, s.th[r], x);
    ReadyComputes(p, s.d, x);
    StoreComputed(p, s.d.mem, x, s.d.ctl.inputMsg[x]);
  }

  /** The atomic steps that a step stands for: a step of the network is one, the end of a body is the execution of
      its task, and everything else the threads do is none. */
  ghost function Atomic(step: CStep): seq<Step<Key>> {
    match step
    case Net(n) => [n]
    case Thread(_, l) => if l.Release? then [Execute(l.t)] else []
  }

  /** The step can be put in front of any atomic run that goes on from where it leads. */
  ghost predicate InFront<V(!new)>(p: F.Problem<V>, d: F.DState<V>, front: seq<Step<Key>>, d': F.DState<V>) {
    forall rest, d2 :: F.RunData(p, d', rest, d2) ==> F.RunData(p, d, front + rest, d2)
  }

  lemma OneInFront<V(!new)>(p: F.Problem<V>, d: F.DState<V>, n: Step<Key>)
    requires Keyed(GraphOf(p.b), d.ctl) && Known(GraphOf(p.b), n) && Enabled(GraphOf(p.b), d.ctl, n)
    ensures InFront(p, d, [n], F.ApplyData(p, d, n))
  {
    forall rest, d2 | F.RunData(p, F.ApplyData(p, d, n), rest, d2)
      ensures F.RunData(p, d, [n] + rest, d2)
    {
      assert ([n] + rest)[1..] == rest;
    }
  }

  lemma NoneInFront<V(!new)>(p: F.Problem<V>, d: F.DState<V>)
    ensures InFront(p, d, [], d)
  {
    forall rest, d2 | F.RunData(p, d, rest, d2)
      ensures F.RunData(p, d, [] + rest, d2)
    {
      assert [] + rest == rest;
    }
  }

  lemma NetStep<V(!new)>(p: F.Problem<V>, u: Setup, s: CState<V>, n: Step<Key>)
    requires CInv(p, u, s) && Shaped(p.b, u, s) && CEnabled(p.b, u, s, Net(n))
    ensures CInv(p, u, CApply(p, u, s, Net(n))) && InFront(p, s.d, [n], CApply(p, u, s, Net(n)).d)
  {
    NetKeeps(p, u, s, n);
    OneInFront(p, s.d, n);
  }

  lemma OneRank<V(!new)>(p: F.Problem<V>, u: Setup, s: CState<V>, r: nat)
    requires AllTasksOk(p, u, s) && r < p.b.np
    ensures r < |s.th| && TasksOk(p, u, s, r)
  {
  }

  lemma QuietStep<V(!new)>(p: F.Problem<V>, u: Setup, s: CState<V>, r: nat, l: L.Step<Key>)
    requires CInv(p, u, s) && Shaped(p.b, u, s) && CEnabled(p.b, u, s, Thread(r, l)) && !l.Take? && !l.Release?
    ensures CInv(p, u, CApply(p, u, s, Thread(r, l))) && CApply(p, u, s, Thread(r, l)).d == s.d
  {
    OneRank(p, u, s, r);
    ThreadsStep(p.b, u, s.th, r, l);
    QuietTasks(p, u, s, r, l);
    QuietAllTasks(p, u, s, r, L.Apply(SysOf(p.b, u, r), s.th[r], l));
  }

  lemma TakeStep<V(!new)>(p: F.Problem<V>, u: Setup, s: CState<V>, r: nat, w: nat)
    requires CInv(p, u, s) && Shaped(p.b, u, s) && CEnabled(p.b, u, s, Thread(r, L.Take(w)))
    ensures CInv(p, u, CApply(p, u, s, Thread(r, L.Take(w)))) && CApply(p, u, s, Thread(r, L.Take(w))).d == s.d
  {
    OneRank(p, u, s, r);
    var x := s.th[r].box[w][0];
    ThreadsStep(p.b, u, s.th, r, L.Take(w));
    HeadInHand(p, u, s, r, w);
    ReadyComputes(p, s.d, x);
    TakeTasks(p, u, s, r, w, x, Expected(p, s.d.mem, x));
    TakeAllTasks(p, u, s, r, L.Apply(SysOf(p.b, u, r), s.th[r], L.Take(w)), x, Expected(p, s.d.mem, x));
  }

  /** The data after the end of a body are good again, and those of an atomic step. */
  lemma EndGood<V(!new)>(p: F.Problem<V>, u: Setup, s: CState<V>, r: nat, x: Key)
    requires F.Good(p, s.d) && r < |s.th| && TasksOk(p, u, s, r) && x in SysOf(p.b, u, r).tasks && x in s.th[r].place && s.th[r].place[x].Running?
    ensures x in s.val && x in s.d.ctl.ready
    ensures var d := F.DState(AfterExecute(GraphOf(p.b), s.d.ctl, x), Store(s.d.mem, x, s.val[x]));
            F.Good(p, d) && InFront(p, s.d, [Execute(x)], d)
  {
    EndIsExecute(p, u, s, r, x);
    F.StepKeepsGood(p, s.d, Execute(x));
    OneInFront(p, s.d, Execute(x));
  }

  lemma EndKeepsTasks<V(!new)>(p: F.Problem<V>, u: Setup, s: CState<V>, ctl: State<Key>, r: nat, x: Key, v: V, th: L.State<Key, T.Lock>)
    requires ValidBlocks(p.b) && Inv(GraphOf(p.b), s.d.ctl) && ThreadsOk(p.b, u, s.th) && AllTasksOk(p, u, s) && r < p.b.np
    requires x.owner == r && x in s.d.ctl.ready && Ends(s.d.ctl, ctl, x) && Released(s.th[r], th, x)
    ensures AllTasksOk(p, u, Ended(s, ctl, s.th[r := th], x, v))
  {
    OneRank(p, u, s, r);
    RankExclusive(p.b, u, s.th, r);
    ReadyApart(p.b, s.d.ctl, x);
    EndTasks(p, u, s, ctl, r, x, v, th);
    EndAllTasks(p, u, s, ctl, r, x, v, th);
  }

  lemma EndStep<V(!new)>(p: F.Problem<V>, u: Setup, s: CState<V>, r: nat, x: Key)
    requires CInv(p, u, s) && Shaped(p.b, u, s) && CEnabled(p.b, u, s, Thread(r, L.Release(x)))
    ensures CInv(p, u, CApply(p, u, s, Thread(r, L.Release(x))))
    ensures InFront(p, s.d, [Execute(x)], CApply(p, u, s, Thread(r, L.Release(x))).d)
  {
    var ctl, th := AfterExecute(GraphOf(p.b), s.d.ctl, x), L.Apply(SysOf(p.b, u, r), s.th[r], L.Release(x));
    OneRank(p, u, s, r);
    EndGood(p, u, s, r, x);
    OwnerRank(p.b, u, r, x);
    ThreadsStep(p.b, u, s.th, r, L.Release(x));
    ExecuteHistory(GraphOf(p.b), s.d.ctl, x);
    ReleasePasses(p.b, u, s.th, r, x);
    EndKeepsTasks(p, u, s, ctl, r, x, s.val[x], th);
    assert CApply(p, u, s, Thread(r, L.Release(x))) == Ended(s, ctl, s.th[r := th], x, s.val[x]);
  }

  lemma ThreadStep<V(!new)>(p: F.Problem<V>, u: Setup, s: CState<V>, r: nat, l: L.Step<Key>)
    requires CInv(p, u, s) && Shaped(p.b, u, s) && CEnabled(p.b, u, s, Thread(r, l))
    ensures CInv(p, u, CApply(p, u, s, Thread(r, l))) && InFront(p, s.d, Atomic(Thread(r, l)), CApply(p, u, s, Thread(r, l)).d)
  {
    NoneInFront(p, s.d);
    match l
    case Take(w) => TakeStep(p, u, s, r, w);
    case Release(x) => EndStep(p, u, s, r, x);
    case _ => QuietStep(p, u, s, r, l);
  }

  lemma StepRefines<V(!new)>(p: F.Problem<V>, u: Setup, s: CState<V>, step: CStep)
    requires CInv(p, u, s) && Shaped(p.b, u, s) && CEnabled(p.b, u, s, step)
    ensures CInv(p, u, CApply(p, u, s, step)) && InFront(p, s.d, Atomic(step), CApply(p, u, s, step).d)
  {
    match step
    case Net(n) => NetStep(p, u, s, n);
    case Thread(r, l) => ThreadStep(p, u, s, r, l);
  }

  ghost function AtomicRun(steps: seq<CStep>): seq<Step<Key>> {
    if steps == [] then [] else Atomic(steps[0]) + AtomicRun(steps[1..])
  }

  lemma NoSteps<V(!new)>(p: F.Problem<V>, d: F.DState<V>)
    ensures F.RunData(p, d, [], d)
  {
  }

  lemma Join<V(!new)>(p: F.Problem<V>, d: F.DState<V>, front: seq<Step<Key>>, d1: F.DState<V>, rest: seq<Step<Key>>, d2: F.DState<V>)
    requires InFront(p, d, front, d1) && F.RunData(p, d1, rest, d2)
    ensures F.RunData(p, d, front + rest, d2)
  {
  }

  /** A run of the whole machine is, on the data, the atomic run of the network steps and of the ends of bodies. */
  lemma {:induction false} RunRefines<V(!new)>(p: F.Problem<V>, u: Setup, s: CState<V>, steps: seq<CStep>, s': CState<V>)
    requires CInv(p, u, s) && CRun(p, u, s, steps, s')
    ensures CInv(p, u, s') && F.RunData(p, s.d, AtomicRun(steps), s'.d)
    decreases |steps|
  {
    if steps == [] {
      NoSteps(p, s.d);
    } else {
      StepRefines(p, u, s, steps[0]);
      RunRefines(p, u, CApply(p, u, s, steps[0]), steps[1..], s');
      Join(p, s.d, Atomic(steps[0]), CApply(p, u, s, steps[0]).d, AtomicRun(steps[1..]), s'.d);
    }
  }

  // ---------------------------------------------------------------------------------------------
  // Progress
  // ---------------------------------------------------------------------------------------------

  /** A ready task is taken over by the threads at once: its predecessors on the rank have ended. */
  lemma ReadyArrives<V(!new)>(p: F.Problem<V>, u: Setup, s: CState<V>, r: nat, t: Key)
    requires F.Good(p, s.d) && r < |s.th| && TasksOk(p, u, s, r) && L.Shape(SysOf(p.b, u, r), s.th[r])
    requires t in SysOf(p.b, u, r).tasks && t in s.d.ctl.ready && s.th[r].place[t].Waiting?
    ensures L.Enabled(SysOf(p.b, u, r), s.th[r], L.Arrive(t))
  {
    ReadyPredsDone(GraphOf(p.b), s.d.ctl, t);
    forall k | k in SysOf(p.b, u, r).preds(t)
      ensures k in s.th[r].place && L.Passed(s.th[r].place[k])
    {
      F.KnownTask(p.b, s.d.ctl, k);
      InMembers(GraphOf(p.b), GraphOf(p.b).edges, t, true);
      OwnerRank(p.b, u, r, k);
      OwnerRank(p.b, u, r, t);
      assert Linked(s.d.ctl, s.th[r], k);
    }
  }

  /** No step of the network, and on no rank a step of the threads other than idle polling. */
  ghost predicate Standstill<V(!new)>(b: Blocks, u: Setup, s: CState<V>)
    requires Shaped(b, u, s)
  {
    forall step :: CEnabled(b, u, s, step) ==> step.Thread? && !R.LeadsOn(SysOf(b, u, step.r), s.th[step.r], step.work)
  }

  /** A ready task keeps its rank going. */
  lemma ReadyLeadsOn<V(!new)>(p: F.Problem<V>, u: Setup, s: CState<V>, r: nat, t: Key) returns (l: L.Step<Key>)
    requires F.Good(p, s.d) && r < |s.th| && TasksOk(p, u, s, r) && L.Inv(SysOf(p.b, u, r), s.th[r]) && t in SysOf(p.b, u, r).tasks && t in s.d.ctl.ready
    requires u.workers > 0 && u.recheck
    ensures R.LeadsOn(SysOf(p.b, u, r), s.th[r], l) && (l.Arrive? ==> l.t in s.d.ctl.ready)
  {
    ReadyPredsDone(GraphOf(p.b), s.d.ctl, t);
    assert Linked(s.d.ctl, s.th[r], t);
    if s.th[r].place[t].Waiting? {
      ReadyArrives(p, u, s, r, t);
      l := L.Arrive(t);
    } else {
      l := R.BegunGoesOn(SysOf(p.b, u, r), s.th[r], t);
    }
  }

  lemma ReadyMoves<V(!new)>(p: F.Problem<V>, u: Setup, s: CState<V>, t: Key) returns (step: CStep)
    requires CInv(p, u, s) && Shaped(p.b, u, s) && t in s.d.ctl.ready && u.workers > 0 && u.recheck
    ensures CEnabled(p.b, u, s, step) && step.Thread? && R.LeadsOn(SysOf(p.b, u, step.r), s.th[step.r], step.work)
  {
    F.KnownTask(p.b, s.d.ctl, t);
    TaskOwner(p.b, t);
    OneRank(p, u, s, t.owner);
    assert L.Inv(SysOf(p.b, u, t.owner), s.th[t.owner]);
    var l := ReadyLeadsOn(p, u, s, t.owner, t);
    step := Thread(t.owner, l);
  }

  lemma NothingReady<V(!new)>(p: F.Problem<V>, u: Setup, s: CState<V>, t: Key)
    requires CInv(p, u, s) && Shaped(p.b, u, s) && Standstill(p.b, u, s) && u.workers > 0 && u.recheck
    ensures t !in s.d.ctl.ready
  {
    if t in s.d.ctl.ready {
      var step := ReadyMoves(p, u, s, t);
    }
  }

  lemma NoTraffic<V(!new)>(b: Blocks, u: Setup, s: CState<V>, n: Step<Key>)
    requires Shaped(b, u, s) && Standstill(b, u, s) && !n.Execute? && Known(GraphOf(b), n)
    ensures !Enabled(GraphOf(b), s.d.ctl, n)
  {
    assert CEnabled(b, u, s, Net(n)) ==> Net(n).Thread?;
  }

  lemma StepKnown<V(!new)>(p: F.Problem<V>, d: F.DState<V>, n: Step<Key>)
    requires F.Good(p, d)
    ensures Enabled(GraphOf(p.b), d.ctl, n) ==> Known(GraphOf(p.b), n)
  {
    if Enabled(GraphOf(p.b), d.ctl, n) {
      F.StepKeepsGood(p, d, n);
    }
  }

  lemma StandstillDone<V(!new)>(p: F.Problem<V>, u: Setup, s: CState<V>, step: Step<Key>)
    requires CInv(p, u, s) && Shaped(p.b, u, s) && Standstill(p.b, u, s) && u.workers > 0 && u.recheck
    ensures !Enabled(GraphOf(p.b), s.d.ctl, step)
  {
    if step.Execute? {
      NothingReady(p, u, s, step.t);
    } else {
      StepKnown(p, s.d, step);
      if Known(GraphOf(p.b), step) {
        NoTraffic(p.b, u, s, step);
      }
    }
  }

  // ---------------------------------------------------------------------------------------------
  // Every run
  // ---------------------------------------------------------------------------------------------

  /** What a running task of any rank computed when it started is what it would compute at this moment. */
  lemma ReadsAnyTime<V(!new)>(p: F.Problem<V>, u: Setup, s: CState<V>, r: nat, t: Key)
    requires CInv(p, u, s) && r < p.b.np && t in s.th[r].place && s.th[r].place[t].Running?
    ensures t in s.val && t in s.d.ctl.inputMsg && s.val[t] == Computed(p, s.d.mem, t, s.d.ctl.inputMsg[t])
  {
    OneRank(p, u, s, r);
    InHand(p, u, s, r, t);
    assert ValueOk(p, s.d.mem, s.val, s.th[r], t);
    ReadyComputes(p, s.d, t);
  }

  /** Every run of the whole factorization, all ranks with all their threads, bodies overlapping as the locks and
      counters allow: its data are those of an atomic run, so cells hold the values of the sequential factor; a
      running task reads the same whenever it reads; a run that has ended all tasks has computed the sequential
      factor; and when workers poll once more after `done`, a run at a standstill has. */
  lemma EveryThreadedRun<V(!new)>(p: F.Problem<V>, u: Setup, d: F.DState<V>, steps: seq<CStep>, s: CState<V>)
    requires ValidBlocks(p.b) && FillClosed(p.b) && F.Commutes(p.alg) && F.StartData(p, d) && CRun(p, u, CStart(p.b, u, d), steps, s)
    ensures CInv(p, u, s) && Shaped(p.b, u, s)
    ensures F.RunData(p, d, AtomicRun(steps), s.d)
    ensures forall K: nat, J: nat :: F.ValidCell(p.b, K, J) && FinalKey(p.b, K, J) in s.d.ctl.log ==>
              (K, J) in s.d.mem.cells && s.d.mem.cells[(K, J)] == F.Fin(p, K, J)
    ensures (forall t :: IsTask(p.b, t) ==> t in s.d.ctl.log) || (u.workers > 0 && u.recheck && Standstill(p.b, u, s)) ==>
              forall K: nat, J: nat :: F.ValidCell(p.b, K, J) ==> (K, J) in s.d.mem.cells && s.d.mem.cells[(K, J)] == F.Fin(p, K, J)
  {
    StartInv(p, u, d);
    RunRefines(p, u, CStart(p.b, u, d), steps, s);
    InvShaped(p, u, s);
    F.ScheduleIndependence(p, d, AtomicRun(steps), s.d);
    if forall t :: IsTask(p.b, t) ==> t in s.d.ctl.log {
      FinalTasks(p.b);
    } else if u.workers > 0 && u.recheck && Standstill(p.b, u, s) {
      forall step
        ensures !Enabled(GraphOf(p.b), s.d.ctl, step)
      {
        StandstillDone(p, u, s, step);
      }
    }
  }

  lemma FinalTasks(b: Blocks)
    ensures forall K: nat, J: nat :: F.ValidCell(b, K, J) ==> IsTask(b, FinalKey(b, K, J))
  {
  }
}
