/** The task graph of the triangular solves: FUC(J,I) and BUC(J,I) for the cells of the factor. */
module SolveGraph {
  import opened TaskGraph
  import S = SolveProtocol
  import Sums

  /** FUC or BUC of cell (J,I). */
  datatype Task = Fuc(J: nat, I: nat) | Buc(J: nat, I: nat)

  /** A diagonal task sends one message per rank; the off-diagonal tasks of a rank that feed the same task of
      another rank share one. */
  datatype Message = Single(src: Task, rank: nat) | Group(rank: nat, tgt: Task)

  /** The slot contribs[I] of a rank. */
  datatype Slot = Slot(rank: nat, snode: nat)

  function RankOf(b: Blocks, t: Task): nat { b.own(t.J, t.I) }

  predicate Diagonal(t: Task) { t.J == t.I }

  ghost predicate IsCell(b: Blocks, J: nat, I: nat) { 1 <= I <= b.n && (J == I || J in b.anc(I)) }

  ghost predicate IsTask(b: Blocks, t: Task) { IsCell(b, t.J, t.I) }

  ghost function TasksOf(b: Blocks): set<Task> {
    (set J: nat, I: nat | J <= b.n && I <= b.n && IsCell(b, J, I) :: Fuc(J, I))
    + (set J: nat, I: nat | J <= b.n && I <= b.n && IsCell(b, J, I) :: Buc(J, I))
  }

  lemma TaskMembers(b: Blocks, t: Task)
    requires ValidBlocks(b)
    ensures t in TasksOf(b) <==> IsTask(b, t)
    ensures IsTask(b, t) ==> t.I <= t.J <= b.n
  {
  }

  /** What a task waits for: a diagonal FUC for the cells to its left, an off-diagonal one for its diagonal; a
      diagonal BUC for the cells below it, or for its own FUC if there are none, an off-diagonal one for the
      diagonal of its row. */
  ghost predicate Edge(b: Blocks, s: Task, t: Task) {
    match t
    case Fuc(J, I) =>
      if J == I then s.Fuc? && s.J == J && s.I != J else s == Fuc(I, I)
    case Buc(J, I) =>
      if J != I then s == Buc(J, J)
      else (s.Buc? && s.I == J && s.J != J) || (b.anc(J) == [] && s == Fuc(J, J))
  }

  ghost function PredsOf(b: Blocks, t: Task): set<Task> {
    set s | s in TasksOf(b) && Edge(b, s, t)
  }

  ghost function LocalOf(b: Blocks, t: Task): set<Task> {
    set s | s in PredsOf(b, t) && RankOf(b, s) == RankOf(b, t)
  }

  ghost function RemoteOf(b: Blocks, t: Task): set<Task> {
    set s | s in PredsOf(b, t) && RankOf(b, s) != RankOf(b, t)
  }

  function MessageOf(b: Blocks, s: Task, t: Task): Message {
    if Diagonal(s) then Single(s, RankOf(b, t)) else Group(RankOf(b, s), t)
  }

  ghost function SourcesOf(b: Blocks, m: Message): set<Task> {
    match m
    case Single(s, _) => {s}
    case Group(r, t) => set s | s in PredsOf(b, t) && !Diagonal(s) && RankOf(b, s) == r
  }

  ghost function TargetsOf(b: Blocks, m: Message): set<Task> {
    match m
    case Single(s, r) => set t | t in TasksOf(b) && s in PredsOf(b, t) && RankOf(b, t) == r
    case Group(_, t) => {t}
  }

  ghost function MessagesOf(b: Blocks): set<Message> {
    set s, t | s in TasksOf(b) && t in TasksOf(b) && Edge(b, s, t) && RankOf(b, s) != RankOf(b, t) :: MessageOf(b, s, t)
  }

  /** The slot whose buffer a message is fetched from: the one that the off-diagonal tasks of the rank fill. */
  function SlotOf(b: Blocks, m: Message): Slot {
    match m
    case Single(s, _) => Slot(RankOf(b, s), s.I)
    case Group(r, t) => Slot(r, t.I)
  }

  ghost function NetOf(b: Blocks): S.Net<Task, Message, Slot> {
    S.Net(TasksOf(b), t => LocalOf(b, t), MessagesOf(b), m => SourcesOf(b, m), m => TargetsOf(b, m),
          set m | m in MessagesOf(b) :: SlotOf(b, m), (m: Message) => m.Group?, m => SlotOf(b, m))
  }

  lemma MessageEdge(b: Blocks, m: Message) returns (s: Task, t: Task)
    requires m in MessagesOf(b)
    ensures s in TasksOf(b) && t in TasksOf(b) && Edge(b, s, t) && RankOf(b, s) != RankOf(b, t) && m == MessageOf(b, s, t)
    ensures s in SourcesOf(b, m) && t in TargetsOf(b, m)
  {
    s, t :| s in TasksOf(b) && t in TasksOf(b) && Edge(b, s, t) && RankOf(b, s) != RankOf(b, t) && m == MessageOf(b, s, t);
    assert s in PredsOf(b, t);
  }

  lemma NetWellFormed(b: Blocks)
    ensures S.WellFormed(NetOf(b))
  {
    forall m | m in MessagesOf(b)
      ensures SourcesOf(b, m) <= TasksOf(b) && TargetsOf(b, m) <= TasksOf(b) && SourcesOf(b, m) != {} && TargetsOf(b, m) != {}
    {
      var s, t := MessageEdge(b, m);
    }
  }

  lemma RemoteIsPred(b: Blocks, t: Task, s: Task)
    requires t in TasksOf(b) && s in PredsOf(b, t) && RankOf(b, s) != RankOf(b, t)
    ensures MessageOf(b, s, t) in S.MsgsTo(NetOf(b), t) && s in SourcesOf(b, MessageOf(b, s, t))
    ensures s in S.Preds(NetOf(b), t)
  {
    var net, m := NetOf(b), MessageOf(b, s, t);
    assert m in MessagesOf(b) && t in TargetsOf(b, m);
    assert m in S.MsgsTo(net, t) && s in net.sources(m);
  }

  /** The predecessors that the messages and the local lists stand for are those of the graph. */
  lemma NetPreds(b: Blocks, t: Task, s: Task)
    requires t in TasksOf(b)
    ensures s in S.Preds(NetOf(b), t) <==> s in PredsOf(b, t)
  {
    if s in S.Preds(NetOf(b), t) && s !in LocalOf(b, t) {
      var m :| m in S.MsgsTo(NetOf(b), t) && s in SourcesOf(b, m);
    }
    if s in PredsOf(b, t) {
      if RankOf(b, s) == RankOf(b, t) {
        assert s in NetOf(b).local(t);
      } else {
        RemoteIsPred(b, t, s);
      }
    }
  }

  /** Forward substitution climbs, backward substitution descends after it. */
  function TaskRank(b: Blocks): Task -> nat {
    (t: Task) =>
      var up := if t.J == t.I then 2 * t.I else 2 * t.I + 1;
      var down := if t.J == t.I then 4 * b.n + 4 - 2 * t.J else 4 * b.n + 5 - 2 * t.J;
      if t.Fuc? then up else if down > 0 then down else 0
  }

  lemma NetRanked(b: Blocks)
    requires ValidBlocks(b)
    ensures S.Ranked(NetOf(b), TaskRank(b))
  {
    forall t, u | t in TasksOf(b) && u in S.Preds(NetOf(b), t)
      ensures u in TasksOf(b) && TaskRank(b)(u) < TaskRank(b)(t)
    {
      NetPreds(b, t, u);
      TaskMembers(b, t);
      TaskMembers(b, u);
    }
  }

  // ---------------------------------------------------------------------------------------------
  // The counters
  // ---------------------------------------------------------------------------------------------

  ghost function AllSources(b: Blocks, ms: set<Message>): set<Task> {
    set s | s in TasksOf(b) && exists m :: m in ms && s in SourcesOf(b, m)
  }

  lemma {:induction false} WeightsAddUp(b: Blocks, ms: set<Message>)
    requires ms <= MessagesOf(b)
    requires forall m, k, s :: m in ms && k in ms && s in SourcesOf(b, m) && s in SourcesOf(b, k) ==> m == k
    ensures Sums.Sum(ms, S.WeightMap(NetOf(b))) == |AllSources(b, ms)|
    decreases ms
  {
    if ms == {} {
      assert AllSources(b, ms) == {};
    } else {
      var m :| m in ms;
      Sums.SumRemove(ms, S.WeightMap(NetOf(b)), m);
      WeightsAddUp(b, ms - {m});
      AllSourcesSplit(b, ms, m);
    }
  }

  lemma AllSourcesSplit(b: Blocks, ms: set<Message>, m: Message)
    requires ms <= MessagesOf(b) && m in ms
    requires forall k, l, s :: k in ms && l in ms && s in SourcesOf(b, k) && s in SourcesOf(b, l) ==> k == l
    ensures |AllSources(b, ms)| == |AllSources(b, ms - {m})| + |SourcesOf(b, m)|
  {
    var rest := AllSources(b, ms - {m});
    var e, t := MessageEdge(b, m);
    assert SourcesOf(b, m) <= TasksOf(b);
    assert AllSources(b, ms) == rest + SourcesOf(b, m);
    assert rest !! SourcesOf(b, m);
  }

  lemma OneMessageEach(b: Blocks, t: Task, m: Message, k: Message, s: Task)
    requires m in S.MsgsTo(NetOf(b), t) && k in S.MsgsTo(NetOf(b), t) && s in SourcesOf(b, m) && s in SourcesOf(b, k)
    ensures m == k == MessageOf(b, s, t)
  {
    var s1, t1 := MessageEdge(b, m);
    var s2, t2 := MessageEdge(b, k);
  }

  /** The messages for a task stand for its remote predecessors, each once: both counters start at the numbers
      of predecessors, and the arrivals and fetches of its messages bring them down to zero exactly. */
  lemma RemoteCount(b: Blocks, t: Task)
    requires t in TasksOf(b)
    ensures Sums.Sum(S.MsgsTo(NetOf(b), t), S.WeightMap(NetOf(b))) == |RemoteOf(b, t)|
    ensures S.Init(NetOf(b)).availCounter[t] == |RemoteOf(b, t)|
    ensures S.Init(NetOf(b)).inCounter[t] == |LocalOf(b, t)| + |RemoteOf(b, t)| == |PredsOf(b, t)|
  {
    var net := NetOf(b);
    var ms := S.MsgsTo(net, t);
    forall m, k, s | m in ms && k in ms && s in SourcesOf(b, m) && s in SourcesOf(b, k)
      ensures m == k
    {
      OneMessageEach(b, t, m, k, s);
    }
    WeightsAddUp(b, ms);
    forall s
      ensures s in AllSources(b, ms) <==> s in RemoteOf(b, t)
    {
      RemoteSource(b, t, s);
    }
    assert AllSources(b, ms) == RemoteOf(b, t);
    assert PredsOf(b, t) == LocalOf(b, t) + RemoteOf(b, t) && LocalOf(b, t) !! RemoteOf(b, t);
  }

  lemma RemoteSource(b: Blocks, t: Task, s: Task)
    requires t in TasksOf(b)
    ensures s in AllSources(b, S.MsgsTo(NetOf(b), t)) <==> s in RemoteOf(b, t)
  {
    var net := NetOf(b);
    if s in AllSources(b, S.MsgsTo(net, t)) {
      var m :| m in S.MsgsTo(net, t) && s in SourcesOf(b, m);
      var s1, t1 := MessageEdge(b, m);
    }
    if s in RemoteOf(b, t) {
      var m := MessageOf(b, s, t);
      assert m in MessagesOf(b) && t in TargetsOf(b, m) && s in SourcesOf(b, m);
      assert m in S.MsgsTo(net, t);
    }
  }

  // ---------------------------------------------------------------------------------------------
  // Forward before backward
  // ---------------------------------------------------------------------------------------------

  /** Whenever t has run, u ran before it. */
  ghost predicate Before(log: seq<Task>, u: Task, t: Task) { forall j :: 0 <= j < |log| && log[j] == t ==> u in log[..j] }

  lemma BeforeTrans(log: seq<Task>, u: Task, v: Task, t: Task)
    requires Before(log, u, v) && Before(log, v, t)
    ensures Before(log, u, t)
  {
    forall j | 0 <= j < |log| && log[j] == t
      ensures u in log[..j]
    {
      var k :| 0 <= k < j && log[..j][k] == v;
      assert log[k] == v && u in log[..k];
      assert log[..k] == log[..j][..k];
    }
  }

  lemma EdgeBefore(b: Blocks, log: seq<Task>, u: Task, t: Task)
    requires S.PredsFirst(NetOf(b), log) && t in TasksOf(b) && u in TasksOf(b) && Edge(b, u, t)
    ensures Before(log, u, t)
  {
    assert u in PredsOf(b, t);
    NetPreds(b, t, u);
  }

  /** Through the root of the tree: the forward task of every supernode runs before its backward task. */
  lemma {:induction false} ForwardFirst(b: Blocks, log: seq<Task>, I: nat)
    requires ValidBlocks(b) && S.PredsFirst(NetOf(b), log) && 1 <= I <= b.n
    ensures Before(log, Fuc(I, I), Buc(I, I))
    decreases b.n - I
  {
    TaskMembers(b, Fuc(I, I));
    TaskMembers(b, Buc(I, I));
    if b.anc(I) == [] {
      EdgeBefore(b, log, Fuc(I, I), Buc(I, I));
    } else {
      var p := b.anc(I)[0];
      assert p in b.anc(I);
      TaskMembers(b, Fuc(p, I));
      TaskMembers(b, Fuc(p, p));
      TaskMembers(b, Buc(p, I));
      TaskMembers(b, Buc(p, p));
      ForwardFirst(b, log, p);
      EdgeBefore(b, log, Fuc(I, I), Fuc(p, I));
      EdgeBefore(b, log, Fuc(p, I), Fuc(p, p));
      BeforeTrans(log, Fuc(I, I), Fuc(p, I), Fuc(p, p));
      BeforeTrans(log, Fuc(I, I), Fuc(p, p), Buc(p, p));
      EdgeBefore(b, log, Buc(p, p), Buc(p, I));
      BeforeTrans(log, Fuc(I, I), Buc(p, p), Buc(p, I));
      EdgeBefore(b, log, Buc(p, I), Buc(I, I));
      BeforeTrans(log, Fuc(I, I), Buc(p, I), Buc(I, I));
    }
  }

  lemma AllForwardFirst(b: Blocks, log: seq<Task>)
    requires ValidBlocks(b) && S.PredsFirst(NetOf(b), log)
    ensures forall I :: 1 <= I <= b.n ==> Before(log, Fuc(I, I), Buc(I, I))
    ensures forall t, u :: t in TasksOf(b) && u in TasksOf(b) && Edge(b, u, t) ==> Before(log, u, t)
  {
    forall I | 1 <= I <= b.n
      ensures Before(log, Fuc(I, I), Buc(I, I))
    {
      ForwardFirst(b, log, I);
    }
    forall t, u | t in TasksOf(b) && u in TasksOf(b) && Edge(b, u, t)
      ensures Before(log, u, t)
    {
      EdgeBefore(b, log, u, t);
    }
  }

  /** While a coalesced message still has to be fetched its buffer is not free. */
  ghost predicate BuffersHeld(b: Blocks, s: S.State<Task, Message, Slot>) {
    forall m <- MessagesOf(b) :: m.Group? && SourcesOf(b, m) * s.Done() != {} && m !in s.landed ==>
      SlotOf(b, m) in s.outstanding && s.outstanding[SlotOf(b, m)] > 0
  }

  lemma GroupsHeld(b: Blocks, s: S.State<Task, Message, Slot>)
    requires S.Inv(NetOf(b), s)
    ensures BuffersHeld(b, s)
  {
    forall m | m in MessagesOf(b) && m.Group? && SourcesOf(b, m) * s.Done() != {} && m !in s.landed
      ensures SlotOf(b, m) in s.outstanding && s.outstanding[SlotOf(b, m)] > 0
    {
      S.BufferHeld(NetOf(b), s, m);
    }
  }

  // ---------------------------------------------------------------------------------------------
  // The backward phase finds its buffers at rest
  // ---------------------------------------------------------------------------------------------

  /** Every forward task of column I runs before every backward task of that column. */
  lemma ColumnForwardFirst(b: Blocks, log: seq<Task>, I: nat, K: nat, J: nat)
    requires ValidBlocks(b) && FillClosed(b) && S.PredsFirst(NetOf(b), log)
    requires IsCell(b, K, I) && IsCell(b, J, I)
    ensures Before(log, Fuc(K, I), Buc(J, I))
  {
    ForwardFirst(b, log, I);
    ColumnTasks(b, I, K);
    ColumnTasks(b, I, J);
    if J == I && K != I {
      ForwardThrough(b, log, I, K, K);
      EdgeBefore(b, log, Buc(K, K), Buc(K, I));
      BeforeTrans(log, Fuc(K, I), Buc(K, K), Buc(K, I));
      EdgeBefore(b, log, Buc(K, I), Buc(I, I));
      BeforeTrans(log, Fuc(K, I), Buc(K, I), Buc(I, I));
    } else if J != I && K == I {
      ForwardThrough(b, log, I, J, J);
      EdgeBefore(b, log, Fuc(I, I), Fuc(J, I));
      BeforeTrans(log, Fuc(I, I), Fuc(J, I), Buc(J, J));
      EdgeBefore(b, log, Buc(J, J), Buc(J, I));
      BeforeTrans(log, Fuc(I, I), Buc(J, J), Buc(J, I));
    } else if J != I {
      ForwardThrough(b, log, I, K, J);
      EdgeBefore(b, log, Buc(J, J), Buc(J, I));
      BeforeTrans(log, Fuc(K, I), Buc(J, J), Buc(J, I));
    }
  }

  lemma ColumnTasks(b: Blocks, I: nat, J: nat)
    requires ValidBlocks(b) && IsCell(b, J, I)
    ensures Fuc(J, I) in TasksOf(b) && Buc(J, I) in TasksOf(b) && Fuc(J, J) in TasksOf(b) && Buc(J, J) in TasksOf(b)
  {
    TaskMembers(b, Fuc(J, I));
    TaskMembers(b, Buc(J, I));
    TaskMembers(b, Fuc(J, J));
    TaskMembers(b, Buc(J, J));
  }

  /** Fill joins the rows of a column: a forward task in one row runs before the diagonal backward task of any. */
  lemma ForwardThrough(b: Blocks, log: seq<Task>, I: nat, K: nat, J: nat)
    requires ValidBlocks(b) && FillClosed(b) && S.PredsFirst(NetOf(b), log)
    requires 1 <= I <= b.n && K in b.anc(I) && J in b.anc(I)
    ensures Before(log, Fuc(K, I), Buc(J, J))
  {
    ColumnTasks(b, I, K);
    ColumnTasks(b, I, J);
    EdgeBefore(b, log, Fuc(K, I), Fuc(K, K));
    if K <= J {
      if K < J {
        ColumnTasks(b, K, J);
        EdgeBefore(b, log, Fuc(K, K), Fuc(J, K));
        EdgeBefore(b, log, Fuc(J, K), Fuc(J, J));
        BeforeTrans(log, Fuc(K, K), Fuc(J, K), Fuc(J, J));
        BeforeTrans(log, Fuc(K, I), Fuc(K, K), Fuc(J, J));
      }
      ForwardFirst(b, log, J);
      BeforeTrans(log, Fuc(K, I), Fuc(J, J), Buc(J, J));
    } else {
      ColumnTasks(b, J, K);
      ForwardFirst(b, log, K);
      BeforeTrans(log, Fuc(K, I), Fuc(K, K), Buc(K, K));
      EdgeBefore(b, log, Buc(K, K), Buc(K, J));
      BeforeTrans(log, Fuc(K, I), Buc(K, K), Buc(K, J));
      EdgeBefore(b, log, Buc(K, J), Buc(J, J));
      BeforeTrans(log, Fuc(K, I), Buc(K, J), Buc(J, J));
    }
  }

  /** The messages of the forward phase that are fetched from slot contribs[I] of rank r. */
  ghost predicate ForwardFrom(m: Message, slot: Slot, b: Blocks) {
    SlotOf(b, m) == slot && match m case Single(s, _) => s.Fuc? case Group(_, t) => t.Fuc?
  }

  /** Once a backward task has written into the buffer of a slot, every forward message has been fetched from it:
      the buffer is never filled anew under a get. */
  lemma BackwardFindsQuiet(b: Blocks, s: S.State<Task, Message, Slot>, J: nat, I: nat, m: Message)
    requires ValidBlocks(b) && FillClosed(b) && S.Inv(NetOf(b), s)
    requires IsCell(b, J, I) && Buc(J, I) in s.log && m in MessagesOf(b) && ForwardFrom(m, Slot(RankOf(b, Buc(J, I)), I), b)
    ensures m in s.landed
  {
    var u, t := MessageEdge(b, m);
    TaskMembers(b, u);
    TaskMembers(b, t);
    var j :| 0 <= j < |s.log| && s.log[j] == Buc(J, I);
    match m
    case Single(src, _) =>
      ColumnForwardFirst(b, s.log, I, t.J, J);
      assert t in s.log[..j];
      S.RunHasLanded(NetOf(b), s, t, m);
    case Group(_, tgt) =>
      assert t == Fuc(I, I);
      ColumnForwardFirst(b, s.log, I, I, J);
      assert t in s.log[..j];
      S.RunHasLanded(NetOf(b), s, t, m);
  }

  /** The steps lead from the state the solve phase starts in to `s`. */
  ghost predicate SolveRun(b: Blocks, steps: seq<S.Step<Task, Message>>, s: S.State<Task, Message, Slot>)
    requires ValidBlocks(b)
  {
    NetWellFormed(b);
    S.Run(NetOf(b), S.Init(NetOf(b)), steps, s)
  }

  /** Every run of the solve phase, on any distribution of the cells: every task once and after its
      predecessors, forward before backward for every supernode, no buffer freed while a message still has to
      be fetched from it, no deadlock, and every buffer freed at the end. */
  lemma EverySolveRun(b: Blocks, steps: seq<S.Step<Task, Message>>, s: S.State<Task, Message, Slot>)
    requires ValidBlocks(b) && SolveRun(b, steps, s)
    ensures S.WellFormed(NetOf(b)) && S.Inv(NetOf(b), s) && S.NoDuplicates(s.log)
    ensures forall I :: 1 <= I <= b.n ==> Before(s.log, Fuc(I, I), Buc(I, I))
    ensures forall t, u :: t in TasksOf(b) && u in TasksOf(b) && Edge(b, u, t) ==> Before(s.log, u, t)
    ensures BuffersHeld(b, s)
    ensures S.Stuck(NetOf(b), s) ==> (forall t <- TasksOf(b) :: t in s.log) && forall x <- NetOf(b).buffers :: s.outstanding[x] == 0
  {
    NetWellFormed(b);
    NetRanked(b);
    S.EveryRun(NetOf(b), TaskRank(b), steps, s);
    AllForwardFirst(b, s.log);
    GroupsHeld(b, s);
  }
}
