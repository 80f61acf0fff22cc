/** The scheduling of the solve phase: messages that several tasks of one rank contribute to are coalesced, one
    message stands for all of them and lowers the counters of its targets by their number, and the buffer it
    is fetched from is freed after the fetch.

    A message has sources (tasks of one rank) and targets (tasks of another rank).  It is sent when the last
    source has run.  Its arrival lowers in_avail_counter by the number of sources and in_counter by one less;
    the data fetched for it accounts for the rest.  A message with one source is an ordinary one. */
module SolveProtocol {
  import opened Sums

  datatype Net<!T, !M, !B> = Net(
    tasks: set<T>,
    local: T -> set<T>,       // the predecessors on the rank of the task
    msgs: set<M>,
    sources: M -> set<T>,
    targets: M -> set<T>,
    buffers: set<B>,
    counted: M -> bool,       // coalesced: its contribution buffer is counted and freed after the fetch
    buffer: M -> B)           // that buffer

  function Weight<T, M, B>(net: Net<T, M, B>, m: M): nat { |net.sources(m)| }

  /** The messages for task t. */
  ghost function MsgsTo<T, M, B>(net: Net<T, M, B>, t: T): set<M> { set m | m in net.msgs && t in net.targets(m) }

  ghost predicate WellFormed<T(!new), M(!new), B(!new)>(net: Net<T, M, B>) {
    && (forall t <- net.tasks :: net.local(t) <= net.tasks)
    && (forall m <- net.msgs :: net.sources(m) <= net.tasks && net.targets(m) <= net.tasks && net.sources(m) != {}
                                && net.targets(m) != {} && net.buffer(m) in net.buffers)
  }

  datatype State<!T, !M, !B> = State(
    log: seq<T>,
    inCounter: map<T, int>,
    availCounter: map<T, int>,
    count: map<M, int>,         // sources that have run: update_right_cnt and update_up_cnt
    flight: set<M>,             // sent, not arrived
    arrived: set<M>,
    issued: set<T>,             // tasks that have asked for their data
    landed: set<M>,             // fetched
    deallocs: set<M>,           // notices of a completed fetch on their way back
    outstanding: map<B, int>)   // the counter of the buffer
  {
    ghost function Done(): set<T> { set t | t in log }
  }

  datatype Step<T, M> =
    | Execute(t: T)     // a ready task runs
    | Arrive(m: M)      // the RPC of a message runs
    | Ask(t: T)         // an available task asks for its data
    | Land(m: M)        // a get completes; it is started when the message arrives, or when a target asks
    | Dealloc(m: M)     // the notice of a completed fetch reaches the owner of the buffer

  ghost predicate Keyed<T, M, B>(net: Net<T, M, B>, s: State<T, M, B>) {
    && s.inCounter.Keys == net.tasks && s.availCounter.Keys == net.tasks
    && s.count.Keys == net.msgs && s.outstanding.Keys == net.buffers
  }

  ghost predicate Enabled<T(!new), M(!new), B>(net: Net<T, M, B>, s: State<T, M, B>, step: Step<T, M>)
    requires Keyed(net, s)
  {
    match step
    case Execute(t) => t in net.tasks && s.inCounter[t] == 0 && t !in s.log
    case Arrive(m) => m in s.flight && m in net.msgs
    case Ask(t) => t in net.tasks && MsgsTo(net, t) != {} && s.availCounter[t] == 0 && t !in s.issued
    case Land(m) => m in net.msgs && m in s.arrived && m !in s.landed
    case Dealloc(m) => m in net.msgs && m in s.deallocs
  }

  /** The messages that t contributes to. */
  ghost function From<T, M, B>(net: Net<T, M, B>, t: T): set<M> { set m | m in net.msgs && t in net.sources(m) }

  /** The messages to which t is the first to contribute: their sources are added to the counters of their buffers. */
  ghost function Opened<T, M, B>(net: Net<T, M, B>, s: State<T, M, B>, t: T): set<M>
    requires Keyed(net, s)
  {
    set m | m in From(net, t) && s.count[m] == 0 && net.counted(m)
  }

  ghost function WeightMap<T, M, B>(net: Net<T, M, B>): map<M, int> { map m | m in net.msgs :: Weight(net, m) as int }

  ghost function Of<T, M, B>(net: Net<T, M, B>, ms: set<M>, b: B): set<M> { set m | m in ms && m in net.msgs && net.buffer(m) == b }

  ghost function AfterExecute<T(!new), M(!new), B(!new)>(net: Net<T, M, B>, s: State<T, M, B>, t: T): State<T, M, B>
    requires Keyed(net, s) && t in net.tasks
  {
    s.(log := s.log + [t],
       inCounter := map u | u in net.tasks :: s.inCounter[u] - (if t in net.local(u) then 1 else 0),
       count := map m | m in net.msgs :: s.count[m] + (if t in net.sources(m) then 1 else 0),
       flight := s.flight + (set m | m in From(net, t) && s.count[m] + 1 == Weight(net, m)),
       outstanding := map b | b in net.buffers :: s.outstanding[b] + Sum(Of(net, Opened(net, s, t), b), WeightMap(net)))
  }

  ghost function AfterArrive<T(!new), M(!new), B(!new)>(net: Net<T, M, B>, s: State<T, M, B>, m: M): State<T, M, B>
    requires Keyed(net, s) && m in net.msgs
  {
    s.(flight := s.flight - {m},
       arrived := s.arrived + {m},
       availCounter := map u | u in net.tasks :: s.availCounter[u] - (if u in net.targets(m) then Weight(net, m) else 0),
       inCounter := map u | u in net.tasks :: s.inCounter[u] - (if u in net.targets(m) then Weight(net, m) - 1 else 0))
  }

  ghost function AfterAsk<T(!new), M(!new), B(!new)>(net: Net<T, M, B>, s: State<T, M, B>, t: T): State<T, M, B>
    requires Keyed(net, s) && t in net.tasks
  {
    s.(issued := s.issued + {t},
       inCounter := s.inCounter[t := s.inCounter[t] - |MsgsTo(net, t) * s.landed|])
  }

  ghost function AfterLand<T(!new), M(!new), B(!new)>(net: Net<T, M, B>, s: State<T, M, B>, m: M): State<T, M, B>
    requires Keyed(net, s) && m in net.msgs
  {
    s.(landed := s.landed + {m},
       deallocs := s.deallocs + (if net.counted(m) then {m} else {}),
       inCounter := map u | u in net.tasks :: s.inCounter[u] - (if u in net.targets(m) && u in s.issued then 1 else 0))
  }

  ghost function AfterDealloc<T(!new), M(!new), B(!new)>(net: Net<T, M, B>, s: State<T, M, B>, m: M): State<T, M, B>
    requires Keyed(net, s) && m in net.msgs && net.buffer(m) in net.buffers
  {
    s.(deallocs := s.deallocs - {m},
       outstanding := s.outstanding[net.buffer(m) := s.outstanding[net.buffer(m)] - Weight(net, m)])
  }

  ghost function Apply<T(!new), M(!new), B(!new)>(net: Net<T, M, B>, s: State<T, M, B>, step: Step<T, M>): State<T, M, B>
    requires WellFormed(net) && Keyed(net, s) && Enabled(net, s, step)
  {
    match step
    case Execute(t) => AfterExecute(net, s, t)
    case Arrive(m) => AfterArrive(net, s, m)
    case Ask(t) => AfterAsk(net, s, t)
    case Land(m) => AfterLand(net, s, m)
    case Dealloc(m) => AfterDealloc(net, s, m)
  }

  ghost function Init<T(!new), M(!new), B(!new)>(net: Net<T, M, B>): State<T, M, B> {
    State([],
      map t | t in net.tasks :: |net.local(t)| + Sum(MsgsTo(net, t), WeightMap(net)),
      map t | t in net.tasks :: Sum(MsgsTo(net, t), WeightMap(net)),
      map m: M | m in net.msgs :: 0,
      {}, {}, {}, {}, {},
      map b: B | b in net.buffers :: 0)
  }

  // ---------------------------------------------------------------------------------------------
  // The invariant
  // ---------------------------------------------------------------------------------------------

  /** What message m still stands for in in_counter of its target t. */
  ghost function Cost<T, M, B>(net: Net<T, M, B>, s: State<T, M, B>, t: T, m: M): int {
    if m !in s.arrived then Weight(net, m)
    else if m in s.landed && t in s.issued then 0
    else 1
  }

  ghost function Costs<T, M, B>(net: Net<T, M, B>, s: State<T, M, B>, t: T): map<M, int> {
    map m | m in net.msgs :: Cost(net, s, t, m)
  }

  ghost function AvailCosts<T, M, B>(net: Net<T, M, B>, s: State<T, M, B>): map<M, int> {
    map m | m in net.msgs :: if m in s.arrived then 0 else Weight(net, m)
  }

  ghost predicate CounterInv<T(!new), M(!new), B(!new)>(net: Net<T, M, B>, s: State<T, M, B>, t: T)
    requires t in s.inCounter && t in s.availCounter
  {
    && s.inCounter[t] == |net.local(t) - s.Done()| + Sum(MsgsTo(net, t), Costs(net, s, t))
    && s.availCounter[t] == Sum(MsgsTo(net, t), AvailCosts(net, s))
    && (t in s.issued ==> s.availCounter[t] == 0)
    && (t in s.log ==> s.inCounter[t] == 0)
  }

  /** A message is sent exactly when its last source has run. */
  ghost predicate MessageInv<T(!new), M(!new), B(!new)>(net: Net<T, M, B>, s: State<T, M, B>, m: M)
    requires m in s.count
  {
    && s.count[m] == |net.sources(m) * s.Done()|
    && (m in s.flight || m in s.arrived <==> net.sources(m) <= s.Done())
    && !(m in s.flight && m in s.arrived)
    && (m in s.landed ==> m in s.arrived)
    && (m in s.deallocs ==> m in s.landed && net.counted(m))
  }

  /** The messages of a buffer that somebody has contributed to and whose notice has not come back. */
  ghost function Pending<T, M, B>(net: Net<T, M, B>, s: State<T, M, B>): set<M> {
    set m | m in net.msgs && net.counted(m) && (net.sources(m) * s.Done() != {}) && !(m in s.landed && m !in s.deallocs)
  }

  /** The counter of a buffer is the total of the messages that still need it. */
  ghost predicate BufferInv<T(!new), M(!new), B(!new)>(net: Net<T, M, B>, s: State<T, M, B>, b: B)
    requires b in s.outstanding
  {
    s.outstanding[b] == Sum(Of(net, Pending(net, s), b), WeightMap(net))
  }

  ghost predicate NoDuplicates<A(!new)>(xs: seq<A>) { forall i, j :: 0 <= i < j < |xs| ==> xs[i] != xs[j] }

  /** All predecessors of a task: local ones and the sources of its messages. */
  ghost function Preds<T(!new), M(!new), B(!new)>(net: Net<T, M, B>, t: T): set<T> {
    net.local(t) + set m, u | m in MsgsTo(net, t) && u in net.sources(m) :: u
  }

  ghost predicate PredsFirst<T(!new), M(!new), B(!new)>(net: Net<T, M, B>, log: seq<T>) {
    forall j, u :: 0 <= j < |log| && u in Preds(net, log[j]) ==> u in log[..j]
  }

  /** Everything in the state belongs to the net. */
  ghost predicate Known<T(!new), M(!new), B(!new)>(net: Net<T, M, B>, s: State<T, M, B>) {
    && WellFormed(net) && Keyed(net, s)
    && (forall t <- s.log :: t in net.tasks) && s.issued <= net.tasks
    && s.flight <= net.msgs && s.arrived <= net.msgs && s.landed <= net.msgs && s.deallocs <= net.msgs
  }

  ghost predicate Counters<T(!new), M(!new), B(!new)>(net: Net<T, M, B>, s: State<T, M, B>)
    requires Keyed(net, s)
  {
    forall t <- net.tasks :: CounterInv(net, s, t)
  }

  ghost predicate Messages<T(!new), M(!new), B(!new)>(net: Net<T, M, B>, s: State<T, M, B>)
    requires Keyed(net, s)
  {
    forall m <- net.msgs :: MessageInv(net, s, m)
  }

  ghost predicate Buffers<T(!new), M(!new), B(!new)>(net: Net<T, M, B>, s: State<T, M, B>)
    requires Keyed(net, s)
  {
    forall b <- net.buffers :: BufferInv(net, s, b)
  }

  ghost predicate Inv<T(!new), M(!new), B(!new)>(net: Net<T, M, B>, s: State<T, M, B>) {
    && Known(net, s) && Counters(net, s) && Messages(net, s) && Buffers(net, s)
    && NoDuplicates(s.log) && PredsFirst(net, s.log)
  }

  // ---------------------------------------------------------------------------------------------
  // What the counters say
  // ---------------------------------------------------------------------------------------------

  lemma WeightPositive<T(!new), M(!new), B(!new)>(net: Net<T, M, B>, m: M)
    requires WellFormed(net) && m in net.msgs
    ensures Weight(net, m) >= 1
  {
  }

  lemma CostsNonNegative<T(!new), M(!new), B(!new)>(net: Net<T, M, B>, s: State<T, M, B>, t: T)
    requires WellFormed(net) && MsgsTo(net, t) <= net.msgs
    ensures Sum(MsgsTo(net, t), Costs(net, s, t)) >= 0 && Sum(MsgsTo(net, t), AvailCosts(net, s)) >= 0
    ensures Sum(MsgsTo(net, t), Costs(net, s, t)) == 0 <==> forall m <- MsgsTo(net, t) :: Cost(net, s, t, m) == 0
    ensures Sum(MsgsTo(net, t), AvailCosts(net, s)) == 0 <==> forall m <- MsgsTo(net, t) :: m in s.arrived
  {
    forall m | m in MsgsTo(net, t)
      ensures Weight(net, m) >= 1
    {
      WeightPositive(net, m);
    }
    SumNonNegative(MsgsTo(net, t), Costs(net, s, t));
    SumNonNegative(MsgsTo(net, t), AvailCosts(net, s));
    assert forall m <- MsgsTo(net, t) :: AvailCosts(net, s)[m] == 0 <==> m in s.arrived;
    assert forall m <- MsgsTo(net, t) :: Costs(net, s, t)[m] == Cost(net, s, t, m);
  }

  lemma NothingLeft<A(!new)>(a: set<A>, b: set<A>)
    ensures |a - b| == 0 <==> a <= b
  {
    assert a <= (a - b) + b;
    assert a <= b ==> a - b == {};
  }

  lemma CostZero<T(!new), M(!new), B(!new)>(net: Net<T, M, B>, s: State<T, M, B>, t: T, m: M)
    requires WellFormed(net) && m in net.msgs
    ensures Cost(net, s, t, m) == 0 <==> m in s.arrived && m in s.landed && t in s.issued
  {
    WeightPositive(net, m);
  }

  /** No counter is negative; in_counter is zero only when everything has come in. */
  lemma CounterZero<T(!new), M(!new), B(!new)>(net: Net<T, M, B>, s: State<T, M, B>, t: T)
    requires WellFormed(net) && Keyed(net, s) && t in net.tasks && CounterInv(net, s, t)
    ensures s.inCounter[t] >= 0 && s.availCounter[t] >= 0
    ensures s.inCounter[t] == 0 <==> net.local(t) <= s.Done() && forall m <- MsgsTo(net, t) :: m in s.arrived && m in s.landed && t in s.issued
    ensures s.availCounter[t] == 0 <==> forall m <- MsgsTo(net, t) :: m in s.arrived
  {
    CostsNonNegative(net, s, t);
    forall m | m in MsgsTo(net, t)
      ensures Cost(net, s, t, m) == 0 <==> m in s.arrived && m in s.landed && t in s.issued
    {
      CostZero(net, s, t, m);
    }
    NothingLeft(net.local(t), s.Done());
  }

  /** A task with in_counter zero has all its predecessors behind it. */
  lemma ReadyPreds<T(!new), M(!new), B(!new)>(net: Net<T, M, B>, s: State<T, M, B>, t: T, u: T)
    requires WellFormed(net) && Keyed(net, s) && t in net.tasks && CounterInv(net, s, t) && s.inCounter[t] == 0
    requires Messages(net, s)
    requires u in Preds(net, t)
    ensures u in s.Done()
  {
    CounterZero(net, s, t);
    if u !in net.local(t) {
      var m :| m in MsgsTo(net, t) && u in net.sources(m);
      assert MessageInv(net, s, m);
    }
  }

  // ---------------------------------------------------------------------------------------------
  // Steps: execution
  // ---------------------------------------------------------------------------------------------

  lemma LogGrows<T(!new), M(!new), B(!new)>(s: State<T, M, B>, s': State<T, M, B>, t: T)
    requires s'.log == s.log + [t]
    ensures s'.Done() == s.Done() + {t}
  {
  }

  lemma LeftAfter<A(!new)>(a: set<A>, done: set<A>, t: A)
    requires t !in done
    ensures |a - (done + {t})| == |a - done| - (if t in a then 1 else 0)
  {
    if t in a {
      assert a - (done + {t}) == (a - done) - {t};
    } else {
      assert a - (done + {t}) == a - done;
    }
  }

  lemma ExecuteCounter<T(!new), M(!new), B(!new)>(net: Net<T, M, B>, s: State<T, M, B>, s': State<T, M, B>, t: T, u: T)
    requires Keyed(net, s) && Keyed(net, s') && u in net.tasks && CounterInv(net, s, u)
    requires t !in s.log && (u in s.log || u == t ==> t !in net.local(u)) && (u == t ==> s.inCounter[u] == 0)
    requires s'.log == s.log + [t] && s'.issued == s.issued && s'.availCounter == s.availCounter
    requires s'.inCounter[u] == s.inCounter[u] - (if t in net.local(u) then 1 else 0)
    requires Costs(net, s', u) == Costs(net, s, u) && AvailCosts(net, s') == AvailCosts(net, s)
    ensures CounterInv(net, s', u)
  {
    LogGrows(s, s', t);
    LeftAfter(net.local(u), s.Done(), t);
  }

  lemma SameCosts<T(!new), M(!new), B(!new)>(net: Net<T, M, B>, s: State<T, M, B>, s': State<T, M, B>, u: T)
    requires s'.arrived == s.arrived && s'.landed == s.landed && s'.issued == s.issued
    ensures Costs(net, s', u) == Costs(net, s, u) && AvailCosts(net, s') == AvailCosts(net, s)
  {
  }

  lemma ReadyLocal<T(!new), M(!new), B(!new)>(net: Net<T, M, B>, s: State<T, M, B>, t: T, u: T)
    requires WellFormed(net) && Keyed(net, s) && u in net.tasks && CounterInv(net, s, u)
    requires t !in s.log && s.inCounter[u] == 0
    ensures t !in net.local(u)
  {
    CounterZero(net, s, u);
  }

  lemma ExecuteCounterOf<T(!new), M(!new), B(!new)>(net: Net<T, M, B>, s: State<T, M, B>, s': State<T, M, B>, t: T, u: T)
    requires WellFormed(net) && Keyed(net, s) && u in net.tasks && CounterInv(net, s, u) && t !in s.log && (u == t ==> s.inCounter[u] == 0)
    requires Keyed(net, s') && s'.log == s.log + [t] && s'.availCounter == s.availCounter
    requires s'.arrived == s.arrived && s'.landed == s.landed && s'.issued == s.issued
    requires s'.inCounter[u] == s.inCounter[u] - (if t in net.local(u) then 1 else 0)
    ensures CounterInv(net, s', u)
  {
    if s.inCounter[u] == 0 {
      ReadyLocal(net, s, t, u);
    }
    SameCosts(net, s, s', u);
    ExecuteCounter(net, s, s', t, u);
  }

  lemma ExecuteFields<T(!new), M(!new), B(!new)>(net: Net<T, M, B>, s: State<T, M, B>, t: T, u: T)
    requires Keyed(net, s) && t in net.tasks && u in net.tasks
    ensures var s' := AfterExecute(net, s, t);
            && Keyed(net, s') && s'.log == s.log + [t] && s'.availCounter == s.availCounter
            && s'.arrived == s.arrived && s'.landed == s.landed && s'.issued == s.issued
            && s'.inCounter[u] == s.inCounter[u] - (if t in net.local(u) then 1 else 0)
  {
  }

  lemma ExecuteCounters<T(!new), M(!new), B(!new)>(net: Net<T, M, B>, s: State<T, M, B>, s': State<T, M, B>, t: T)
    requires WellFormed(net) && Keyed(net, s) && Counters(net, s) && t in net.tasks && t !in s.log && s.inCounter[t] == 0
    requires s' == AfterExecute(net, s, t) && Keyed(net, s')
    ensures Counters(net, s')
  {
    forall u | u in net.tasks
      ensures CounterInv(net, s', u)
    {
      ExecuteCounterAt(net, s, s', t, u);
    }
  }

  lemma ExecuteCounterAt<T(!new), M(!new), B(!new)>(net: Net<T, M, B>, s: State<T, M, B>, s': State<T, M, B>, t: T, u: T)
    requires WellFormed(net) && Keyed(net, s) && Counters(net, s) && t in net.tasks && t !in s.log && s.inCounter[t] == 0 && u in net.tasks
    requires s' == AfterExecute(net, s, t) && Keyed(net, s')
    ensures CounterInv(net, s', u)
  {
    assert CounterInv(net, s, u);
    ExecuteFields(net, s, t, u);
    ExecuteCounterOf(net, s, s', t, u);
  }

  lemma SubsetSize<A(!new)>(part: set<A>, whole: set<A>)
    ensures |whole * part| <= |whole| && (|whole * part| == |whole| <==> whole <= part)
  {
    var rest := whole - part;
    assert whole == whole * part + rest;
    assert |whole| == |whole * part| + |rest|;
    assert rest == {} <==> whole <= part;
  }

  lemma GrownCount<A(!new)>(sources: set<A>, done: set<A>, t: A)
    requires t !in done
    ensures |sources * (done + {t})| == |sources * done| + (if t in sources then 1 else 0)
    ensures sources <= done + {t} <==> |sources * (done + {t})| == |sources|
    ensures t !in sources ==> (sources <= done + {t} <==> sources <= done)
    ensures t in sources ==> !(sources <= done)
  {
    SubsetSize(done + {t}, sources);
    if t in sources {
      assert sources * (done + {t}) == sources * done + {t};
    } else {
      assert sources * (done + {t}) == sources * done;
    }
  }

  lemma ExecuteMessage<T(!new), M(!new), B(!new)>(net: Net<T, M, B>, s: State<T, M, B>, s': State<T, M, B>, t: T, m: M)
    requires Keyed(net, s) && m in net.msgs && MessageInv(net, s, m) && t !in s.log && m in s'.count
    requires s'.log == s.log + [t] && s'.arrived == s.arrived && s'.landed == s.landed && s'.deallocs == s.deallocs
    requires s'.count[m] == s.count[m] + (if t in net.sources(m) then 1 else 0)
    requires m in s'.flight <==> m in s.flight || (t in net.sources(m) && s.count[m] + 1 == Weight(net, m))
    ensures MessageInv(net, s', m)
  {
    LogGrows(s, s', t);
    GrownCount(net.sources(m), s.Done(), t);
  }

  lemma GrownMeet<A(!new)>(sources: set<A>, done: set<A>, t: A)
    requires t !in done
    ensures sources * (done + {t}) == sources * done + (if t in sources then {t} else {})
    ensures |sources * done| == 0 <==> sources * done == {}
    ensures sources <= done && sources != {} ==> sources * done != {}
  {
    assert sources <= done ==> sources * done == sources;
  }

  lemma ExecutePendingAt<T(!new), M(!new), B(!new)>(net: Net<T, M, B>, s: State<T, M, B>, t: T, m: M)
    requires WellFormed(net) && Keyed(net, s) && t in net.tasks && t !in s.log && m in net.msgs && MessageInv(net, s, m)
    ensures m in Pending(net, AfterExecute(net, s, t)) <==> m in Pending(net, s) || m in Opened(net, s, t)
    ensures !(m in Pending(net, s) && m in Opened(net, s, t))
  {
    LogGrows(s, AfterExecute(net, s, t), t);
    GrownMeet(net.sources(m), s.Done(), t);
  }

  lemma ExecutePending<T(!new), M(!new), B(!new)>(net: Net<T, M, B>, s: State<T, M, B>, t: T)
    requires WellFormed(net) && Keyed(net, s) && t in net.tasks && t !in s.log && Messages(net, s)
    ensures Pending(net, AfterExecute(net, s, t)) == Pending(net, s) + Opened(net, s, t)
    ensures Pending(net, s) !! Opened(net, s, t)
  {
    forall m | m in net.msgs
      ensures m in Pending(net, AfterExecute(net, s, t)) <==> m in Pending(net, s) || m in Opened(net, s, t)
      ensures !(m in Pending(net, s) && m in Opened(net, s, t))
    {
      ExecutePendingAt(net, s, t, m);
    }
  }

  lemma ExecuteBuffer<T(!new), M(!new), B(!new)>(net: Net<T, M, B>, s: State<T, M, B>, s': State<T, M, B>, first: set<M>, b: B)
    requires Keyed(net, s) && Keyed(net, s') && b in net.buffers && BufferInv(net, s, b) && first <= net.msgs
    requires Pending(net, s') == Pending(net, s) + first && Pending(net, s) !! first
    requires s'.outstanding[b] == s.outstanding[b] + Sum(Of(net, first, b), WeightMap(net))
    ensures BufferInv(net, s', b)
  {
    assert Of(net, Pending(net, s'), b) == Of(net, Pending(net, s), b) + Of(net, first, b);
    SumDisjoint(Of(net, Pending(net, s), b), Of(net, first, b), WeightMap(net));
  }

  lemma ExecuteBuffers<T(!new), M(!new), B(!new)>(net: Net<T, M, B>, s: State<T, M, B>, t: T)
    requires WellFormed(net) && Keyed(net, s) && t in net.tasks && t !in s.log && Messages(net, s) && Buffers(net, s)
    ensures Buffers(net, AfterExecute(net, s, t))
  {
    ExecutePending(net, s, t);
    forall b | b in net.buffers
      ensures BufferInv(net, AfterExecute(net, s, t), b)
    {
      ExecuteBuffer(net, s, AfterExecute(net, s, t), Opened(net, s, t), b);
    }
  }

  lemma ExecuteMessages<T(!new), M(!new), B(!new)>(net: Net<T, M, B>, s: State<T, M, B>, t: T)
    requires WellFormed(net) && Keyed(net, s) && t in net.tasks && t !in s.log && Messages(net, s)
    ensures Messages(net, AfterExecute(net, s, t))
  {
    forall m | m in net.msgs
      ensures MessageInv(net, AfterExecute(net, s, t), m)
    {
      ExecuteMessage(net, s, AfterExecute(net, s, t), t, m);
    }
  }

  lemma ExecuteLog<T(!new), M(!new), B(!new)>(net: Net<T, M, B>, log: seq<T>, t: T)
    requires NoDuplicates(log) && PredsFirst(net, log) && t !in log && forall u <- Preds(net, t) :: u in log
    ensures NoDuplicates(log + [t]) && PredsFirst(net, log + [t])
  {
    var log' := log + [t];
    forall j, u | 0 <= j < |log'| && u in Preds(net, log'[j])
      ensures u in log'[..j]
    {
      if j < |log| {
        assert log'[j] == log[j] && log'[..j] == log[..j];
      } else {
        assert log'[..j] == log;
      }
    }
  }

  lemma ExecuteKnown<T(!new), M(!new), B(!new)>(net: Net<T, M, B>, s: State<T, M, B>, t: T)
    requires Known(net, s) && t in net.tasks
    ensures Known(net, AfterExecute(net, s, t))
  {
  }

  lemma ExecuteKeepsInv<T(!new), M(!new), B(!new)>(net: Net<T, M, B>, s: State<T, M, B>, t: T)
    requires Inv(net, s) && t in net.tasks && s.inCounter[t] == 0 && t !in s.log
    ensures Inv(net, AfterExecute(net, s, t))
  {
    forall u | u in Preds(net, t)
      ensures u in s.log
    {
      ReadyPreds(net, s, t, u);
    }
    ExecuteLog(net, s.log, t);
    ExecuteKnown(net, s, t);
    ExecuteCounters(net, s, AfterExecute(net, s, t), t);
    ExecuteMessages(net, s, t);
    ExecuteBuffers(net, s, t);
  }

  // ---------------------------------------------------------------------------------------------
  // Steps: messages and data
  // ---------------------------------------------------------------------------------------------

  ghost function CostSum<T(!new), M(!new), B(!new)>(net: Net<T, M, B>, s: State<T, M, B>, u: T): int {
    Sum(MsgsTo(net, u), Costs(net, s, u))
  }

  ghost function AvailSum<T(!new), M(!new), B(!new)>(net: Net<T, M, B>, s: State<T, M, B>, u: T): int {
    Sum(MsgsTo(net, u), AvailCosts(net, s))
  }

  /** The counters of u move as the costs of its messages do. */
  lemma CounterShift<T(!new), M(!new), B(!new)>(net: Net<T, M, B>, s: State<T, M, B>, s': State<T, M, B>, u: T)
    requires Keyed(net, s) && Keyed(net, s') && u in net.tasks && CounterInv(net, s, u) && s'.log == s.log
    requires s'.inCounter[u] - s.inCounter[u] == CostSum(net, s', u) - CostSum(net, s, u)
    requires s'.availCounter[u] - s.availCounter[u] == AvailSum(net, s', u) - AvailSum(net, s, u)
    requires (u in s'.issued ==> s'.availCounter[u] == 0) && (u in s.log ==> s'.inCounter[u] == 0)
    ensures CounterInv(net, s', u)
  {
    assert s'.Done() == s.Done();
  }

  lemma ArriveCosts<T(!new), M(!new), B(!new)>(net: Net<T, M, B>, s: State<T, M, B>, s': State<T, M, B>, m: M, u: T)
    requires m in net.msgs && m !in s.arrived && m !in s.landed
    requires s'.arrived == s.arrived + {m} && s'.landed == s.landed && s'.issued == s.issued
    ensures CostSum(net, s', u) == CostSum(net, s, u) - (if u in net.targets(m) then Weight(net, m) - 1 else 0)
    ensures AvailSum(net, s', u) == AvailSum(net, s, u) - (if u in net.targets(m) then Weight(net, m) else 0)
  {
    if u in net.targets(m) {
      SumShift(MsgsTo(net, u), Costs(net, s, u), Costs(net, s', u), m);
      SumShift(MsgsTo(net, u), AvailCosts(net, s), AvailCosts(net, s'), m);
    } else {
      SumSame(MsgsTo(net, u), Costs(net, s, u), Costs(net, s', u));
      SumSame(MsgsTo(net, u), AvailCosts(net, s), AvailCosts(net, s'));
    }
  }

  /** A target of a message that has not arrived has not asked for its data and has not run. */
  lemma NotYetAsked<T(!new), M(!new), B(!new)>(net: Net<T, M, B>, s: State<T, M, B>, m: M, u: T)
    requires WellFormed(net) && Keyed(net, s) && m in net.msgs && u in net.tasks && CounterInv(net, s, u)
    requires m !in s.arrived && u in net.targets(m)
    ensures u !in s.issued && u !in s.log
  {
    CounterZero(net, s, u);
    assert m in MsgsTo(net, u);
  }

  /** An arrival lowers in_avail_counter by the number of sources and in_counter by one less. */
  lemma ArriveCounter<T(!new), M(!new), B(!new)>(net: Net<T, M, B>, s: State<T, M, B>, s': State<T, M, B>, m: M, u: T)
    requires WellFormed(net) && Keyed(net, s) && m in net.msgs && u in net.tasks && CounterInv(net, s, u)
    requires m !in s.arrived && m !in s.landed && s' == AfterArrive(net, s, m)
    ensures CounterInv(net, s', u)
  {
    ArriveCosts(net, s, s', m, u);
    if u in net.targets(m) {
      NotYetAsked(net, s, m, u);
    }
    CounterShift(net, s, s', u);
  }

  lemma AskCosts<T(!new), M(!new), B(!new)>(net: Net<T, M, B>, s: State<T, M, B>, s': State<T, M, B>, t: T, u: T)
    requires s.landed <= s.arrived && t !in s.issued
    requires s'.arrived == s.arrived && s'.landed == s.landed && s'.issued == s.issued + {t}
    ensures CostSum(net, s', u) == CostSum(net, s, u) - (if u == t then |MsgsTo(net, t) * s.landed| else 0)
    ensures AvailSum(net, s', u) == AvailSum(net, s, u)
  {
    SumSame(MsgsTo(net, u), AvailCosts(net, s), AvailCosts(net, s'));
    if u == t {
      SumDrop(MsgsTo(net, u), Costs(net, s, u), Costs(net, s', u), s.landed);
    } else {
      SumSame(MsgsTo(net, u), Costs(net, s, u), Costs(net, s', u));
    }
  }

  /** Asking picks up the data that has landed already. */
  lemma AskCounter<T(!new), M(!new), B(!new)>(net: Net<T, M, B>, s: State<T, M, B>, s': State<T, M, B>, t: T, u: T)
    requires WellFormed(net) && Keyed(net, s) && t in net.tasks && u in net.tasks && CounterInv(net, s, u)
    requires s.landed <= s.arrived && t !in s.issued && t !in s.log && s.availCounter[t] == 0 && s' == AfterAsk(net, s, t)
    ensures CounterInv(net, s', u)
  {
    AskCosts(net, s, s', t, u);
    CounterShift(net, s, s', u);
  }

  lemma LandCosts<T(!new), M(!new), B(!new)>(net: Net<T, M, B>, s: State<T, M, B>, s': State<T, M, B>, m: M, u: T)
    requires m in net.msgs && m in s.arrived && m !in s.landed
    requires s'.arrived == s.arrived && s'.landed == s.landed + {m} && s'.issued == s.issued
    ensures CostSum(net, s', u) == CostSum(net, s, u) - (if u in net.targets(m) && u in s.issued then 1 else 0)
    ensures AvailSum(net, s', u) == AvailSum(net, s, u)
  {
    SumSame(MsgsTo(net, u), AvailCosts(net, s), AvailCosts(net, s'));
    if u in net.targets(m) {
      SumShift(MsgsTo(net, u), Costs(net, s, u), Costs(net, s', u), m);
    } else {
      SumSame(MsgsTo(net, u), Costs(net, s, u), Costs(net, s', u));
    }
  }

  lemma NotYetRun<T(!new), M(!new), B(!new)>(net: Net<T, M, B>, s: State<T, M, B>, m: M, u: T)
    requires WellFormed(net) && Keyed(net, s) && m in net.msgs && u in net.tasks && CounterInv(net, s, u)
    requires m !in s.landed && u in net.targets(m)
    ensures u !in s.log
  {
    CounterZero(net, s, u);
    assert m in MsgsTo(net, u);
  }

  /** A landing satisfies the last dependency of every target that has asked. */
  lemma LandCounter<T(!new), M(!new), B(!new)>(net: Net<T, M, B>, s: State<T, M, B>, s': State<T, M, B>, m: M, u: T)
    requires WellFormed(net) && Keyed(net, s) && m in net.msgs && u in net.tasks && CounterInv(net, s, u)
    requires m in s.arrived && m !in s.landed && s' == AfterLand(net, s, m)
    ensures CounterInv(net, s', u)
  {
    LandCosts(net, s, s', m, u);
    if u in net.targets(m) {
      NotYetRun(net, s, m, u);
    }
    CounterShift(net, s, s', u);
  }

  /** A step that runs no task leaves the messages without changes to their sources. */
  lemma SameDone<T(!new), M(!new), B(!new)>(net: Net<T, M, B>, s: State<T, M, B>, s': State<T, M, B>, m: M)
    requires s'.log == s.log && m in net.msgs && m in s.count && MessageInv(net, s, m) && s'.count == s.count
    requires (m in s'.flight || m in s'.arrived) == (m in s.flight || m in s.arrived)
    requires !(m in s'.flight && m in s'.arrived) && (m in s'.landed ==> m in s'.arrived)
    requires m in s'.deallocs ==> m in s'.landed && net.counted(m)
    ensures MessageInv(net, s', m)
  {
    assert s'.Done() == s.Done();
  }

  lemma PendingSame<T(!new), M(!new), B(!new)>(net: Net<T, M, B>, s: State<T, M, B>, s': State<T, M, B>)
    requires Keyed(net, s) && Keyed(net, s') && Buffers(net, s) && s'.log == s.log && s'.outstanding == s.outstanding
    requires forall m <- net.msgs :: net.counted(m) ==> (m in s'.landed && m !in s'.deallocs) == (m in s.landed && m !in s.deallocs)
    ensures Buffers(net, s')
  {
    assert s'.Done() == s.Done();
    assert Pending(net, s') == Pending(net, s);
    forall b | b in net.buffers
      ensures BufferInv(net, s', b)
    {
      assert BufferInv(net, s, b);
    }
  }

  lemma ArriveCounters<T(!new), M(!new), B(!new)>(net: Net<T, M, B>, s: State<T, M, B>, m: M)
    requires WellFormed(net) && Keyed(net, s) && Counters(net, s) && m in net.msgs && m !in s.arrived && m !in s.landed
    ensures Counters(net, AfterArrive(net, s, m))
  {
    forall u | u in net.tasks
      ensures CounterInv(net, AfterArrive(net, s, m), u)
    {
      ArriveCounter(net, s, AfterArrive(net, s, m), m, u);
    }
  }

  lemma ArriveMessages<T(!new), M(!new), B(!new)>(net: Net<T, M, B>, s: State<T, M, B>, m: M)
    requires WellFormed(net) && Keyed(net, s) && Messages(net, s) && m in net.msgs && m in s.flight
    ensures Messages(net, AfterArrive(net, s, m))
  {
    forall k | k in net.msgs
      ensures MessageInv(net, AfterArrive(net, s, m), k)
    {
      assert MessageInv(net, s, k);
      SameDone(net, s, AfterArrive(net, s, m), k);
    }
  }

  lemma ArriveKnown<T(!new), M(!new), B(!new)>(net: Net<T, M, B>, s: State<T, M, B>, m: M)
    requires Known(net, s) && m in net.msgs
    ensures Known(net, AfterArrive(net, s, m)) && AfterArrive(net, s, m).log == s.log
  {
  }

  lemma InFlight<T(!new), M(!new), B(!new)>(net: Net<T, M, B>, s: State<T, M, B>, m: M)
    requires Keyed(net, s) && Messages(net, s) && m in net.msgs && m in s.flight
    ensures m !in s.arrived && m !in s.landed
  {
    assert MessageInv(net, s, m);
  }

  lemma ArriveKeepsInv<T(!new), M(!new), B(!new)>(net: Net<T, M, B>, s: State<T, M, B>, m: M)
    requires Inv(net, s) && m in net.msgs && m in s.flight
    ensures Inv(net, AfterArrive(net, s, m))
  {
    InFlight(net, s, m);
    ArriveKnown(net, s, m);
    ArriveCounters(net, s, m);
    ArriveMessages(net, s, m);
    PendingSame(net, s, AfterArrive(net, s, m));
  }

  lemma LandedArrived<T(!new), M(!new), B(!new)>(net: Net<T, M, B>, s: State<T, M, B>)
    requires Known(net, s) && Messages(net, s)
    ensures s.landed <= s.arrived
  {
    forall m | m in s.landed
      ensures m in s.arrived
    {
      assert MessageInv(net, s, m);
    }
  }

  lemma NotRunYet<T(!new), M(!new), B(!new)>(net: Net<T, M, B>, s: State<T, M, B>, t: T)
    requires WellFormed(net) && Keyed(net, s) && t in net.tasks && CounterInv(net, s, t) && MsgsTo(net, t) != {} && t !in s.issued
    ensures t !in s.log
  {
    CounterZero(net, s, t);
    var m :| m in MsgsTo(net, t);
  }

  /** A step that sends no message and moves none. */
  lemma QuietMessages<T(!new), M(!new), B(!new)>(net: Net<T, M, B>, s: State<T, M, B>, s': State<T, M, B>)
    requires Keyed(net, s) && Keyed(net, s') && Messages(net, s)
    requires s'.log == s.log && s'.count == s.count && s'.flight == s.flight && s'.arrived == s.arrived
    requires s'.landed == s.landed && s'.deallocs <= s.deallocs
    ensures Messages(net, s')
  {
    forall k | k in net.msgs
      ensures MessageInv(net, s', k)
    {
      assert MessageInv(net, s, k);
      SameDone(net, s, s', k);
    }
  }

  lemma AskKnown<T(!new), M(!new), B(!new)>(net: Net<T, M, B>, s: State<T, M, B>, t: T)
    requires Known(net, s) && t in net.tasks
    ensures Known(net, AfterAsk(net, s, t))
  {
  }

  lemma AskedNotRun<T(!new), M(!new), B(!new)>(net: Net<T, M, B>, s: State<T, M, B>, t: T)
    requires WellFormed(net) && Keyed(net, s) && Counters(net, s) && t in net.tasks && MsgsTo(net, t) != {} && t !in s.issued
    ensures t !in s.log
  {
    assert CounterInv(net, s, t);
    NotRunYet(net, s, t);
  }

  lemma AskKeepsInv<T(!new), M(!new), B(!new)>(net: Net<T, M, B>, s: State<T, M, B>, t: T)
    requires Inv(net, s) && t in net.tasks && MsgsTo(net, t) != {} && s.availCounter[t] == 0 && t !in s.issued
    ensures Inv(net, AfterAsk(net, s, t))
  {
    LandedArrived(net, s);
    AskedNotRun(net, s, t);
    AskKnown(net, s, t);
    AskCounters(net, s, t);
    QuietMessages(net, s, AfterAsk(net, s, t));
    PendingSame(net, s, AfterAsk(net, s, t));
  }

  lemma AskCounters<T(!new), M(!new), B(!new)>(net: Net<T, M, B>, s: State<T, M, B>, t: T)
    requires WellFormed(net) && Keyed(net, s) && Counters(net, s) && t in net.tasks && s.availCounter[t] == 0
    requires s.landed <= s.arrived && t !in s.issued && t !in s.log
    ensures Counters(net, AfterAsk(net, s, t))
  {
    forall u | u in net.tasks
      ensures CounterInv(net, AfterAsk(net, s, t), u)
    {
      AskCounter(net, s, AfterAsk(net, s, t), t, u);
    }
  }

  lemma LandCounters<T(!new), M(!new), B(!new)>(net: Net<T, M, B>, s: State<T, M, B>, m: M)
    requires WellFormed(net) && Keyed(net, s) && Counters(net, s) && m in net.msgs && m in s.arrived && m !in s.landed
    ensures Counters(net, AfterLand(net, s, m))
  {
    forall u | u in net.tasks
      ensures CounterInv(net, AfterLand(net, s, m), u)
    {
      LandCounter(net, s, AfterLand(net, s, m), m, u);
    }
  }

  lemma LandMessages<T(!new), M(!new), B(!new)>(net: Net<T, M, B>, s: State<T, M, B>, s': State<T, M, B>, m: M)
    requires Keyed(net, s) && Keyed(net, s') && Messages(net, s) && m in net.msgs && m in s.arrived
    requires s'.log == s.log && s'.count == s.count && s'.flight == s.flight && s'.arrived == s.arrived
    requires s'.landed == s.landed + {m} && s'.deallocs == s.deallocs + (if net.counted(m) then {m} else {})
    ensures Messages(net, s')
  {
    forall k | k in net.msgs
      ensures MessageInv(net, s', k)
    {
      assert MessageInv(net, s, k);
      SameDone(net, s, s', k);
    }
  }

  lemma LandFields<T(!new), M(!new), B(!new)>(net: Net<T, M, B>, s: State<T, M, B>, m: M)
    requires Known(net, s) && m in net.msgs
    ensures var s' := AfterLand(net, s, m);
            && Known(net, s') && s' == s.(landed := s'.landed, deallocs := s'.deallocs, inCounter := s'.inCounter)
            && s'.landed == s.landed + {m} && s'.deallocs == s.deallocs + (if net.counted(m) then {m} else {})
  {
  }

  lemma LandBuffers<T(!new), M(!new), B(!new)>(net: Net<T, M, B>, s: State<T, M, B>, s': State<T, M, B>, m: M)
    requires Keyed(net, s) && Keyed(net, s') && Buffers(net, s) && m !in s.landed
    requires s'.log == s.log && s'.outstanding == s.outstanding && s'.landed == s.landed + {m}
    requires s'.deallocs == s.deallocs + (if net.counted(m) then {m} else {})
    ensures Buffers(net, s')
  {
    PendingSame(net, s, s');
  }

  lemma LandParts<T(!new), M(!new), B(!new)>(net: Net<T, M, B>, s: State<T, M, B>, s': State<T, M, B>, m: M)
    requires Known(net, s) && Known(net, s') && Messages(net, s) && Buffers(net, s) && m in net.msgs && m in s.arrived && m !in s.landed
    requires s' == s.(landed := s'.landed, deallocs := s'.deallocs, inCounter := s'.inCounter)
    requires s'.landed == s.landed + {m} && s'.deallocs == s.deallocs + (if net.counted(m) then {m} else {})
    ensures Messages(net, s') && Buffers(net, s')
  {
    LandMessages(net, s, s', m);
    LandBuffers(net, s, s', m);
  }

  lemma LandKeepsInv<T(!new), M(!new), B(!new)>(net: Net<T, M, B>, s: State<T, M, B>, m: M)
    requires Inv(net, s) && m in net.msgs && m in s.arrived && m !in s.landed
    ensures Inv(net, AfterLand(net, s, m))
  {
    LandFields(net, s, m);
    LandCounters(net, s, m);
    LandParts(net, s, AfterLand(net, s, m), m);
  }

  lemma DeallocBuffer<T(!new), M(!new), B(!new)>(net: Net<T, M, B>, s: State<T, M, B>, s': State<T, M, B>, m: M, b: B)
    requires WellFormed(net) && Keyed(net, s) && Keyed(net, s') && m in net.msgs && b in net.buffers && BufferInv(net, s, b)
    requires m in Pending(net, s) && Pending(net, s') == Pending(net, s) - {m}
    requires s'.outstanding[b] == s.outstanding[b] - (if b == net.buffer(m) then Weight(net, m) else 0)
    ensures BufferInv(net, s', b)
  {
    if b == net.buffer(m) {
      assert Of(net, Pending(net, s'), b) == Of(net, Pending(net, s), b) - {m};
      SumRemove(Of(net, Pending(net, s), b), WeightMap(net), m);
    } else {
      assert Of(net, Pending(net, s'), b) == Of(net, Pending(net, s), b);
    }
  }

  lemma DeallocPending<T(!new), M(!new), B(!new)>(net: Net<T, M, B>, s: State<T, M, B>, s': State<T, M, B>, m: M)
    requires WellFormed(net) && Keyed(net, s) && m in net.msgs && m in s.deallocs && MessageInv(net, s, m)
    requires s'.log == s.log && s'.landed == s.landed && s'.deallocs == s.deallocs - {m}
    ensures m in Pending(net, s) && Pending(net, s') == Pending(net, s) - {m}
  {
    assert s'.Done() == s.Done();
    assert net.sources(m) * s.Done() == net.sources(m);
  }

  lemma DeallocCounters<T(!new), M(!new), B(!new)>(net: Net<T, M, B>, s: State<T, M, B>, s': State<T, M, B>)
    requires Keyed(net, s) && Keyed(net, s') && Counters(net, s) && s'.log == s.log
    requires s'.arrived == s.arrived && s'.landed == s.landed && s'.issued == s.issued
    requires s'.inCounter == s.inCounter && s'.availCounter == s.availCounter
    ensures Counters(net, s')
  {
    forall u | u in net.tasks
      ensures CounterInv(net, s', u)
    {
      assert CounterInv(net, s, u);
      SameCosts(net, s, s', u);
      CounterShift(net, s, s', u);
    }
  }

  lemma NoticePending<T(!new), M(!new), B(!new)>(net: Net<T, M, B>, s: State<T, M, B>, s': State<T, M, B>, m: M)
    requires WellFormed(net) && Keyed(net, s) && Messages(net, s) && m in net.msgs && m in s.deallocs
    requires s'.log == s.log && s'.landed == s.landed && s'.deallocs == s.deallocs - {m}
    ensures m in Pending(net, s) && Pending(net, s') == Pending(net, s) - {m}
  {
    assert MessageInv(net, s, m);
    DeallocPending(net, s, s', m);
  }

  lemma DeallocFields<T(!new), M(!new), B(!new)>(net: Net<T, M, B>, s: State<T, M, B>, m: M)
    requires Known(net, s) && m in net.msgs
    ensures var s' := AfterDealloc(net, s, m);
            && Known(net, s') && s' == s.(deallocs := s'.deallocs, outstanding := s'.outstanding)
            && s'.deallocs == s.deallocs - {m}
            && s'.outstanding == s.outstanding[net.buffer(m) := s.outstanding[net.buffer(m)] - Weight(net, m)]
  {
  }

  lemma DeallocParts<T(!new), M(!new), B(!new)>(net: Net<T, M, B>, s: State<T, M, B>, s': State<T, M, B>, m: M)
    requires Known(net, s) && Known(net, s') && Counters(net, s) && Messages(net, s) && Buffers(net, s) && m in net.msgs && m in s.deallocs
    requires s' == s.(deallocs := s'.deallocs, outstanding := s'.outstanding) && s'.deallocs == s.deallocs - {m}
    requires s'.outstanding == s.outstanding[net.buffer(m) := s.outstanding[net.buffer(m)] - Weight(net, m)]
    ensures Counters(net, s') && Messages(net, s') && Buffers(net, s')
  {
    DeallocCounts(net, s, s', m);
    QuietMessages(net, s, s');
    DeallocCounters(net, s, s');
  }

  lemma DeallocKeepsInv<T(!new), M(!new), B(!new)>(net: Net<T, M, B>, s: State<T, M, B>, m: M)
    requires Inv(net, s) && m in net.msgs && m in s.deallocs
    ensures Inv(net, AfterDealloc(net, s, m))
  {
    DeallocFields(net, s, m);
    DeallocParts(net, s, AfterDealloc(net, s, m), m);
  }

  lemma DeallocCounts<T(!new), M(!new), B(!new)>(net: Net<T, M, B>, s: State<T, M, B>, s': State<T, M, B>, m: M)
    requires WellFormed(net) && Keyed(net, s) && Keyed(net, s') && Messages(net, s) && Buffers(net, s) && m in net.msgs && m in s.deallocs
    requires s'.log == s.log && s'.landed == s.landed && s'.deallocs == s.deallocs - {m}
    requires s'.outstanding == s.outstanding[net.buffer(m) := s.outstanding[net.buffer(m)] - Weight(net, m)]
    ensures Buffers(net, s')
  {
    NoticePending(net, s, s', m);
    DeallocBuffers(net, s, s', m);
  }

  lemma DeallocBuffers<T(!new), M(!new), B(!new)>(net: Net<T, M, B>, s: State<T, M, B>, s': State<T, M, B>, m: M)
    requires WellFormed(net) && Keyed(net, s) && Keyed(net, s') && Buffers(net, s) && m in net.msgs
    requires m in Pending(net, s) && Pending(net, s') == Pending(net, s) - {m}
    requires s'.outstanding == s.outstanding[net.buffer(m) := s.outstanding[net.buffer(m)] - Weight(net, m)]
    ensures Buffers(net, s')
  {
    forall b | b in net.buffers
      ensures BufferInv(net, s', b)
    {
      DeallocBuffer(net, s, s', m, b);
    }
  }

  lemma StepKeepsInv<T(!new), M(!new), B(!new)>(net: Net<T, M, B>, s: State<T, M, B>, step: Step<T, M>)
    requires Inv(net, s) && Enabled(net, s, step)
    ensures Inv(net, Apply(net, s, step))
  {
    match step
    case Execute(t) => ExecuteKeepsInv(net, s, t);
    case Arrive(m) => ArriveKeepsInv(net, s, m);
    case Ask(t) => AskKeepsInv(net, s, t);
    case Land(m) => LandKeepsInv(net, s, m);
    case Dealloc(m) => DeallocKeepsInv(net, s, m);
  }

  lemma SameLog<T(!new), M(!new), B(!new)>(s: State<T, M, B>, s': State<T, M, B>)
    requires s'.log == s.log
    ensures s'.Done() == s.Done()
  {
  }

  lemma ExecuteHistory<T(!new), M(!new), B(!new)>(net: Net<T, M, B>, s: State<T, M, B>, t: T)
    requires Keyed(net, s) && t in net.tasks
    ensures AfterExecute(net, s, t).Done() == s.Done() + {t} && AfterExecute(net, s, t).landed == s.landed
  {
    LogGrows(s, AfterExecute(net, s, t), t);
  }

  /** Which tasks have run and which messages have been fetched after a step. */
  lemma StepHistory<T(!new), M(!new), B(!new)>(net: Net<T, M, B>, s: State<T, M, B>, step: Step<T, M>)
    requires WellFormed(net) && Keyed(net, s) && Enabled(net, s, step)
    ensures Apply(net, s, step).Done() == s.Done() + if step.Execute? then {step.t} else {}
    ensures Apply(net, s, step).landed == s.landed + if step.Land? then {step.m} else {}
  {
    match step
    case Execute(t) => ExecuteHistory(net, s, t);
    case Arrive(m) => SameLog(s, AfterArrive(net, s, m));
    case Ask(t) => SameLog(s, AfterAsk(net, s, t));
    case Land(m) => SameLog(s, AfterLand(net, s, m));
    case Dealloc(m) => SameLog(s, AfterDealloc(net, s, m));
  }

  lemma InitInv<T(!new), M(!new), B(!new)>(net: Net<T, M, B>)
    requires WellFormed(net)
    ensures Inv(net, Init(net))
  {
    InitCounters(net);
    InitMessages(net);
    InitBuffers(net);
  }

  lemma InitCounters<T(!new), M(!new), B(!new)>(net: Net<T, M, B>)
    requires WellFormed(net)
    ensures Counters(net, Init(net))
  {
    var s := Init(net);
    forall t | t in net.tasks
      ensures CounterInv(net, s, t)
    {
      assert net.local(t) - s.Done() == net.local(t);
      SumSame(MsgsTo(net, t), WeightMap(net), Costs(net, s, t));
      SumSame(MsgsTo(net, t), WeightMap(net), AvailCosts(net, s));
    }
  }

  lemma InitMessages<T(!new), M(!new), B(!new)>(net: Net<T, M, B>)
    requires WellFormed(net)
    ensures Messages(net, Init(net))
  {
    var s := Init(net);
    forall m | m in net.msgs
      ensures MessageInv(net, s, m)
    {
      assert net.sources(m) * s.Done() == {};
    }
  }

  lemma InitBuffers<T(!new), M(!new), B(!new)>(net: Net<T, M, B>)
    requires WellFormed(net)
    ensures Buffers(net, Init(net))
  {
    var s := Init(net);
    assert forall m <- net.msgs :: net.sources(m) * s.Done() == {};
    forall b | b in net.buffers
      ensures BufferInv(net, s, b)
    {
      assert Of(net, Pending(net, s), b) == {};
    }
  }

  // ---------------------------------------------------------------------------------------------
  // Progress, buffers, whole runs
  // ---------------------------------------------------------------------------------------------

  ghost predicate Ranked<T(!new), M(!new), B(!new)>(net: Net<T, M, B>, rank: T -> nat) {
    forall t, u :: t in net.tasks && u in Preds(net, t) ==> u in net.tasks && rank(u) < rank(t)
  }

  ghost predicate Stuck<T(!new), M(!new), B(!new)>(net: Net<T, M, B>, s: State<T, M, B>)
    requires Keyed(net, s)
  {
    forall step :: !Enabled(net, s, step)
  }

  lemma StuckMessage<T(!new), M(!new), B(!new)>(net: Net<T, M, B>, s: State<T, M, B>, m: M)
    requires Known(net, s) && Messages(net, s) && Stuck(net, s) && m in net.msgs && net.sources(m) <= s.Done()
    ensures m in s.arrived
    ensures forall t :: t in net.targets(m) && t in s.issued ==> m in s.landed
  {
    assert MessageInv(net, s, m);
    assert !Enabled(net, s, Arrive(m)) && !Enabled(net, s, Land(m));
  }

  lemma StuckInput<T(!new), M(!new), B(!new)>(net: Net<T, M, B>, s: State<T, M, B>, t: T, m: M)
    requires Known(net, s) && Messages(net, s) && Stuck(net, s) && m in MsgsTo(net, t) && Preds(net, t) <= s.Done()
    ensures m in s.arrived && (t in s.issued ==> m in s.landed)
  {
    forall u | u in net.sources(m)
      ensures u in s.Done()
    {
      assert u in Preds(net, t);
    }
    StuckMessage(net, s, m);
  }

  lemma AllIn<T(!new), M(!new), B(!new)>(net: Net<T, M, B>, s: State<T, M, B>, t: T)
    requires Known(net, s) && Counters(net, s) && t in net.tasks && net.local(t) <= s.Done()
    requires forall m <- MsgsTo(net, t) :: m in s.arrived && (t in s.issued ==> m in s.landed)
    ensures s.availCounter[t] == 0
    ensures MsgsTo(net, t) == {} || t in s.issued ==> s.inCounter[t] == 0
  {
    assert CounterInv(net, s, t);
    CounterZero(net, s, t);
  }

  /** In a stuck state a task whose predecessors have run has run. */
  lemma StuckTask<T(!new), M(!new), B(!new)>(net: Net<T, M, B>, s: State<T, M, B>, t: T)
    requires Known(net, s) && Counters(net, s) && Messages(net, s) && Stuck(net, s) && t in net.tasks && Preds(net, t) <= s.Done()
    ensures t in s.log
  {
    forall m | m in MsgsTo(net, t)
      ensures m in s.arrived && (t in s.issued ==> m in s.landed)
    {
      StuckInput(net, s, t, m);
    }
    AllIn(net, s, t);
    StuckSteps(net, s, t);
  }

  lemma StuckSteps<T(!new), M(!new), B(!new)>(net: Net<T, M, B>, s: State<T, M, B>, t: T)
    requires Keyed(net, s) && Stuck(net, s) && t in net.tasks && s.availCounter[t] == 0
    requires MsgsTo(net, t) == {} || t in s.issued ==> s.inCounter[t] == 0
    ensures t in s.log
  {
    assert !Enabled(net, s, Ask(t)) && !Enabled(net, s, Execute(t));
  }

  lemma {:induction false} StuckDone<T(!new), M(!new), B(!new)>(net: Net<T, M, B>, s: State<T, M, B>, rank: T -> nat, t: T)
    requires Known(net, s) && Counters(net, s) && Messages(net, s) && Stuck(net, s) && Ranked(net, rank) && t in net.tasks
    ensures t in s.log
    decreases rank(t)
  {
    forall u | u in Preds(net, t)
      ensures u in s.Done()
    {
      StuckDone(net, s, rank, u);
    }
    StuckTask(net, s, t);
  }

  /** While a message is under way or its data has not been fetched, the counter of its buffer is positive: the
      buffer is not freed. */
  lemma BufferHeld<T(!new), M(!new), B(!new)>(net: Net<T, M, B>, s: State<T, M, B>, m: M)
    requires Inv(net, s) && m in net.msgs && net.counted(m) && (net.sources(m) * s.Done() != {}) && m !in s.landed
    ensures net.buffer(m) in s.outstanding && s.outstanding[net.buffer(m)] >= Weight(net, m) >= 1
  {
    var b := net.buffer(m);
    WeightPositive(net, m);
    assert BufferInv(net, s, b);
    assert m in Of(net, Pending(net, s), b);
    SumRemove(Of(net, Pending(net, s), b), WeightMap(net), m);
    SumNonNegative(Of(net, Pending(net, s), b) - {m}, WeightMap(net));
  }

  /** A buffer is released exactly when no message needs it any more. */
  lemma BufferFree<T(!new), M(!new), B(!new)>(net: Net<T, M, B>, s: State<T, M, B>, b: B)
    requires Inv(net, s) && b in net.buffers
    ensures s.outstanding[b] >= 0
    ensures s.outstanding[b] == 0 <==> Of(net, Pending(net, s), b) == {}
  {
    assert BufferInv(net, s, b);
    forall m | m in Of(net, Pending(net, s), b)
      ensures WeightMap(net)[m] >= 1
    {
      WeightPositive(net, m);
    }
    SumNonNegative(Of(net, Pending(net, s), b), WeightMap(net));
    if Of(net, Pending(net, s), b) != {} {
      var m :| m in Of(net, Pending(net, s), b);
      assert WeightMap(net)[m] != 0;
    }
  }

  ghost predicate Run<T(!new), M(!new), B(!new)>(net: Net<T, M, B>, s: State<T, M, B>, steps: seq<Step<T, M>>, s': State<T, M, B>)
    requires WellFormed(net)
    decreases |steps|
  {
    if steps == [] then s' == s
    else Keyed(net, s) && Enabled(net, s, steps[0]) && Run(net, Apply(net, s, steps[0]), steps[1..], s')
  }

  /** What is left: tasks to run, messages to arrive, tasks to ask, fetches to complete and to report. */
  ghost function Left<T(!new), M(!new), B(!new)>(net: Net<T, M, B>, s: State<T, M, B>): int {
    |net.tasks - s.Done()| + |net.msgs - s.arrived| + |net.tasks - s.issued| + 2 * |net.msgs - s.landed| + |s.deallocs|
  }

  lemma OneLess<A(!new)>(whole: set<A>, part: set<A>, x: A)
    requires x in whole && x !in part
    ensures |whole - (part + {x})| == |whole - part| - 1
  {
    assert whole - (part + {x}) == (whole - part) - {x};
  }

  lemma ExecuteLeft<T(!new), M(!new), B(!new)>(net: Net<T, M, B>, s: State<T, M, B>, t: T)
    requires Keyed(net, s) && t in net.tasks && t !in s.log
    ensures Left(net, AfterExecute(net, s, t)) == Left(net, s) - 1
  {
    LogGrows(s, AfterExecute(net, s, t), t);
    OneLess(net.tasks, s.Done(), t);
  }

  lemma QuietLeft<T(!new), M(!new), B(!new)>(net: Net<T, M, B>, s: State<T, M, B>, s': State<T, M, B>, arrived: int, issued: int, landed: int, deallocs: int)
    requires s'.log == s.log
    requires |net.msgs - s'.arrived| == |net.msgs - s.arrived| - arrived && |net.tasks - s'.issued| == |net.tasks - s.issued| - issued
    requires |net.msgs - s'.landed| == |net.msgs - s.landed| - landed && |s'.deallocs| == |s.deallocs| + deallocs
    ensures Left(net, s') == Left(net, s) - arrived - issued - 2 * landed + deallocs
  {
    assert s'.Done() == s.Done();
  }

  lemma LandLeft<T(!new), M(!new), B(!new)>(net: Net<T, M, B>, s: State<T, M, B>, m: M)
    requires Keyed(net, s) && Messages(net, s) && m in net.msgs && m !in s.landed
    ensures Left(net, AfterLand(net, s, m)) < Left(net, s)
  {
    assert MessageInv(net, s, m);
    OneLess(net.msgs, s.landed, m);
    QuietLeft(net, s, AfterLand(net, s, m), 0, 0, 1, if net.counted(m) then 1 else 0);
  }

  lemma ArriveLeft<T(!new), M(!new), B(!new)>(net: Net<T, M, B>, s: State<T, M, B>, m: M)
    requires Keyed(net, s) && Messages(net, s) && m in net.msgs && m in s.flight
    ensures Left(net, AfterArrive(net, s, m)) == Left(net, s) - 1
  {
    InFlight(net, s, m);
    OneLess(net.msgs, s.arrived, m);
    QuietLeft(net, s, AfterArrive(net, s, m), 1, 0, 0, 0);
  }

  lemma AskLeft<T(!new), M(!new), B(!new)>(net: Net<T, M, B>, s: State<T, M, B>, t: T)
    requires Keyed(net, s) && t in net.tasks && t !in s.issued
    ensures Left(net, AfterAsk(net, s, t)) == Left(net, s) - 1
  {
    OneLess(net.tasks, s.issued, t);
    QuietLeft(net, s, AfterAsk(net, s, t), 0, 1, 0, 0);
  }

  lemma StepCounts<T(!new), M(!new), B(!new)>(net: Net<T, M, B>, s: State<T, M, B>, step: Step<T, M>)
    requires Known(net, s) && Messages(net, s) && Enabled(net, s, step)
    ensures Left(net, Apply(net, s, step)) < Left(net, s)
  {
    match step
    case Execute(t) => ExecuteLeft(net, s, t);
    case Arrive(m) => ArriveLeft(net, s, m);
    case Ask(t) => AskLeft(net, s, t);
    case Land(m) => LandLeft(net, s, m);
    case Dealloc(m) => QuietLeft(net, s, AfterDealloc(net, s, m), 0, 0, 0, -1);
  }

  lemma {:induction false} RunKeepsInv<T(!new), M(!new), B(!new)>(net: Net<T, M, B>, s: State<T, M, B>, steps: seq<Step<T, M>>, s': State<T, M, B>)
    requires WellFormed(net) && Inv(net, s) && Run(net, s, steps, s')
    ensures Inv(net, s') && Left(net, s') + |steps| <= Left(net, s)
    decreases |steps|
  {
    if steps != [] {
      StepKeepsInv(net, s, steps[0]);
      StepCounts(net, s, steps[0]);
      RunKeepsInv(net, Apply(net, s, steps[0]), steps[1..], s');
    }
  }

  lemma RunHasLanded<T(!new), M(!new), B(!new)>(net: Net<T, M, B>, s: State<T, M, B>, t: T, m: M)
    requires Known(net, s) && t in net.tasks && CounterInv(net, s, t) && t in s.log && m in MsgsTo(net, t)
    ensures m in s.landed
  {
    CounterZero(net, s, t);
  }

  /** In a stuck state everything has been fetched and reported. */
  lemma StuckLanded<T(!new), M(!new), B(!new)>(net: Net<T, M, B>, s: State<T, M, B>, m: M)
    requires Known(net, s) && Counters(net, s) && Stuck(net, s) && m in net.msgs && forall t <- net.tasks :: t in s.log
    ensures m in s.landed && m !in s.deallocs
  {
    var t := TargetOf(net, m);
    assert CounterInv(net, s, t);
    RunHasLanded(net, s, t, m);
    StuckNotice(net, s, m);
  }

  lemma TargetOf<T(!new), M(!new), B(!new)>(net: Net<T, M, B>, m: M) returns (t: T)
    requires WellFormed(net) && m in net.msgs
    ensures t in net.tasks && m in MsgsTo(net, t)
  {
    t :| t in net.targets(m);
  }

  lemma StuckNotice<T(!new), M(!new), B(!new)>(net: Net<T, M, B>, s: State<T, M, B>, m: M)
    requires Keyed(net, s) && Stuck(net, s) && m in net.msgs
    ensures m !in s.deallocs
  {
    assert !Enabled(net, s, Dealloc(m));
  }

  lemma StuckBuffers<T(!new), M(!new), B(!new)>(net: Net<T, M, B>, s: State<T, M, B>, b: B)
    requires Inv(net, s) && Stuck(net, s) && b in net.buffers && forall t <- net.tasks :: t in s.log
    ensures s.outstanding[b] == 0
  {
    forall m | m in net.msgs
      ensures m !in Pending(net, s)
    {
      StuckLanded(net, s, m);
    }
    assert Of(net, Pending(net, s), b) == {};
    BufferFree(net, s, b);
  }

  /** Every run of the solve phase: counters never go negative, a task runs once and after its predecessors,
      the run is finite, and when nothing can be done any more every task has run and every buffer is free. */
  lemma EveryRun<T(!new), M(!new), B(!new)>(net: Net<T, M, B>, rank: T -> nat, steps: seq<Step<T, M>>, s: State<T, M, B>)
    requires WellFormed(net) && Ranked(net, rank) && Run(net, Init(net), steps, s)
    ensures Inv(net, s)
    ensures forall t <- net.tasks :: s.inCounter[t] >= 0 && s.availCounter[t] >= 0
    ensures NoDuplicates(s.log) && PredsFirst(net, s.log)
    ensures |steps| <= Left(net, Init(net))
    ensures Stuck(net, s) ==> (forall t <- net.tasks :: t in s.log) && forall b <- net.buffers :: s.outstanding[b] == 0
  {
    InitInv(net);
    RunKeepsInv(net, Init(net), steps, s);
    forall t | t in net.tasks
      ensures s.inCounter[t] >= 0 && s.availCounter[t] >= 0
    {
      assert CounterInv(net, s, t);
      CounterZero(net, s, t);
    }
    if Stuck(net, s) {
      StuckEnd(net, s, rank);
    }
  }

  lemma StuckEnd<T(!new), M(!new), B(!new)>(net: Net<T, M, B>, s: State<T, M, B>, rank: T -> nat)
    requires Inv(net, s) && Ranked(net, rank) && Stuck(net, s)
    ensures (forall t <- net.tasks :: t in s.log) && forall b <- net.buffers :: s.outstanding[b] == 0
  {
    forall t | t in net.tasks
      ensures t in s.log
    {
      StuckDone(net, s, rank, t);
    }
    forall b | b in net.buffers
      ensures s.outstanding[b] == 0
    {
      StuckBuffers(net, s, b);
    }
  }
}
