/** The message-driven scheduler of the 2D solver as a state machine over all ranks.

    A task graph is given by its tasks, by the edges that the ranks recorded in their
    out_dependencies lists, and by the rank that owns each task.  A state holds, for every task,
    the two counters in_counter and in_avail_counter, the queues of the scheduler, and everything
    that is under way: local procedure calls (LPCs), remote procedure calls (RPCs), one-sided gets
    and the callbacks attached to those gets.  Every queue is a multiset of tasks, so a step may pick
    any element: this covers the two priority queues and every message arrival order. */
module TaskProtocol {
  import opened Sums

  /** One incoming_data_t: the data of task `src`, fetched once by rank `rank`.  `diag` separates the
      two objects that one RPC of a FACTOR task may create, the whole cell and its diagonal entries. */
  datatype Obj<!T> = Obj(src: T, rank: nat, diag: bool)

  datatype Graph<!T> = Graph(
    tasks: set<T>,
    edges: seq<(T, T)>,
    owner: T -> nat,
    diag: (T, T) -> bool,
    np: nat)

  /** The part of the out_dependencies of `s` that is filed under rank `r`. */
  function Out<T(==)>(g: Graph<T>, edges: seq<(T, T)>, s: T, r: nat): seq<T> {
    if edges == [] then []
    else if edges[0].0 == s && g.owner(edges[0].1) == r then [edges[0].1] + Out(g, edges[1..], s, r)
    else Out(g, edges[1..], s, r)
  }

  /** The sources of the edges into `t`, either those on the rank of `t` or those on other ranks. */
  function In<T(==)>(g: Graph<T>, edges: seq<(T, T)>, t: T, local: bool): seq<T> {
    if edges == [] then []
    else if edges[0].1 == t && (g.owner(edges[0].0) == g.owner(t)) == local
    then [edges[0].0] + In(g, edges[1..], t, local)
    else In(g, edges[1..], t, local)
  }

  function Succs<T(==)>(g: Graph<T>, s: T, r: nat): seq<T> { Out(g, g.edges, s, r) }
  function Preds<T(==)>(g: Graph<T>, t: T, local: bool): seq<T> { In(g, g.edges, t, local) }

  ghost predicate WellFormed<T(!new)>(g: Graph<T>) {
    && (forall e <- g.edges :: e.0 in g.tasks && e.1 in g.tasks)
    && (forall t <- g.tasks :: g.owner(t) < g.np)
  }

  ghost predicate Ranked<T(!new)>(g: Graph<T>, rank: T -> nat) {
    forall e <- g.edges :: rank(e.0) < rank(e.1)
  }

  function ObjOf<T>(g: Graph<T>, s: T, t: T): Obj<T> { Obj(s, g.owner(t), g.diag(s, t)) }

  ghost predicate Remote<T>(g: Graph<T>, e: (T, T)) { g.owner(e.0) != g.owner(e.1) }

  ghost function GroupsIn<T>(g: Graph<T>, edges: seq<(T, T)>): set<(T, nat)> {
    if edges == [] then {}
    else (if Remote(g, edges[0]) then {(edges[0].0, g.owner(edges[0].1))} else {}) + GroupsIn(g, edges[1..])
  }

  ghost function ObjsIn<T>(g: Graph<T>, edges: seq<(T, T)>): set<Obj<T>> {
    if edges == [] then {}
    else (if Remote(g, edges[0]) then {ObjOf(g, edges[0].0, edges[0].1)} else {}) + ObjsIn(g, edges[1..])
  }

  ghost function FetchersIn<T>(g: Graph<T>, edges: seq<(T, T)>): set<T> {
    if edges == [] then {}
    else (if Remote(g, edges[0]) then {edges[0].1} else {}) + FetchersIn(g, edges[1..])
  }

  /** The RPCs that a complete run sends: one per task and remote rank with at least one target. */
  ghost function Groups<T(!new)>(g: Graph<T>): set<(T, nat)> { GroupsIn(g, g.edges) }

  /** The data objects that these RPCs create. */
  ghost function Objs<T(!new)>(g: Graph<T>): set<Obj<T>> { ObjsIn(g, g.edges) }

  /** The tasks that wait for remote data. */
  ghost function Fetchers<T(!new)>(g: Graph<T>): set<T> { FetchersIn(g, g.edges) }

  // ---------------------------------------------------------------------------------------------
  // States and steps
  // ---------------------------------------------------------------------------------------------

  datatype State<!T> = State(
    inCounter: map<T, int>,
    availCounter: map<T, int>,
    inputMsg: map<T, seq<Obj<T>>>,
    ready: multiset<T>,
    avail: multiset<T>,
    satisfyLpc: multiset<T>,
    availLpc: multiset<T>,
    rpcs: multiset<(T, nat)>,
    rgets: multiset<Obj<T>>,
    callbacks: map<Obj<T>, multiset<T>>,
    // history
    log: seq<T>,
    arrived: set<(T, nat)>,
    landed: set<Obj<T>>,
    issued: set<T>)
  {
    ghost function Done(): set<T> { set t | t in log }
  }

  datatype Step<!T> =
    | Execute(t: T)              // the main loop runs a ready task
    | RpcArrive(t: T, r: nat)    // rank r receives the RPC of task t
    | RgetDone(o: Obj<T>)        // a one-sided get completes
    | AvailDep(t: T)             // an LPC queued by avail_dep runs
    | Communicate(t: T)          // the main loop pops an available task and asks for its data
    | SatisfyDep(t: T)           // an LPC queued by satisfy_dep runs

  ghost predicate Enabled<T(!new)>(g: Graph<T>, s: State<T>, step: Step<T>) {
    match step
    case Execute(t) => t in s.ready
    case RpcArrive(t, r) => (t, r) in s.rpcs
    case RgetDone(o) => o in s.rgets
    case AvailDep(t) => t in s.availLpc
    case Communicate(t) => t in s.avail
    case SatisfyDep(t) => t in s.satisfyLpc
  }

  ghost predicate Keyed<T(!new)>(g: Graph<T>, s: State<T>) {
    && s.inCounter.Keys == g.tasks
    && s.availCounter.Keys == g.tasks
    && s.inputMsg.Keys == g.tasks
    && s.callbacks.Keys == Objs(g)
  }

  ghost predicate Known<T(!new)>(g: Graph<T>, step: Step<T>) {
    if step.RgetDone? then step.o in Objs(g) else step.t in g.tasks
  }

  /** Every queued task is a task of the graph. */
  ghost predicate TasksKnown<T(!new)>(g: Graph<T>, s: State<T>) {
    && (forall t <- s.ready :: t in g.tasks)
    && (forall t <- s.avail :: t in g.tasks)
    && (forall t <- s.satisfyLpc :: t in g.tasks)
    && (forall t <- s.availLpc :: t in g.tasks)
    && (forall t <- s.log :: t in g.tasks)
    && s.issued <= Fetchers(g)
  }

  /** Everything under way belongs to an RPC or a data object of the graph. */
  ghost predicate TrafficKnown<T(!new)>(g: Graph<T>, s: State<T>) {
    && (forall o, t | o in s.callbacks && t in s.callbacks[o] :: t in g.tasks)
    && (forall p <- s.rpcs :: p in Groups(g))
    && (forall o <- s.rgets :: o in Objs(g))
    && (forall t, o | t in s.inputMsg && o in s.inputMsg[t] :: o in Objs(g))
    && s.arrived <= Groups(g)
    && s.landed <= Objs(g)
  }

  ghost function Copies<A>(x: A, n: nat): (r: seq<A>)
    ensures |r| == n && forall i :: 0 <= i < n ==> r[i] == x
  {
    if n == 0 then [] else [x] + Copies(x, n - 1)
  }

  /** The RPCs sent when `t` ends: one for each remote rank with a target. */
  ghost function RpcsOf<T(!new)>(g: Graph<T>, t: T): set<(T, nat)> {
    set p | p in Groups(g) && p.0 == t
  }

  /** The data objects created when the RPC of `t` reaches rank `r`. */
  ghost function ObjsOf<T(!new)>(g: Graph<T>, t: T, r: nat): set<Obj<T>> {
    set o | o in Objs(g) && o.src == t && o.rank == r
  }

  /** How many elements of `xs` are in `seen`, and how many are not. */
  ghost function CountIn<A(!new)>(xs: seq<A>, seen: set<A>): (n: nat)
    ensures n <= |xs|
  {
    if xs == [] then 0 else (if xs[0] in seen then 1 else 0) + CountIn(xs[1..], seen)
  }

  ghost function CountOut<A(!new)>(xs: seq<A>, seen: set<A>): nat { |xs| - CountIn(xs, seen) }

  ghost function AfterExecute<T(!new)>(g: Graph<T>, s: State<T>, t: T): State<T> {
    s.(ready := s.ready - multiset{t},
       log := s.log + [t],
       satisfyLpc := s.satisfyLpc + multiset(Succs(g, t, g.owner(t))),
       rpcs := s.rpcs + multiset(RpcsOf(g, t)))
  }

  ghost function AfterRpcArrive<T(!new)>(g: Graph<T>, s: State<T>, t: T, r: nat): State<T>
    requires Keyed(g, s)
  {
    s.(rpcs := s.rpcs - multiset{(t, r)},
       arrived := s.arrived + {(t, r)},
       inputMsg := map u | u in g.tasks :: s.inputMsg[u] + Copies(ObjOf(g, t, u), multiset(Succs(g, t, r))[u]),
       availLpc := s.availLpc + multiset(Succs(g, t, r)),
       rgets := s.rgets + multiset(ObjsOf(g, t, r)))
  }

  ghost function AfterRgetDone<T(!new)>(g: Graph<T>, s: State<T>, o: Obj<T>): State<T>
    requires Keyed(g, s) && o in Objs(g)
  {
    s.(rgets := s.rgets - multiset{o},
       landed := s.landed + {o},
       satisfyLpc := s.satisfyLpc + s.callbacks[o],
       callbacks := s.callbacks[o := multiset{}])
  }

  ghost function AfterAvailDep<T(!new)>(g: Graph<T>, s: State<T>, t: T): State<T>
    requires Keyed(g, s) && t in g.tasks
  {
    var c := s.availCounter[t] - 1;
    s.(availLpc := s.availLpc - multiset{t},
       availCounter := s.availCounter[t := c],
       avail := if c == 0 then s.avail + multiset{t} else s.avail)
  }

  ghost function AfterCommunicate<T(!new)>(g: Graph<T>, s: State<T>, t: T): State<T>
    requires Keyed(g, s) && t in g.tasks
  {
    s.(avail := s.avail - multiset{t},
       issued := s.issued + {t},
       satisfyLpc := s.satisfyLpc[t := s.satisfyLpc[t] + CountIn(s.inputMsg[t], s.landed)],
       callbacks := map o | o in Objs(g) ::
         if o in s.landed then s.callbacks[o]
         else s.callbacks[o][t := s.callbacks[o][t] + multiset(s.inputMsg[t])[o]])
  }

  ghost function AfterSatisfyDep<T(!new)>(g: Graph<T>, s: State<T>, t: T): State<T>
    requires Keyed(g, s) && t in g.tasks
  {
    var c := s.inCounter[t] - 1;
    s.(satisfyLpc := s.satisfyLpc - multiset{t},
       inCounter := s.inCounter[t := c],
       ready := if c == 0 then s.ready + multiset{t} else s.ready)
  }

  ghost function Apply<T(!new)>(g: Graph<T>, s: State<T>, step: Step<T>): State<T>
    requires Keyed(g, s) && Known(g, step)
  {
    match step
    case Execute(t) => AfterExecute(g, s, t)
    case RpcArrive(t, r) => AfterRpcArrive(g, s, t, r)
    case RgetDone(o) => AfterRgetDone(g, s, o)
    case AvailDep(t) => AfterAvailDep(g, s, t)
    case Communicate(t) => AfterCommunicate(g, s, t)
    case SatisfyDep(t) => AfterSatisfyDep(g, s, t)
  }

  // ---------------------------------------------------------------------------------------------
  // Initial state: the counters filled while the task graph was built, then one pass over the tasks
  // ---------------------------------------------------------------------------------------------

  /** The two in-counters agree with the out-lists of all ranks: the double-entry property. */
  ghost predicate Balanced<T(!new)>(g: Graph<T>, local: map<T, nat>, remote: map<T, nat>) {
    && local.Keys == g.tasks && remote.Keys == g.tasks
    && forall t <- g.tasks :: local[t] == |Preds(g, t, true)| && remote[t] == |Preds(g, t, false)|
  }

  ghost function Init<T(!new)>(g: Graph<T>, local: map<T, nat>, remote: map<T, nat>): State<T>
    requires local.Keys == g.tasks && remote.Keys == g.tasks
  {
    State(
      map t | t in g.tasks :: local[t] + remote[t],
      map t: T | t in g.tasks :: remote[t] as int,
      map t | t in g.tasks :: [],
      multiset(set t | t in g.tasks && local[t] + remote[t] == 0),
      multiset{}, multiset{}, multiset{}, multiset{}, multiset{},
      map o | o in Objs(g) :: multiset{},
      [], {}, {}, {})
  }

  // ---------------------------------------------------------------------------------------------
  // The invariant
  // ---------------------------------------------------------------------------------------------

  /** The tasks whose RPC has reached rank `r`. */
  ghost function ArrivedAt<T(!new)>(s: State<T>, r: nat): set<T> {
    set p | p in s.arrived && p.1 == r :: p.0
  }

  /** The remote inputs of `t` for which satisfy_dep has not been called yet. */
  ghost function Unfetched<T(!new)>(g: Graph<T>, s: State<T>, t: T): nat
    requires t in s.inputMsg
  {
    if t in s.issued then CountOut(s.inputMsg[t], s.landed) else |Preds(g, t, false)|
  }

  ghost predicate CounterInv<T(!new)>(g: Graph<T>, s: State<T>, t: T)
    requires t in s.inCounter && t in s.availCounter && t in s.inputMsg
  {
    && s.inCounter[t] == CountOut(Preds(g, t, true), s.Done()) + s.satisfyLpc[t] + Unfetched(g, s, t)
    && s.availCounter[t] == CountOut(Preds(g, t, false), ArrivedAt(s, g.owner(t))) + s.availLpc[t]
    && |s.inputMsg[t]| == CountIn(Preds(g, t, false), ArrivedAt(s, g.owner(t)))
    && s.availLpc[t] <= |s.inputMsg[t]|
    && (t in s.issued ==> s.availCounter[t] == 0)
    && s.avail[t] == (if Preds(g, t, false) != [] && s.availCounter[t] == 0 && t !in s.issued then 1 else 0)
    && s.ready[t] == (if s.inCounter[t] == 0 && t !in s.log then 1 else 0)
    && (t in s.log ==> s.inCounter[t] == 0)
  }

  ghost predicate DataInv<T(!new)>(g: Graph<T>, s: State<T>, t: T, o: Obj<T>)
    requires t in s.inputMsg && o in s.callbacks
  {
    && multiset(s.inputMsg[t])[o] ==
         (if (o.src, o.rank) in s.arrived && o.rank == g.owner(t) && o.diag == g.diag(o.src, t)
          then multiset(Preds(g, t, false))[o.src] else 0)
    && s.callbacks[o][t] == (if t in s.issued && o !in s.landed then multiset(s.inputMsg[t])[o] else 0)
  }

  ghost predicate FlightInv<T(!new)>(g: Graph<T>, s: State<T>) {
    && (forall p <- Groups(g) :: s.rpcs[p] == (if p.0 in s.log && p !in s.arrived then 1 else 0))
    && (forall p <- s.arrived :: p.0 in s.log)
    && (forall o <- Objs(g) :: s.rgets[o] == (if (o.src, o.rank) in s.arrived && o !in s.landed then 1 else 0))
    && (forall o <- s.landed :: (o.src, o.rank) in s.arrived)
  }

  ghost predicate NoDuplicates<A(!new)>(xs: seq<A>) {
    forall i, j :: 0 <= i < j < |xs| ==> xs[i] != xs[j]
  }

  /** Every predecessor of an executed task was executed before it. */
  ghost predicate RespectsEdges<T(!new)>(g: Graph<T>, log: seq<T>) {
    forall e, j :: e in g.edges && 0 <= j < |log| && log[j] == e.1 ==> e.0 in log[..j]
  }

  ghost predicate Inv<T(!new)>(g: Graph<T>, s: State<T>) {
    && WellFormed(g)
    && Keyed(g, s)
    && TasksKnown(g, s)
    && TrafficKnown(g, s)
    && (forall t <- g.tasks :: CounterInv(g, s, t))
    && (forall t, o | t in g.tasks && o in Objs(g) :: DataInv(g, s, t, o))
    && FlightInv(g, s)
    && NoDuplicates(s.log)
    && RespectsEdges(g, s.log)
  }

  // ---------------------------------------------------------------------------------------------
  // Counting
  // ---------------------------------------------------------------------------------------------

  lemma {:induction false} CountInAdd<A(!new)>(xs: seq<A>, seen: set<A>, a: A)
    requires a !in seen
    ensures CountIn(xs, seen + {a}) == CountIn(xs, seen) + multiset(xs)[a]
  {
    if xs != [] {
      CountInAdd(xs[1..], seen, a);
      assert xs == [xs[0]] + xs[1..];
    }
  }

  lemma {:induction false} CountInCopies<A(!new)>(x: A, n: nat, seen: set<A>)
    ensures multiset(Copies(x, n)) == multiset{}[x := n]
    ensures CountIn(Copies(x, n), seen) == if x in seen then n else 0
  {
    if n > 0 {
      CountInCopies(x, n - 1, seen);
    }
  }

  lemma {:induction false} CountInFull<A(!new)>(xs: seq<A>, seen: set<A>)
    ensures CountIn(xs, seen) == |xs| <==> forall x <- xs :: x in seen
  {
    if xs != [] {
      CountInFull(xs[1..], seen);
      assert xs == [xs[0]] + xs[1..];
    }
  }

  lemma {:induction false} CountInNone<A(!new)>(xs: seq<A>, seen: set<A>)
    requires forall x <- xs :: x !in seen
    ensures CountIn(xs, seen) == 0
  {
    if xs != [] {
      CountInNone(xs[1..], seen);
    }
  }

  /** What is filed under a rank is owned by that rank and is an edge, and every edge is filed. */
  lemma {:induction false} OutMembers<T>(g: Graph<T>, edges: seq<(T, T)>, s: T, r: nat)
    ensures forall t :: t in Out(g, edges, s, r) <==> (s, t) in edges && g.owner(t) == r
  {
    if edges != [] {
      OutMembers(g, edges[1..], s, r);
      assert edges == [edges[0]] + edges[1..];
    }
  }

  lemma {:induction false} InMembers<T>(g: Graph<T>, edges: seq<(T, T)>, t: T, local: bool)
    ensures forall s :: s in In(g, edges, t, local) <==> (s, t) in edges && (g.owner(s) == g.owner(t)) == local
  {
    if edges != [] {
      InMembers(g, edges[1..], t, local);
      assert edges == [edges[0]] + edges[1..];
    }
  }

  lemma {:induction false} RemoteEdge<T>(g: Graph<T>, edges: seq<(T, T)>, e: (T, T))
    requires e in edges && Remote(g, e)
    ensures (e.0, g.owner(e.1)) in GroupsIn(g, edges)
    ensures ObjOf(g, e.0, e.1) in ObjsIn(g, edges)
    ensures e.1 in FetchersIn(g, edges)
  {
    if edges[0] != e {
      RemoteEdge(g, edges[1..], e);
    }
  }

  lemma {:induction false} GroupEdge<T>(g: Graph<T>, edges: seq<(T, T)>, p: (T, nat)) returns (e: (T, T))
    requires p in GroupsIn(g, edges)
    ensures e in edges && Remote(g, e) && p == (e.0, g.owner(e.1))
  {
    if Remote(g, edges[0]) && p == (edges[0].0, g.owner(edges[0].1)) {
      e := edges[0];
    } else {
      e := GroupEdge(g, edges[1..], p);
    }
  }

  lemma {:induction false} ObjEdge<T>(g: Graph<T>, edges: seq<(T, T)>, o: Obj<T>) returns (e: (T, T))
    requires o in ObjsIn(g, edges)
    ensures e in edges && Remote(g, e) && o == ObjOf(g, e.0, e.1)
  {
    if Remote(g, edges[0]) && o == ObjOf(g, edges[0].0, edges[0].1) {
      e := edges[0];
    } else {
      e := ObjEdge(g, edges[1..], o);
    }
  }

  lemma {:induction false} FetcherEdge<T>(g: Graph<T>, edges: seq<(T, T)>, t: T) returns (e: (T, T))
    requires t in FetchersIn(g, edges)
    ensures e in edges && Remote(g, e) && e.1 == t
  {
    if Remote(g, edges[0]) && edges[0].1 == t {
      e := edges[0];
    } else {
      e := FetcherEdge(g, edges[1..], t);
    }
  }

  /** A group is a rank with a nonempty entry in out_dependencies; a fetcher has a remote in-edge. */
  lemma GroupMembers<T(!new)>(g: Graph<T>, t: T, r: nat)
    ensures (t, r) in Groups(g) <==> r != g.owner(t) && Succs(g, t, r) != []
    ensures t in Fetchers(g) <==> Preds(g, t, false) != []
  {
    OutMembers(g, g.edges, t, r);
    InMembers(g, g.edges, t, false);
    if (t, r) in Groups(g) {
      var e := GroupEdge(g, g.edges, (t, r));
      assert e == (t, e.1);
      assert e.1 in Succs(g, t, r);
    }
    if r != g.owner(t) && Succs(g, t, r) != [] {
      var u := Succs(g, t, r)[0];
      assert u in Succs(g, t, r);
      RemoteEdge(g, g.edges, (t, u));
    }
    if t in Fetchers(g) {
      var e := FetcherEdge(g, g.edges, t);
      assert e == (e.0, t);
      assert e.0 in Preds(g, t, false);
    }
    if Preds(g, t, false) != [] {
      var u := Preds(g, t, false)[0];
      assert u in Preds(g, t, false);
      RemoteEdge(g, g.edges, (u, t));
    }
  }

  /** An edge counted by its source is counted as often by its target. */
  lemma {:induction false} EdgeMultiplicity<T>(g: Graph<T>, edges: seq<(T, T)>, s: T, t: T, r: nat)
    ensures multiset(Out(g, edges, s, r))[t] ==
            if g.owner(t) == r then multiset(In(g, edges, t, g.owner(s) == r))[s] else 0
    ensures multiset(In(g, edges, t, g.owner(s) != g.owner(t)))[s] == 0
  {
    if edges != [] {
      EdgeMultiplicity(g, edges[1..], s, t, r);
    }
  }

  // ---------------------------------------------------------------------------------------------
  // Every step keeps the invariant
  // ---------------------------------------------------------------------------------------------

  /** Multiplicities between `t` and `u`, seen from both ends of the graph's edges. */
  lemma Multiplicity<T(!new)>(g: Graph<T>, t: T, u: T)
    ensures forall r: nat ::
              multiset(Succs(g, t, r))[u] ==
              (if g.owner(u) == r then multiset(Preds(g, u, g.owner(t) == r))[t] else 0)
    ensures g.owner(t) != g.owner(u) ==> multiset(Preds(g, u, true))[t] == 0
    ensures g.owner(t) == g.owner(u) ==> multiset(Preds(g, u, false))[t] == 0
  {
    forall r: nat
      ensures multiset(Succs(g, t, r))[u] ==
              if g.owner(u) == r then multiset(Preds(g, u, g.owner(t) == r))[t] else 0
    {
      EdgeMultiplicity(g, g.edges, t, u, r);
    }
    EdgeMultiplicity(g, g.edges, t, u, g.owner(u));
  }

  lemma ReadyRemotePred<T(!new)>(g: Graph<T>, s: State<T>, t: T, u: T)
    requires Keyed(g, s) && FlightInv(g, s) && s.arrived <= Groups(g) && t in g.tasks
    requires CounterInv(g, s, t) && t in s.ready && u in Preds(g, t, false)
    requires ObjOf(g, u, t) in Objs(g) && DataInv(g, s, t, ObjOf(g, u, t))
    ensures (u, g.owner(t)) in s.arrived && ObjOf(g, u, t) in s.landed && u in s.log
  {
    assert Unfetched(g, s, t) == 0;
    assert t in s.issued;
    CountInFull(s.inputMsg[t], s.landed);
    CountInFull(Preds(g, t, false), ArrivedAt(s, g.owner(t)));
    assert ObjOf(g, u, t) in s.inputMsg[t];
  }

  /** The log and the ready tasks after a task has run. */
  lemma ExecuteHistory<T(!new)>(g: Graph<T>, s: State<T>, t: T)
    ensures forall u :: u in AfterExecute(g, s, t).log <==> u in s.log || u == t
    ensures forall u :: u != t ==> (u in AfterExecute(g, s, t).ready <==> u in s.ready)
  {
  }

  /** A ready task has not run, its predecessors have, and the data of the remote ones has landed. */
  lemma ReadyPredsDone<T(!new)>(g: Graph<T>, s: State<T>, t: T)
    requires Inv(g, s) && t in s.ready
    ensures t !in s.log
    ensures forall u <- Preds(g, t, true) :: u in s.log
    ensures forall u <- Preds(g, t, false) ::
              (u, g.owner(t)) in s.arrived && ObjOf(g, u, t) in s.landed && u in s.log
  {
    assert CounterInv(g, s, t);
    CountInFull(Preds(g, t, true), s.Done());
    InMembers(g, g.edges, t, false);
    forall u | u in Preds(g, t, false)
      ensures (u, g.owner(t)) in s.arrived && ObjOf(g, u, t) in s.landed && u in s.log
    {
      RemoteEdge(g, g.edges, (u, t));
      assert DataInv(g, s, t, ObjOf(g, u, t));
      ReadyRemotePred(g, s, t, u);
    }
  }

  lemma ExecuteLog<T(!new)>(g: Graph<T>, log: seq<T>, t: T)
    requires NoDuplicates(log) && RespectsEdges(g, log) && t !in log
    requires forall e <- g.edges :: e.1 == t ==> e.0 in log
    ensures NoDuplicates(log + [t]) && RespectsEdges(g, log + [t])
  {
    var log' := log + [t];
    forall e, j | e in g.edges && 0 <= j < |log'| && log'[j] == e.1
      ensures e.0 in log'[..j]
    {
      if j < |log| {
        assert e.0 in log[..j];
        assert log'[..j] == log[..j];
      } else {
        assert log'[..j] == log;
      }
    }
  }

  lemma SuccsKnown<T(!new)>(g: Graph<T>, queue: multiset<T>, t: T, r: nat)
    requires WellFormed(g)
    requires forall u <- queue :: u in g.tasks
    ensures forall u <- queue + multiset(Succs(g, t, r)) :: u in g.tasks
  {
    OutMembers(g, g.edges, t, r);
    assert forall u <- queue + multiset(Succs(g, t, r)) :: u in queue || u in Succs(g, t, r);
  }

  lemma RpcsKnown<T(!new)>(g: Graph<T>, rpcs: multiset<(T, nat)>, t: T)
    requires t in g.tasks
    requires forall p <- rpcs :: p in Groups(g)
    ensures forall p <- rpcs + multiset(RpcsOf(g, t)) :: p in Groups(g)
  {
    assert forall p <- RpcsOf(g, t) :: p in Groups(g);
    assert forall p <- rpcs + multiset(RpcsOf(g, t)) :: p in rpcs || p in RpcsOf(g, t);
  }

  lemma ObjsKnown<T(!new)>(g: Graph<T>, rgets: multiset<Obj<T>>, t: T, r: nat)
    requires forall o <- rgets :: o in Objs(g)
    ensures forall o <- rgets + multiset(ObjsOf(g, t, r)) :: o in Objs(g)
  {
    assert forall o <- rgets + multiset(ObjsOf(g, t, r)) :: o in rgets || o in ObjsOf(g, t, r);
  }

  lemma ExecuteKnown<T(!new)>(g: Graph<T>, s: State<T>, t: T)
    requires WellFormed(g) && Keyed(g, s) && TasksKnown(g, s) && TrafficKnown(g, s)
    requires t in g.tasks
    ensures Keyed(g, AfterExecute(g, s, t))
    ensures TasksKnown(g, AfterExecute(g, s, t))
    ensures TrafficKnown(g, AfterExecute(g, s, t))
  {
    SuccsKnown(g, s.satisfyLpc, t, g.owner(t));
    RpcsKnown(g, s.rpcs, t);
  }

  lemma InputsKnown<T(!new)>(g: Graph<T>, inputs: seq<Obj<T>>, t: T, r: nat, u: T)
    requires WellFormed(g) && r != g.owner(t)
    requires forall o <- inputs :: o in Objs(g)
    ensures forall o <- inputs + Copies(ObjOf(g, t, u), multiset(Succs(g, t, r))[u]) :: o in Objs(g)
  {
    var k := multiset(Succs(g, t, r))[u];
    CountInCopies(ObjOf(g, t, u), k, {});
    if k > 0 {
      OutMembers(g, g.edges, t, r);
      assert u in Succs(g, t, r);
      RemoteEdge(g, g.edges, (t, u));
    }
  }

  lemma RpcArriveTraffic<T(!new)>(g: Graph<T>, s: State<T>, t: T, r: nat)
    requires WellFormed(g) && Keyed(g, s) && TrafficKnown(g, s)
    requires r != g.owner(t) && (t, r) in Groups(g)
    ensures TrafficKnown(g, AfterRpcArrive(g, s, t, r))
  {
    ObjsKnown(g, s.rgets, t, r);
    forall u | u in g.tasks
      ensures forall o <- AfterRpcArrive(g, s, t, r).inputMsg[u] :: o in Objs(g)
    {
      InputsKnown(g, s.inputMsg[u], t, r, u);
    }
  }

  lemma RpcArriveKnown<T(!new)>(g: Graph<T>, s: State<T>, t: T, r: nat)
    requires WellFormed(g) && Keyed(g, s) && TasksKnown(g, s)
    ensures Keyed(g, AfterRpcArrive(g, s, t, r))
    ensures TasksKnown(g, AfterRpcArrive(g, s, t, r))
  {
    SuccsKnown(g, s.availLpc, t, r);
  }

  lemma RgetDoneKnown<T(!new)>(g: Graph<T>, s: State<T>, o: Obj<T>)
    requires WellFormed(g) && Keyed(g, s) && TasksKnown(g, s) && TrafficKnown(g, s)
    requires o in Objs(g)
    ensures Keyed(g, AfterRgetDone(g, s, o))
    ensures TasksKnown(g, AfterRgetDone(g, s, o))
    ensures TrafficKnown(g, AfterRgetDone(g, s, o))
  {
  }

  lemma AvailDepKnown<T(!new)>(g: Graph<T>, s: State<T>, t: T)
    requires WellFormed(g) && Keyed(g, s) && TasksKnown(g, s) && TrafficKnown(g, s)
    requires t in g.tasks
    ensures Keyed(g, AfterAvailDep(g, s, t))
    ensures TasksKnown(g, AfterAvailDep(g, s, t))
    ensures TrafficKnown(g, AfterAvailDep(g, s, t))
  {
  }

  lemma CallbacksKnown<T(!new)>(g: Graph<T>, queue: multiset<T>, t: T, n: nat)
    requires t in g.tasks && forall u <- queue :: u in g.tasks
    ensures forall u <- queue[t := n] :: u in g.tasks
  {
  }

  lemma CommunicateTraffic<T(!new)>(g: Graph<T>, s: State<T>, t: T)
    requires Keyed(g, s) && TrafficKnown(g, s) && t in g.tasks
    ensures TrafficKnown(g, AfterCommunicate(g, s, t))
  {
    var s' := AfterCommunicate(g, s, t);
    forall o, u | o in s'.callbacks && u in s'.callbacks[o]
      ensures u in g.tasks
    {
      CallbacksKnown(g, s.callbacks[o], t, s.callbacks[o][t] + multiset(s.inputMsg[t])[o]);
    }
  }

  lemma CommunicateKnown<T(!new)>(g: Graph<T>, s: State<T>, t: T)
    requires Keyed(g, s) && TasksKnown(g, s) && t in g.tasks && t in Fetchers(g)
    ensures Keyed(g, AfterCommunicate(g, s, t))
    ensures TasksKnown(g, AfterCommunicate(g, s, t))
  {
    CallbacksKnown(g, s.satisfyLpc, t, s.satisfyLpc[t] + CountIn(s.inputMsg[t], s.landed));
  }

  lemma SatisfyDepKnown<T(!new)>(g: Graph<T>, s: State<T>, t: T)
    requires WellFormed(g) && Keyed(g, s) && TasksKnown(g, s) && TrafficKnown(g, s)
    requires t in g.tasks
    ensures Keyed(g, AfterSatisfyDep(g, s, t))
    ensures TasksKnown(g, AfterSatisfyDep(g, s, t))
    ensures TrafficKnown(g, AfterSatisfyDep(g, s, t))
  {
  }

  lemma ExecuteCounter<T(!new)>(g: Graph<T>, s: State<T>, t: T, u: T)
    requires Keyed(g, s) && t in g.tasks && t !in s.log && u in g.tasks && s.ready[t] == 1
    requires CounterInv(g, s, t) && CounterInv(g, s, u)
    ensures CounterInv(g, AfterExecute(g, s, t), u)
  {
    var s' := AfterExecute(g, s, t);
    assert s'.Done() == s.Done() + {t};
    Multiplicity(g, t, u);
    CountInAdd(Preds(g, u, true), s.Done(), t);
    assert ArrivedAt(s', g.owner(u)) == ArrivedAt(s, g.owner(u));
    assert Unfetched(g, s', u) == Unfetched(g, s, u);
  }

  lemma ExecuteFlight<T(!new)>(g: Graph<T>, s: State<T>, t: T)
    requires Keyed(g, s) && FlightInv(g, s) && t in g.tasks && t !in s.log
    ensures FlightInv(g, AfterExecute(g, s, t))
  {
    var s' := AfterExecute(g, s, t);
    var sent := RpcsOf(g, t);
    forall p | p in Groups(g)
      ensures s'.rpcs[p] == (if p.0 in s'.log && p !in s'.arrived then 1 else 0)
    {
      assert p in sent <==> p.0 == t;
      assert s'.rpcs[p] == s.rpcs[p] + multiset(sent)[p];
    }
  }

  lemma ExecuteKeepsInv<T(!new)>(g: Graph<T>, s: State<T>, t: T)
    requires Inv(g, s) && t in s.ready
    ensures Inv(g, AfterExecute(g, s, t))
  {
    var s' := AfterExecute(g, s, t);
    ExecuteKnown(g, s, t);
    ReadyPredsDone(g, s, t);
    ExecuteFlight(g, s, t);
    forall u | u in g.tasks
      ensures CounterInv(g, s', u)
    {
      ExecuteCounter(g, s, t, u);
    }
    forall u, o | u in g.tasks && o in Objs(g)
      ensures DataInv(g, s', u, o)
    {
      assert DataInv(g, s, u, o);
    }
    InMembers(g, g.edges, t, true);
    InMembers(g, g.edges, t, false);
    assert forall e <- g.edges :: e.1 == t ==> e == (e.0, t);
    ExecuteLog(g, s.log, t);
  }

  /** A value of `xs` outside `seen` keeps the count below the length. */
  lemma CountOutAtLeast<A(!new)>(xs: seq<A>, seen: set<A>, a: A)
    requires a !in seen
    ensures CountOut(xs, seen) >= multiset(xs)[a]
  {
    CountInAdd(xs, seen, a);
    assert CountIn(xs, seen + {a}) <= |xs|;
  }

  lemma RpcArriveCounter<T(!new)>(g: Graph<T>, s: State<T>, t: T, r: nat, u: T)
    requires Keyed(g, s) && t in g.tasks && r != g.owner(t) && (t, r) !in s.arrived && u in g.tasks
    requires CounterInv(g, s, u)
    ensures CounterInv(g, AfterRpcArrive(g, s, t, r), u)
  {
    var s' := AfterRpcArrive(g, s, t, r);
    Multiplicity(g, t, u);
    var k := multiset(Succs(g, t, r))[u];
    var w := g.owner(u);
    assert ArrivedAt(s', w) == if w == r then ArrivedAt(s, w) + {t} else ArrivedAt(s, w);
    if w == r {
      CountInAdd(Preds(g, u, false), ArrivedAt(s, w), t);
      CountOutAtLeast(Preds(g, u, false), ArrivedAt(s, w), t);
    }
    assert k > 0 ==> u !in s.issued;
    assert s'.Done() == s.Done();
    assert k == 0 ==> s'.inputMsg[u] == s.inputMsg[u];
  }

  lemma RpcArriveData<T(!new)>(g: Graph<T>, s: State<T>, t: T, r: nat, u: T, o: Obj<T>)
    requires Keyed(g, s) && t in g.tasks && r != g.owner(t) && (t, r) !in s.arrived && u in g.tasks && o in Objs(g)
    requires CounterInv(g, s, u) && DataInv(g, s, u, o)
    ensures DataInv(g, AfterRpcArrive(g, s, t, r), u, o)
  {
    var s' := AfterRpcArrive(g, s, t, r);
    Multiplicity(g, t, u);
    var k := multiset(Succs(g, t, r))[u];
    CountInCopies(ObjOf(g, t, u), k, {});
    assert multiset(s'.inputMsg[u])[o] == multiset(s.inputMsg[u])[o] + (if o == ObjOf(g, t, u) then k else 0);
    if g.owner(u) == r {
      CountOutAtLeast(Preds(g, u, false), ArrivedAt(s, r), t);
    }
    assert k > 0 ==> u !in s.issued;
  }

  lemma RpcArriveFlight<T(!new)>(g: Graph<T>, s: State<T>, t: T, r: nat)
    requires WellFormed(g) && Keyed(g, s) && FlightInv(g, s) && (t, r) in Groups(g) && (t, r) in s.rpcs
    ensures FlightInv(g, AfterRpcArrive(g, s, t, r))
  {
    var s' := AfterRpcArrive(g, s, t, r);
    var made := ObjsOf(g, t, r);
    forall o | o in Objs(g)
      ensures s'.rgets[o] == (if (o.src, o.rank) in s'.arrived && o !in s'.landed then 1 else 0)
    {
      assert o in made <==> o.src == t && o.rank == r;
      assert s'.rgets[o] == s.rgets[o] + multiset(made)[o];
    }
  }

  lemma RpcArriveKeepsInv<T(!new)>(g: Graph<T>, s: State<T>, t: T, r: nat)
    requires Inv(g, s) && (t, r) in s.rpcs
    ensures Inv(g, AfterRpcArrive(g, s, t, r))
  {
    var s' := AfterRpcArrive(g, s, t, r);
    assert (t, r) in Groups(g) && (t, r) !in s.arrived && t in s.log;
    GroupMembers(g, t, r);
    RpcArriveKnown(g, s, t, r);
    RpcArriveTraffic(g, s, t, r);
    RpcArriveFlight(g, s, t, r);
    forall u | u in g.tasks
      ensures CounterInv(g, s', u)
    {
      RpcArriveCounter(g, s, t, r, u);
    }
    forall u, o | u in g.tasks && o in Objs(g)
      ensures DataInv(g, s', u, o)
    {
      RpcArriveData(g, s, t, r, u, o);
    }
  }

  lemma RgetDoneCounter<T(!new)>(g: Graph<T>, s: State<T>, o: Obj<T>, u: T)
    requires Keyed(g, s) && o in Objs(g) && o !in s.landed && u in g.tasks
    requires CounterInv(g, s, u) && DataInv(g, s, u, o)
    ensures CounterInv(g, AfterRgetDone(g, s, o), u)
  {
    var s' := AfterRgetDone(g, s, o);
    CountInAdd(s.inputMsg[u], s.landed, o);
    assert s'.Done() == s.Done();
    assert ArrivedAt(s', g.owner(u)) == ArrivedAt(s, g.owner(u));
  }

  lemma RgetDoneData<T(!new)>(g: Graph<T>, s: State<T>, o: Obj<T>, u: T, p: Obj<T>)
    requires Keyed(g, s) && o in Objs(g) && u in g.tasks && p in Objs(g)
    requires DataInv(g, s, u, p)
    ensures DataInv(g, AfterRgetDone(g, s, o), u, p)
  {
  }

  lemma RgetDoneFlight<T(!new)>(g: Graph<T>, s: State<T>, o: Obj<T>)
    requires Keyed(g, s) && FlightInv(g, s) && o in Objs(g) && o in s.rgets
    ensures FlightInv(g, AfterRgetDone(g, s, o))
  {
  }

  lemma RgetDoneKeepsInv<T(!new)>(g: Graph<T>, s: State<T>, o: Obj<T>)
    requires Inv(g, s) && o in s.rgets
    ensures Inv(g, AfterRgetDone(g, s, o))
  {
    var s' := AfterRgetDone(g, s, o);
    assert o in Objs(g) && s.rgets[o] == 1;
    RgetDoneKnown(g, s, o);
    RgetDoneFlight(g, s, o);
    forall u | u in g.tasks
      ensures CounterInv(g, s', u)
    {
      assert DataInv(g, s, u, o);
      RgetDoneCounter(g, s, o, u);
    }
    forall u, p | u in g.tasks && p in Objs(g)
      ensures DataInv(g, s', u, p)
    {
      RgetDoneData(g, s, o, u, p);
    }
  }

  lemma AvailDepKeepsInv<T(!new)>(g: Graph<T>, s: State<T>, t: T)
    requires Inv(g, s) && t in s.availLpc
    ensures Inv(g, AfterAvailDep(g, s, t))
  {
    var s' := AfterAvailDep(g, s, t);
    AvailDepKnown(g, s, t);
    assert t in g.tasks;
    forall u | u in g.tasks
      ensures CounterInv(g, s', u)
    {
      AvailDepCounter(g, s, t, u);
    }
    forall u, o | u in g.tasks && o in Objs(g)
      ensures DataInv(g, s', u, o)
    {
      assert DataInv(g, s, u, o);
    }
  }

  lemma AvailDepCounter<T(!new)>(g: Graph<T>, s: State<T>, t: T, u: T)
    requires Keyed(g, s) && t in g.tasks && u in g.tasks && t in s.availLpc
    requires CounterInv(g, s, u) && CounterInv(g, s, t)
    ensures CounterInv(g, AfterAvailDep(g, s, t), u)
  {
    var s' := AfterAvailDep(g, s, t);
    assert s'.Done() == s.Done();
    assert ArrivedAt(s', g.owner(u)) == ArrivedAt(s, g.owner(u));
    assert s.availCounter[t] > 0;
  }

  lemma SatisfyDepCounter<T(!new)>(g: Graph<T>, s: State<T>, t: T, u: T)
    requires Keyed(g, s) && t in g.tasks && u in g.tasks && t in s.satisfyLpc
    requires CounterInv(g, s, u) && CounterInv(g, s, t)
    ensures CounterInv(g, AfterSatisfyDep(g, s, t), u)
  {
    var s' := AfterSatisfyDep(g, s, t);
    assert s'.Done() == s.Done();
    assert ArrivedAt(s', g.owner(u)) == ArrivedAt(s, g.owner(u));
    assert s.inCounter[t] > 0;
  }

  lemma SatisfyDepKeepsInv<T(!new)>(g: Graph<T>, s: State<T>, t: T)
    requires Inv(g, s) && t in s.satisfyLpc
    ensures Inv(g, AfterSatisfyDep(g, s, t))
  {
    var s' := AfterSatisfyDep(g, s, t);
    SatisfyDepKnown(g, s, t);
    assert t in g.tasks;
    forall u | u in g.tasks
      ensures CounterInv(g, s', u)
    {
      SatisfyDepCounter(g, s, t, u);
    }
    forall u, o | u in g.tasks && o in Objs(g)
      ensures DataInv(g, s', u, o)
    {
      assert DataInv(g, s, u, o);
    }
  }

  lemma CommunicateCounter<T(!new)>(g: Graph<T>, s: State<T>, t: T, u: T)
    requires Keyed(g, s) && t in g.tasks && u in g.tasks && t in s.avail
    requires CounterInv(g, s, u) && CounterInv(g, s, t)
    ensures CounterInv(g, AfterCommunicate(g, s, t), u)
  {
    var s' := AfterCommunicate(g, s, t);
    assert s'.Done() == s.Done();
    assert ArrivedAt(s', g.owner(u)) == ArrivedAt(s, g.owner(u));
    assert CountOut(Preds(g, t, false), ArrivedAt(s, g.owner(t))) == 0;
    assert Unfetched(g, s, t) == |s.inputMsg[t]|;
    assert Unfetched(g, s', t) == CountOut(s.inputMsg[t], s.landed);
  }

  lemma CommunicateData<T(!new)>(g: Graph<T>, s: State<T>, t: T, u: T, o: Obj<T>)
    requires Keyed(g, s) && t in g.tasks && t !in s.issued && u in g.tasks && o in Objs(g)
    requires DataInv(g, s, u, o)
    ensures DataInv(g, AfterCommunicate(g, s, t), u, o)
  {
  }

  lemma CommunicateKeepsInv<T(!new)>(g: Graph<T>, s: State<T>, t: T)
    requires Inv(g, s) && t in s.avail
    ensures Inv(g, AfterCommunicate(g, s, t))
  {
    var s' := AfterCommunicate(g, s, t);
    assert CounterInv(g, s, t);
    GroupMembers(g, t, 0);
    CommunicateKnown(g, s, t);
    CommunicateTraffic(g, s, t);
    forall u | u in g.tasks
      ensures CounterInv(g, s', u)
    {
      CommunicateCounter(g, s, t, u);
    }
    forall u, o | u in g.tasks && o in Objs(g)
      ensures DataInv(g, s', u, o)
    {
      CommunicateData(g, s, t, u, o);
    }
  }

  /** Safety: every step of every rank keeps the invariant. */
  lemma StepKeepsInv<T(!new)>(g: Graph<T>, s: State<T>, step: Step<T>)
    requires Inv(g, s) && Enabled(g, s, step)
    ensures Known(g, step)
    ensures Inv(g, Apply(g, s, step))
  {
    match step
    case Execute(t) => ExecuteKeepsInv(g, s, t);
    case RpcArrive(t, r) => RpcArriveKeepsInv(g, s, t, r);
    case RgetDone(o) => RgetDoneKeepsInv(g, s, o);
    case AvailDep(t) => AvailDepKeepsInv(g, s, t);
    case Communicate(t) => CommunicateKeepsInv(g, s, t);
    case SatisfyDep(t) => SatisfyDepKeepsInv(g, s, t);
  }

  lemma InitCounter<T(!new)>(g: Graph<T>, local: map<T, nat>, remote: map<T, nat>, t: T)
    requires Balanced(g, local, remote) && t in g.tasks
    ensures CounterInv(g, Init(g, local, remote), t)
  {
    var s := Init(g, local, remote);
    CountInNone(Preds(g, t, true), s.Done());
    CountInNone(Preds(g, t, false), ArrivedAt(s, g.owner(t)));
  }

  lemma InitKnown<T(!new)>(g: Graph<T>, local: map<T, nat>, remote: map<T, nat>)
    requires local.Keys == g.tasks && remote.Keys == g.tasks
    ensures Keyed(g, Init(g, local, remote))
    ensures TasksKnown(g, Init(g, local, remote))
    ensures TrafficKnown(g, Init(g, local, remote))
    ensures FlightInv(g, Init(g, local, remote))
  {
  }

  lemma InitInv<T(!new)>(g: Graph<T>, local: map<T, nat>, remote: map<T, nat>)
    requires WellFormed(g) && Balanced(g, local, remote)
    ensures Inv(g, Init(g, local, remote))
  {
    var s := Init(g, local, remote);
    InitKnown(g, local, remote);
    forall t | t in g.tasks
      ensures CounterInv(g, s, t)
      ensures forall o <- Objs(g) :: DataInv(g, s, t, o)
    {
      InitCounter(g, local, remote, t);
    }
  }

  // ---------------------------------------------------------------------------------------------
  // Progress: a step is enabled while a task is left
  // ---------------------------------------------------------------------------------------------

  ghost predicate Stuck<T(!new)>(g: Graph<T>, s: State<T>) {
    forall step :: !Enabled(g, s, step)
  }

  lemma {:induction false} LeastRank<T(!new)>(todo: set<T>, rank: T -> nat) returns (t: T)
    requires todo != {}
    ensures t in todo && forall u <- todo :: rank(t) <= rank(u)
  {
    var x :| x in todo;
    if todo == {x} {
      t := x;
    } else {
      var y := LeastRank(todo - {x}, rank);
      t := if rank(x) <= rank(y) then x else y;
    }
  }

  lemma NothingUnderWay<T(!new)>(g: Graph<T>, s: State<T>)
    requires Stuck(g, s)
    ensures forall t :: t !in s.ready && t !in s.avail && t !in s.satisfyLpc && t !in s.availLpc
    ensures forall p :: p !in s.rpcs
    ensures forall o :: o !in s.rgets
  {
    forall t
      ensures t !in s.ready && t !in s.avail && t !in s.satisfyLpc && t !in s.availLpc
    {
      assert !Enabled(g, s, Execute(t)) && !Enabled(g, s, Communicate(t));
      assert !Enabled(g, s, AvailDep(t)) && !Enabled(g, s, SatisfyDep(t));
    }
    forall p
      ensures p !in s.rpcs
    {
      assert !Enabled(g, s, RpcArrive(p.0, p.1));
    }
    forall o
      ensures o !in s.rgets
    {
      assert !Enabled(g, s, RgetDone(o));
    }
  }

  lemma StuckPredArrived<T(!new)>(g: Graph<T>, s: State<T>, t: T, u: T)
    requires FlightInv(g, s) && u in s.log && u in Preds(g, t, false) && forall p :: p !in s.rpcs
    ensures u in ArrivedAt(s, g.owner(t))
  {
    InMembers(g, g.edges, t, false);
    RemoteEdge(g, g.edges, (u, t));
    assert s.rpcs[(u, g.owner(t))] == 0;
  }

  lemma StuckInputsLanded<T(!new)>(g: Graph<T>, s: State<T>, t: T)
    requires Inv(g, s) && t in g.tasks && forall o :: o !in s.rgets
    ensures CountOut(s.inputMsg[t], s.landed) == 0
  {
    forall o | o in s.inputMsg[t]
      ensures o in s.landed
    {
      assert DataInv(g, s, t, o);
      StuckLanded(g, s, t, o);
    }
    CountInFull(s.inputMsg[t], s.landed);
  }

  /** With nothing under way, a task whose predecessors have all run was itself run. */
  lemma StuckTaskDone<T(!new)>(g: Graph<T>, s: State<T>, t: T)
    requires Inv(g, s) && Stuck(g, s) && t in g.tasks
    requires forall u <- Preds(g, t, true) :: u in s.log
    requires forall u <- Preds(g, t, false) :: u in s.log
    ensures t in s.log
  {
    NothingUnderWay(g, s);
    assert CounterInv(g, s, t);
    CountInFull(Preds(g, t, true), s.Done());
    forall u | u in Preds(g, t, false)
      ensures u in ArrivedAt(s, g.owner(t))
    {
      StuckPredArrived(g, s, t, u);
    }
    CountInFull(Preds(g, t, false), ArrivedAt(s, g.owner(t)));
    StuckInputsLanded(g, s, t);
  }

  lemma StuckLanded<T(!new)>(g: Graph<T>, s: State<T>, t: T, o: Obj<T>)
    requires Keyed(g, s) && FlightInv(g, s) && t in g.tasks && o in Objs(g) && o in s.inputMsg[t] && o !in s.rgets
    requires DataInv(g, s, t, o)
    ensures o in s.landed
  {
  }

  lemma DoneKnown<T(!new)>(g: Graph<T>, s: State<T>)
    requires TasksKnown(g, s)
    ensures s.Done() <= g.tasks
  {
  }

  lemma StuckLeastDone<T(!new)>(g: Graph<T>, s: State<T>, rank: T -> nat, todo: set<T>, t: T)
    requires Inv(g, s) && Ranked(g, rank) && Stuck(g, s) && todo == g.tasks - s.Done()
    requires t in g.tasks && forall u <- todo :: rank(t) <= rank(u)
    ensures t in s.log
  {
    InMembers(g, g.edges, t, true);
    InMembers(g, g.edges, t, false);
    forall u | (u, t) in g.edges
      ensures u in s.log
    {
      assert rank((u, t).0) < rank((u, t).1);
      assert u !in todo;
    }
    StuckTaskDone(g, s, t);
  }

  lemma StuckNoneLeft<T(!new)>(g: Graph<T>, s: State<T>, rank: T -> nat, todo: set<T>)
    requires Inv(g, s) && Ranked(g, rank) && Stuck(g, s) && todo == g.tasks - s.Done()
    ensures todo == {}
  {
    if todo != {} {
      var t := LeastRank(todo, rank);
      StuckLeastDone(g, s, rank, todo, t);
    }
  }

  lemma NothingMissing<A>(part: set<A>, whole: set<A>)
    requires part <= whole && whole - part == {}
    ensures part == whole
  {
    assert whole == part + (whole - part);
  }

  /** A run can stop only when every task has been executed. */
  lemma Progress<T(!new)>(g: Graph<T>, s: State<T>, rank: T -> nat)
    requires Inv(g, s) && Ranked(g, rank) && Stuck(g, s)
    ensures s.Done() == g.tasks
  {
    var todo := g.tasks - s.Done();
    StuckNoneLeft(g, s, rank, todo);
    DoneKnown(g, s);
    NothingMissing(s.Done(), g.tasks);
  }

  // ---------------------------------------------------------------------------------------------
  // Every step brings the end exactly one step closer
  // ---------------------------------------------------------------------------------------------

  /** The number of steps still to come: tasks to run, LPCs of the two kinds, available tasks to pop,
      RPCs to receive and gets to complete. */
  ghost function StepsLeft<T(!new)>(g: Graph<T>, s: State<T>): int
    requires Keyed(g, s)
  {
    TasksLeft(g.tasks, s) + Missing(Fetchers(g), s.issued) + Missing(Groups(g), s.arrived) + Missing(Objs(g), s.landed)
  }

  ghost function TasksLeft<T(!new)>(tasks: set<T>, s: State<T>): int
    requires tasks <= s.inCounter.Keys && tasks <= s.availCounter.Keys
  {
    Missing(tasks, s.Done()) + Sum(tasks, s.inCounter) + Sum(tasks, s.availCounter)
  }

  ghost function Missing<A(!new)>(whole: set<A>, part: set<A>): nat { |whole - part| }

  lemma OneLess<A(!new)>(whole: set<A>, part: set<A>, x: A)
    requires x in whole && x !in part
    ensures Missing(whole, part + {x}) == Missing(whole, part) - 1
  {
    assert whole - (part + {x}) == (whole - part) - {x};
  }

  lemma LogGrows<T(!new)>(s: State<T>, s': State<T>, t: T)
    requires s'.log == s.log + [t]
    ensures s'.Done() == s.Done() + {t}
  {
  }

  lemma StepCountsTasks<T(!new)>(g: Graph<T>, s: State<T>, s': State<T>, t: T)
    requires Keyed(g, s) && t in g.tasks
    requires s'.inCounter == s.inCounter && s'.availCounter == s.availCounter
    requires s'.log == s.log + [t] && t !in s.log
    ensures TasksLeft(g.tasks, s') == TasksLeft(g.tasks, s) - 1
  {
    LogGrows(s, s', t);
    OneLess(g.tasks, s.Done(), t);
  }

  lemma StepCountsLpcs<T(!new)>(g: Graph<T>, s: State<T>, s': State<T>, t: T)
    requires Keyed(g, s) && t in g.tasks && s'.log == s.log
    requires || (s'.inCounter == s.inCounter && s'.availCounter == s.availCounter[t := s.availCounter[t] - 1])
             || (s'.inCounter == s.inCounter[t := s.inCounter[t] - 1] && s'.availCounter == s.availCounter)
    ensures Keyed(g, s'.(inputMsg := s.inputMsg, callbacks := s.callbacks))
    ensures TasksLeft(g.tasks, s') == TasksLeft(g.tasks, s) - 1
  {
    assert s'.Done() == s.Done();
    SumUpdate(g.tasks, s.availCounter, t, s.availCounter[t] - 1);
    SumUpdate(g.tasks, s.inCounter, t, s.inCounter[t] - 1);
  }

  ghost predicate Novel<T(!new)>(g: Graph<T>, s: State<T>, step: Step<T>) {
    match step
    case Execute(t) => t !in s.log
    case RpcArrive(t, r) => (t, r) in Groups(g) && (t, r) !in s.arrived
    case RgetDone(o) => o !in s.landed
    case Communicate(t) => t in Fetchers(g) && t !in s.issued
    case _ => true
  }

  lemma SameTasksLeft<T(!new)>(g: Graph<T>, s: State<T>, s': State<T>)
    requires Keyed(g, s)
    requires s'.inCounter == s.inCounter && s'.availCounter == s.availCounter && s'.log == s.log
    ensures TasksLeft(g.tasks, s') == TasksLeft(g.tasks, s)
  {
    assert s'.Done() == s.Done();
  }

  /** A step that moves nothing but RPCs, gets and available tasks. */
  ghost predicate SameCounters<T(!new)>(s: State<T>, s': State<T>) {
    && s'.inCounter == s.inCounter && s'.availCounter == s.availCounter && s'.log == s.log
  }

  lemma TrafficCounts<T(!new)>(g: Graph<T>, s: State<T>, s': State<T>)
    requires Keyed(g, s) && Keyed(g, s') && SameCounters(s, s')
    requires || (s'.issued == s.issued && s'.landed == s.landed
                 && exists p :: p in Groups(g) && p !in s.arrived && s'.arrived == s.arrived + {p})
             || (s'.issued == s.issued && s'.arrived == s.arrived
                 && exists o :: o in Objs(g) && o !in s.landed && s'.landed == s.landed + {o})
             || (s'.arrived == s.arrived && s'.landed == s.landed
                 && exists t :: t in Fetchers(g) && t !in s.issued && s'.issued == s.issued + {t})
    ensures StepsLeft(g, s') == StepsLeft(g, s) - 1
  {
    SameTasksLeft(g, s, s');
    if p :| p in Groups(g) && p !in s.arrived && s'.arrived == s.arrived + {p} {
      OneLess(Groups(g), s.arrived, p);
    } else if o :| o in Objs(g) && o !in s.landed && s'.landed == s.landed + {o} {
      OneLess(Objs(g), s.landed, o);
    } else {
      var t :| t in Fetchers(g) && t !in s.issued && s'.issued == s.issued + {t};
      OneLess(Fetchers(g), s.issued, t);
    }
  }

  lemma TaskStepCounts<T(!new)>(g: Graph<T>, s: State<T>, s': State<T>)
    requires Keyed(g, s) && Keyed(g, s')
    requires s'.issued == s.issued && s'.arrived == s.arrived && s'.landed == s.landed
    requires TasksLeft(g.tasks, s') == TasksLeft(g.tasks, s) - 1
    ensures StepsLeft(g, s') == StepsLeft(g, s) - 1
  {
  }

  lemma StepShape<T(!new)>(g: Graph<T>, s: State<T>, step: Step<T>)
    requires Keyed(g, s) && Known(g, step)
    ensures Keyed(g, Apply(g, s, step))
  {
  }

  lemma ExecuteCounts<T(!new)>(g: Graph<T>, s: State<T>, t: T)
    requires Keyed(g, s) && t in g.tasks && t !in s.log
    ensures Keyed(g, AfterExecute(g, s, t))
    ensures StepsLeft(g, AfterExecute(g, s, t)) == StepsLeft(g, s) - 1
  {
    StepCountsTasks(g, s, AfterExecute(g, s, t), t);
    TaskStepCounts(g, s, AfterExecute(g, s, t));
  }

  lemma AvailDepCounts<T(!new)>(g: Graph<T>, s: State<T>, t: T)
    requires Keyed(g, s) && t in g.tasks
    ensures Keyed(g, AfterAvailDep(g, s, t))
    ensures StepsLeft(g, AfterAvailDep(g, s, t)) == StepsLeft(g, s) - 1
  {
    StepCountsLpcs(g, s, AfterAvailDep(g, s, t), t);
    TaskStepCounts(g, s, AfterAvailDep(g, s, t));
  }

  lemma SatisfyDepCounts<T(!new)>(g: Graph<T>, s: State<T>, t: T)
    requires Keyed(g, s) && t in g.tasks
    ensures Keyed(g, AfterSatisfyDep(g, s, t))
    ensures StepsLeft(g, AfterSatisfyDep(g, s, t)) == StepsLeft(g, s) - 1
  {
    StepCountsLpcs(g, s, AfterSatisfyDep(g, s, t), t);
    TaskStepCounts(g, s, AfterSatisfyDep(g, s, t));
  }

  lemma StepCounts<T(!new)>(g: Graph<T>, s: State<T>, step: Step<T>)
    requires Keyed(g, s) && Known(g, step) && Novel(g, s, step)
    ensures Keyed(g, Apply(g, s, step))
    ensures StepsLeft(g, Apply(g, s, step)) == StepsLeft(g, s) - 1
  {
    StepShape(g, s, step);
    match step
    case Execute(t) => ExecuteCounts(g, s, t);
    case AvailDep(t) => AvailDepCounts(g, s, t);
    case SatisfyDep(t) => SatisfyDepCounts(g, s, t);
    case _ => TrafficCounts(g, s, Apply(g, s, step));
  }

  lemma StepNovel<T(!new)>(g: Graph<T>, s: State<T>, step: Step<T>)
    requires Inv(g, s) && Enabled(g, s, step)
    ensures Known(g, step) && Novel(g, s, step)
  {
    StepKeepsInv(g, s, step);
    match step
    case Execute(t) => assert CounterInv(g, s, t);
    case RpcArrive(t, r) => assert (t, r) in Groups(g);
    case Communicate(t) => assert CounterInv(g, s, t);
    case _ =>
  }

  lemma TasksLeftNonNegative<T(!new)>(g: Graph<T>, s: State<T>)
    requires Keyed(g, s) && forall t <- g.tasks :: s.inCounter[t] >= 0 && s.availCounter[t] >= 0
    ensures TasksLeft(g.tasks, s) >= 0
  {
    SumNonNegative(g.tasks, s.inCounter);
    SumNonNegative(g.tasks, s.availCounter);
  }

  lemma CountersNonNegative<T(!new)>(g: Graph<T>, s: State<T>)
    requires Keyed(g, s) && forall t <- g.tasks :: CounterInv(g, s, t)
    ensures forall t <- g.tasks :: s.inCounter[t] >= 0 && s.availCounter[t] >= 0
  {
    forall t | t in g.tasks
      ensures s.inCounter[t] >= 0 && s.availCounter[t] >= 0
    {
      assert CounterInv(g, s, t);
    }
  }

  // ---------------------------------------------------------------------------------------------
  // Whole runs
  // ---------------------------------------------------------------------------------------------

  ghost predicate Run<T(!new)>(g: Graph<T>, s: State<T>, steps: seq<Step<T>>, s': State<T>)
    decreases |steps|
  {
    if steps == [] then s' == s
    else
      && Keyed(g, s) && Known(g, steps[0]) && Enabled(g, s, steps[0])
      && Run(g, Apply(g, s, steps[0]), steps[1..], s')
  }

  lemma OneStep<T(!new)>(g: Graph<T>, s: State<T>, step: Step<T>)
    requires Inv(g, s) && Enabled(g, s, step)
    ensures Known(g, step) && Inv(g, Apply(g, s, step))
    ensures StepsLeft(g, Apply(g, s, step)) == StepsLeft(g, s) - 1
  {
    StepKeepsInv(g, s, step);
    StepNovel(g, s, step);
    StepCounts(g, s, step);
  }

  lemma {:induction false} RunKeepsInv<T(!new)>(g: Graph<T>, s: State<T>, steps: seq<Step<T>>, s': State<T>)
    requires Inv(g, s) && Run(g, s, steps, s')
    ensures Inv(g, s')
    ensures StepsLeft(g, s') == StepsLeft(g, s) - |steps|
    decreases |steps|
  {
    if steps != [] {
      OneStep(g, s, steps[0]);
      RunKeepsInv(g, Apply(g, s, steps[0]), steps[1..], s');
    }
  }

  lemma StepsLeftNonNegative<T(!new)>(g: Graph<T>, s: State<T>)
    requires Inv(g, s)
    ensures StepsLeft(g, s) >= 0
  {
    CountersNonNegative(g, s);
    TasksLeftNonNegative(g, s);
  }

  lemma NoStepsLeft<T(!new)>(g: Graph<T>, s: State<T>)
    requires Inv(g, s) && StepsLeft(g, s) == 0
    ensures Stuck(g, s)
  {
    forall step
      ensures !Enabled(g, s, step)
    {
      if Enabled(g, s, step) {
        OneStep(g, s, step);
        StepsLeftNonNegative(g, Apply(g, s, step));
      }
    }
  }

  /** Safety, progress and termination of every run, whatever the interleaving of the ranks, RPCs, LPCs
      and gets: no counter is ever negative, every task runs at most once and after its predecessors, no
      run is longer than the initial number of steps, and a run that cannot go on has exactly that length
      and has executed every task exactly once. */
  lemma EveryRun<T(!new)>(g: Graph<T>, local: map<T, nat>, remote: map<T, nat>, rank: T -> nat,
                          steps: seq<Step<T>>, s: State<T>)
    requires WellFormed(g) && Balanced(g, local, remote) && Ranked(g, rank)
    requires Run(g, Init(g, local, remote), steps, s)
    ensures Inv(g, s)
    ensures forall t <- g.tasks :: s.inCounter[t] >= 0 && s.availCounter[t] >= 0
    ensures NoDuplicates(s.log) && RespectsEdges(g, s.log)
    ensures |steps| <= StepsLeft(g, Init(g, local, remote))
    ensures Stuck(g, s) <==> |steps| == StepsLeft(g, Init(g, local, remote))
    ensures Stuck(g, s) <==> s.Done() == g.tasks
  {
    InitInv(g, local, remote);
    RunKeepsInv(g, Init(g, local, remote), steps, s);
    StepsLeftNonNegative(g, s);
    CountersNonNegative(g, s);
    if StepsLeft(g, s) == 0 {
      NoStepsLeft(g, s);
    }
    if Stuck(g, s) {
      Progress(g, s, rank);
    }
    if s.Done() == g.tasks {
      AllDoneNothingLeft(g, s);
      NoStepsLeft(g, s);
    }
  }

  lemma DoneTask<T(!new)>(g: Graph<T>, s: State<T>, t: T)
    requires Keyed(g, s) && t in g.tasks && t in s.log && CounterInv(g, s, t)
    ensures s.inCounter[t] == 0 && s.availCounter[t] == 0
    ensures t in Fetchers(g) ==> t in s.issued
    ensures forall u <- Preds(g, t, false) :: (u, g.owner(t)) in s.arrived
    ensures t in s.issued ==> forall o <- s.inputMsg[t] :: o in s.landed
  {
    assert Unfetched(g, s, t) == 0;
    GroupMembers(g, t, 0);
    CountInFull(Preds(g, t, false), ArrivedAt(s, g.owner(t)));
    if t in s.issued {
      CountInFull(s.inputMsg[t], s.landed);
    }
  }

  lemma GroupHasTarget<T(!new)>(g: Graph<T>, p: (T, nat)) returns (u: T)
    requires WellFormed(g) && p in Groups(g)
    ensures u in g.tasks && g.owner(u) == p.1 && p.0 in Preds(g, u, false)
  {
    var e := GroupEdge(g, g.edges, p);
    u := e.1;
    assert e == (p.0, u);
    InMembers(g, g.edges, u, false);
  }

  lemma ObjHasTarget<T(!new)>(g: Graph<T>, o: Obj<T>) returns (u: T)
    requires WellFormed(g) && o in Objs(g)
    ensures u in g.tasks && o == ObjOf(g, o.src, u) && o.src in Preds(g, u, false)
  {
    var e := ObjEdge(g, g.edges, o);
    u := e.1;
    assert e == (o.src, u);
    InMembers(g, g.edges, u, false);
  }

  lemma AllDoneTask<T(!new)>(g: Graph<T>, s: State<T>, t: T)
    requires Inv(g, s) && s.Done() == g.tasks && t in g.tasks
    ensures s.inCounter[t] == 0 && s.availCounter[t] == 0
    ensures t in Fetchers(g) ==> t in s.issued
    ensures forall u <- Preds(g, t, false) :: (u, g.owner(t)) in s.arrived
    ensures t in s.issued ==> forall o <- s.inputMsg[t] :: o in s.landed
  {
    assert t in s.Done();
    assert CounterInv(g, s, t);
    DoneTask(g, s, t);
  }

  lemma AllDoneArrived<T(!new)>(g: Graph<T>, s: State<T>, p: (T, nat))
    requires Inv(g, s) && s.Done() == g.tasks && p in Groups(g)
    ensures p in s.arrived
  {
    var u := GroupHasTarget(g, p);
    AllDoneTask(g, s, u);
  }

  lemma AllDoneLanded<T(!new)>(g: Graph<T>, s: State<T>, o: Obj<T>)
    requires Inv(g, s) && s.Done() == g.tasks && o in Objs(g)
    ensures o in s.landed
  {
    var u := ObjHasTarget(g, o);
    AllDoneTask(g, s, u);
    assert DataInv(g, s, u, o);
  }

  lemma NoneMissing<A(!new)>(whole: set<A>, part: set<A>)
    requires forall x <- whole :: x in part
    ensures Missing(whole, part) == 0
  {
    assert whole - part == {};
  }

  lemma NoTasksLeft<T(!new)>(g: Graph<T>, s: State<T>)
    requires Keyed(g, s) && s.Done() == g.tasks
    requires forall t <- g.tasks :: s.inCounter[t] == 0 && s.availCounter[t] == 0
    ensures TasksLeft(g.tasks, s) == 0
  {
    SumNonNegative(g.tasks, s.inCounter);
    SumNonNegative(g.tasks, s.availCounter);
    NoneMissing(g.tasks, s.Done());
  }

  lemma AllDoneIssued<T(!new)>(g: Graph<T>, s: State<T>, t: T)
    requires Inv(g, s) && s.Done() == g.tasks && t in Fetchers(g)
    ensures t in s.issued
  {
    var e := FetcherEdge(g, g.edges, t);
    AllDoneTask(g, s, t);
  }

  lemma AllDoneCounters<T(!new)>(g: Graph<T>, s: State<T>)
    requires Inv(g, s) && s.Done() == g.tasks
    ensures TasksLeft(g.tasks, s) == 0
    ensures Missing(Fetchers(g), s.issued) == 0
  {
    forall t | t in g.tasks
      ensures s.inCounter[t] == 0 && s.availCounter[t] == 0
    {
      AllDoneTask(g, s, t);
    }
    NoTasksLeft(g, s);
    forall t | t in Fetchers(g)
      ensures t in s.issued
    {
      AllDoneIssued(g, s, t);
    }
    NoneMissing(Fetchers(g), s.issued);
  }

  lemma AllDoneTraffic<T(!new)>(g: Graph<T>, s: State<T>)
    requires Inv(g, s) && s.Done() == g.tasks
    ensures Missing(Groups(g), s.arrived) == 0 && Missing(Objs(g), s.landed) == 0
  {
    forall p | p in Groups(g)
      ensures p in s.arrived
    {
      AllDoneArrived(g, s, p);
    }
    forall o | o in Objs(g)
      ensures o in s.landed
    {
      AllDoneLanded(g, s, o);
    }
    NoneMissing(Groups(g), s.arrived);
    NoneMissing(Objs(g), s.landed);
  }

  /** Once every task has run nothing is left under way. */
  lemma AllDoneNothingLeft<T(!new)>(g: Graph<T>, s: State<T>)
    requires Inv(g, s) && s.Done() == g.tasks
    ensures StepsLeft(g, s) == 0
  {
    AllDoneCounters(g, s);
    AllDoneTraffic(g, s);
  }
}
