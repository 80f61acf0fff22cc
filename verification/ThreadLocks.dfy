/** The threads of one rank: tasks that write the same cell share a lock; a task that finds its lock taken
    waits in a delay list until the completion of another task of that lock lets it go on.

    Worker threads and the master thread interleave freely; compare-and-swap is strong.  The steps are those
    of the configuration with more than two threads.  A worker polls its mailbox; when it finds nothing it
    reads the flag `done`, which the master sets once it has handed out every task.  The workers of symPACK
    then exit at once; with `recheck` a worker polls once more first. */
module ThreadLocks {
  import opened Sums

  datatype Option<T> = None | Some(value: T)

  // ---------------------------------------------------------------------------------------------
  // The mailbox of a worker: two pointers, one writer and one reader
  // ---------------------------------------------------------------------------------------------

  class WorkerPtrs<T(==)> {
    var pointers: array<Option<T>>
    var wslot: nat
    var rslot: nat

    /** Filled slots come one after the other from rslot; wslot is the next one to fill. */
    ghost predicate Valid()
      reads this, pointers
    {
      && pointers.Length == 2 && wslot < 2 && rslot < 2
      && (wslot == rslot ==> (pointers[0].Some? <==> pointers[1].Some?))
      && (wslot != rslot ==> pointers[rslot].Some? && pointers[wslot].None?)
    }

    ghost function Contents(): seq<T>
      requires Valid()
      reads this, pointers
    {
      if pointers[rslot].None? then []
      else if pointers[1 - rslot].None? then [pointers[rslot].value]
      else [pointers[rslot].value, pointers[1 - rslot].value]
    }

    constructor ()
      ensures Valid() && Contents() == [] && fresh(pointers)
    {
      pointers := new Option<T>[2](_ => None);
      wslot, rslot := 0, 0;
    }

    method Set(t: T) returns (ok: bool)
      requires Valid()
      modifies this`wslot, pointers
      ensures Valid() && ok == (|old(Contents())| < 2)
      ensures Contents() == if ok then old(Contents()) + [t] else old(Contents())
    {
      if pointers[wslot].Some? {
        return false;
      }
      pointers[wslot] := Some(t);
      wslot := 1 - wslot;
      ok := true;
    }

    method Get() returns (t: Option<T>)
      requires Valid()
      modifies this`rslot, pointers
      ensures Valid() && (t.None? <==> old(Contents()) == [])
      ensures t.Some? ==> old(Contents()) == [t.value] + Contents()
      ensures t.None? ==> Contents() == []
    {
      t := pointers[rslot];
      if t.Some? {
        pointers[rslot] := None;
        rslot := 1 - rslot;
      }
    }
  }

  // ---------------------------------------------------------------------------------------------
  // States and steps
  // ---------------------------------------------------------------------------------------------

  datatype Place =
    | Waiting              // its counter is not zero yet
    | Delayed              // in the delay list of its lock
    | Ready                // in the ready queue, its lock taken
    | Boxed(w: nat)        // in the mailbox of worker w
    | Running(w: nat)      // its body runs, the lock still taken
    | Released(w: nat)     // its body has ended and released the lock
    | Posted(w: nat)       // its completion is queued for the master
    | Finished

  /** Where a worker is in its loop when it runs no task. */
  datatype Worker =
    | Polling    // it polls its mailbox next
    | Missed     // it found nothing and reads `done` next
    | Closing    // it has seen `done` and polls once more
    | Gone

  /** The tasks of a rank, their locks and the tasks of the rank that they wait for. */
  datatype System<!T, !L> = System(tasks: set<T>, lock: T -> Option<L>, preds: T -> set<T>, workers: nat, recheck: bool)

  datatype State<!T, !L> = State(
    place: map<T, Place>,
    inUse: set<L>,
    delayed: map<L, seq<T>>,
    box: seq<seq<T>>,
    loads: seq<nat>,
    free: seq<nat>,
    worker: seq<Worker>,
    done: bool)

  datatype Step<T> =
    | Arrive(t: T)     // the counter of t reaches zero
    | Assign(t: T)     // the master hands t to the first free worker
    | Take(w: nat)     // worker w takes the next task from its mailbox
    | Release(t: T)    // the body of t ends
    | Post(t: T)       // the worker queues the completion of t
    | Complete(t: T)   // the master runs that completion
    | Miss(w: nat)     // worker w finds its mailbox empty
    | Look(w: nat)     // worker w reads `done`
    | Again(w: nat)    // worker w finds its mailbox empty after it has seen `done`
    | Stop             // the master has handed out every task and sets `done`

  ghost function Locks<T(!new), L(!new)>(sys: System<T, L>): set<L> {
    set t | t in sys.tasks && sys.lock(t).Some? :: sys.lock(t).value
  }

  /** Worker w runs or has just run a task. */
  ghost predicate Busy<T(!new), L(!new)>(sys: System<T, L>, s: State<T, L>, w: nat)
    requires s.place.Keys == sys.tasks
  {
    exists t :: t in sys.tasks && (s.place[t] == Running(w) || s.place[t] == Released(w))
  }

  /** The fields have the right sizes. */
  ghost predicate Shape<T(!new), L(!new)>(sys: System<T, L>, s: State<T, L>) {
    && s.place.Keys == sys.tasks
    && s.delayed.Keys == Locks(sys)
    && |s.box| == |s.loads| == |s.worker| == sys.workers
    && (forall k :: 0 <= k < |s.free| ==> s.free[k] < sys.workers)
    && (forall t <- sys.tasks :: OnWorker(s.place[t]).Some? ==> OnWorker(s.place[t]).value < sys.workers)
  }

  function OnWorker(p: Place): Option<nat> {
    match p
    case Boxed(w) => Some(w)
    case Running(w) => Some(w)
    case Released(w) => Some(w)
    case Posted(w) => Some(w)
    case _ => None
  }

  /** The worker polls its mailbox next. */
  predicate Looks(k: Worker) { k.Polling? || k.Closing? }

  /** The body has ended: from now on the tasks that depend on it may be told. */
  predicate Passed(p: Place) { p.Released? || p.Posted? || p.Finished? }

  /** The master has handed the task to a worker. */
  predicate Assigned(p: Place) { p.Boxed? || p.Running? || Passed(p) }

  /** The counter of t has come down to the inputs of other ranks. */
  ghost predicate PredsPassed<T(!new), L(!new)>(sys: System<T, L>, s: State<T, L>, t: T) {
    forall u <- sys.preds(t) :: u in s.place && Passed(s.place[u])
  }

  ghost predicate Enabled<T(!new), L(!new)>(sys: System<T, L>, s: State<T, L>, step: Step<T>)
    requires Shape(sys, s)
  {
    match step
    case Arrive(t) => t in sys.tasks && s.place[t].Waiting? && PredsPassed(sys, s, t)
    case Assign(t) => t in sys.tasks && s.place[t].Ready? && s.free != []
    case Take(w) => w < sys.workers && s.box[w] != [] && s.box[w][0] in sys.tasks && !Busy(sys, s, w) && Looks(s.worker[w])
    case Release(t) => t in sys.tasks && s.place[t].Running?
    case Post(t) => t in sys.tasks && s.place[t].Released?
    case Complete(t) => t in sys.tasks && s.place[t].Posted?
    case Miss(w) => w < sys.workers && s.worker[w].Polling? && s.box[w] == [] && !Busy(sys, s, w)
    case Look(w) => w < sys.workers && s.worker[w].Missed?
    case Again(w) => w < sys.workers && s.worker[w].Closing? && s.box[w] == []
    case Stop => !s.done && forall t <- sys.tasks :: Assigned(s.place[t])
  }

  /** The handler asks for the lock of t: with it t is ready, without it t is delayed. */
  ghost function AfterArrive<T(!new), L(!new)>(sys: System<T, L>, s: State<T, L>, t: T): State<T, L>
    requires Shape(sys, s) && t in sys.tasks
  {
    if sys.lock(t).None? then s.(place := s.place[t := Ready])
    else
      var l := sys.lock(t).value;
      if l !in s.inUse then s.(place := s.place[t := Ready], inUse := s.inUse + {l})
      else s.(place := s.place[t := Delayed], delayed := s.delayed[l := s.delayed[l] + [t]])
  }

  /** assignWork; nothing changes when the mailbox is full. */
  ghost function AfterAssign<T(!new), L(!new)>(sys: System<T, L>, s: State<T, L>, t: T): State<T, L>
    requires Shape(sys, s) && s.free != []
  {
    var w := s.free[0];
    if |s.box[w]| >= 2 then s
    else s.(place := s.place[t := Boxed(w)],
            box := s.box[w := s.box[w] + [t]],
            loads := s.loads[w := s.loads[w] + 1],
            free := if s.loads[w] + 1 == 2 then s.free[1..] else s.free)
  }

  ghost function AfterTake<T(!new), L(!new)>(sys: System<T, L>, s: State<T, L>, w: nat): State<T, L>
    requires Shape(sys, s) && w < sys.workers && s.box[w] != []
  {
    s.(place := s.place[s.box[w][0] := Running(w)], box := s.box[w := s.box[w][1..]], worker := s.worker[w := Polling])
  }

  ghost function AfterRelease<T(!new), L(!new)>(sys: System<T, L>, s: State<T, L>, t: T): State<T, L>
    requires Shape(sys, s) && t in sys.tasks && s.place[t].Running?
  {
    s.(place := s.place[t := Released(s.place[t].w)],
       inUse := if sys.lock(t).Some? then s.inUse - {sys.lock(t).value} else s.inUse)
  }

  ghost function AfterPost<T(!new), L(!new)>(sys: System<T, L>, s: State<T, L>, t: T): State<T, L>
    requires Shape(sys, s) && t in sys.tasks && s.place[t].Released?
  {
    s.(place := s.place[t := Posted(s.place[t].w)])
  }

  /** The oldest task waiting for lock l gets it unless it is taken again. */
  ghost function Wake<T(!new), L(!new)>(s: State<T, L>, l: L): State<T, L>
    requires l in s.delayed
  {
    var slot := s.delayed[l];
    if slot == [] || l in s.inUse then s
    else s.(place := s.place[slot[0] := Ready], inUse := s.inUse + {l}, delayed := s.delayed[l := slot[1..]])
  }

  ghost function Unload<T(!new), L(!new)>(s: State<T, L>, w: nat): State<T, L>
    requires w < |s.loads|
  {
    s.(loads := s.loads[w := if s.loads[w] > 0 then s.loads[w] - 1 else 0],
       free := if s.loads[w] == 2 then s.free + [w] else s.free)
  }

  ghost function AfterComplete<T(!new), L(!new)>(sys: System<T, L>, s: State<T, L>, t: T): State<T, L>
    requires Shape(sys, s) && t in sys.tasks && s.place[t].Posted?
  {
    var s1 := if sys.lock(t).Some? then Wake(s, sys.lock(t).value) else s;
    var s2 := Unload(s1, s.place[t].w);
    s2.(place := s2.place[t := Finished])
  }

  ghost function Apply<T(!new), L(!new)>(sys: System<T, L>, s: State<T, L>, step: Step<T>): State<T, L>
    requires Shape(sys, s) && Enabled(sys, s, step)
  {
    match step
    case Arrive(t) => AfterArrive(sys, s, t)
    case Assign(t) => AfterAssign(sys, s, t)
    case Take(w) => AfterTake(sys, s, w)
    case Release(t) => AfterRelease(sys, s, t)
    case Post(t) => AfterPost(sys, s, t)
    case Complete(t) => AfterComplete(sys, s, t)
    case Miss(w) => s.(worker := s.worker[w := Missed])
    case Look(w) => s.(worker := s.worker[w := if !s.done then Polling else if sys.recheck then Closing else Gone])
    case Again(w) => s.(worker := s.worker[w := Gone])
    case Stop => s.(done := true)
  }

  ghost function Init<T(!new), L(!new)>(sys: System<T, L>): State<T, L> {
    State(
      map t | t in sys.tasks :: Waiting,
      {},
      map l | l in Locks(sys) :: [],
      seq(sys.workers, _ => []),
      seq<nat>(sys.workers, _ => 0),
      seq<nat>(sys.workers, w requires 0 <= w => w),
      seq(sys.workers, _ => Polling),
      false)
  }

  // ---------------------------------------------------------------------------------------------
  // The invariant
  // ---------------------------------------------------------------------------------------------

  predicate Holding(p: Place) { p.Ready? || p.Boxed? || p.Running? }

  predicate Leaving(p: Place) { p.Released? || p.Posted? }

  /** Mutual exclusion: a lock is in use exactly while one task holds it, and no two tasks hold it. */
  ghost predicate LockInv<T(!new), L(!new)>(sys: System<T, L>, s: State<T, L>)
    requires s.place.Keys == sys.tasks
  {
    && (forall t <- sys.tasks :: Holding(s.place[t]) && sys.lock(t).Some? ==> sys.lock(t).value in s.inUse)
    && (forall l <- s.inUse :: exists t :: t in sys.tasks && Holding(s.place[t]) && sys.lock(t) == Some(l))
    && (forall t, u :: t in sys.tasks && u in sys.tasks && Holding(s.place[t]) && Holding(s.place[u]) ==>
          sys.lock(t).Some? && sys.lock(t) == sys.lock(u) ==> t == u)
  }

  ghost predicate Distinct<A(!new)>(xs: seq<A>) { forall i, j :: 0 <= i < j < |xs| ==> xs[i] != xs[j] }

  /** The delay list of a lock holds its delayed tasks, each once. */
  ghost predicate DelayInv<T(!new), L(!new)>(sys: System<T, L>, s: State<T, L>)
    requires s.place.Keys == sys.tasks && s.delayed.Keys == Locks(sys)
  {
    && (forall l <- s.delayed :: Distinct(s.delayed[l]))
    && (forall l, t :: l in s.delayed ==> (t in s.delayed[l] <==> t in sys.tasks && s.place[t].Delayed? && sys.lock(t) == Some(l)))
    && (forall t <- sys.tasks :: s.place[t].Delayed? ==> sys.lock(t).Some?)
  }

  /** No lost wakeup: while a task waits for a lock, the lock is held or a completion for it is under way. */
  ghost predicate WakeupInv<T(!new), L(!new)>(sys: System<T, L>, s: State<T, L>)
    requires s.place.Keys == sys.tasks
  {
    forall l <- s.delayed :: s.delayed[l] != [] ==>
      l in s.inUse || exists t :: t in sys.tasks && Leaving(s.place[t]) && sys.lock(t) == Some(l)
  }

  ghost predicate BoxInv<T(!new), L(!new)>(sys: System<T, L>, s: State<T, L>)
    requires s.place.Keys == sys.tasks && |s.box| == sys.workers
  {
    && (forall w :: 0 <= w < sys.workers ==> Distinct(s.box[w]))
    && (forall w, t :: 0 <= w < sys.workers ==> (t in s.box[w] <==> t in sys.tasks && s.place[t] == Boxed(w)))
    && (forall t, u :: t in sys.tasks && u in sys.tasks && AtWork(s.place[t]) && AtWork(s.place[u]) ==>
          s.place[t].w == s.place[u].w ==> t == u)
  }

  predicate AtWork(p: Place) { p.Running? || p.Released? }

  /** The tasks that count for the load of worker w. */
  ghost function LoadOf<T(!new), L(!new)>(sys: System<T, L>, s: State<T, L>, w: nat): set<T>
    requires s.place.Keys == sys.tasks
  {
    set t | t in sys.tasks && OnWorker(s.place[t]) == Some(w)
  }

  /** A worker is in the free list, once, exactly while its load is below two. */
  ghost predicate LoadInv<T(!new), L(!new)>(sys: System<T, L>, s: State<T, L>)
    requires Shape(sys, s)
  {
    && (forall w :: 0 <= w < sys.workers ==> s.loads[w] == |LoadOf(sys, s, w)| <= 2)
    && Distinct(s.free)
    && (forall w :: 0 <= w < sys.workers ==> (w in s.free <==> s.loads[w] < 2))
  }

  /** A task that has started has been told of all its predecessors. */
  ghost predicate OrderInv<T(!new), L(!new)>(sys: System<T, L>, s: State<T, L>)
    requires s.place.Keys == sys.tasks
  {
    forall t <- sys.tasks :: !s.place[t].Waiting? ==> PredsPassed(sys, s, t)
  }

  /** A worker that runs a task is in its inner loop; none exits before the master has handed out every task,
      and with a second poll none exits from a filled mailbox. */
  ghost predicate StopInv<T(!new), L(!new)>(sys: System<T, L>, s: State<T, L>)
    requires Shape(sys, s)
  {
    && (forall t <- sys.tasks :: StopAt(sys, s, t))
    && (forall w :: 0 <= w < sys.workers ==> ExitAt(sys, s, w))
  }

  ghost predicate StopAt<T(!new), L(!new)>(sys: System<T, L>, s: State<T, L>, t: T)
    requires Shape(sys, s) && t in sys.tasks
  {
    (s.done ==> Assigned(s.place[t])) && (AtWork(s.place[t]) ==> s.worker[s.place[t].w].Polling?)
  }

  ghost predicate ExitAt<T(!new), L(!new)>(sys: System<T, L>, s: State<T, L>, w: nat)
    requires Shape(sys, s) && w < sys.workers
  {
    && (s.worker[w].Closing? || s.worker[w].Gone? ==> s.done)
    && (sys.recheck && s.worker[w].Gone? ==> s.box[w] == [])
  }

  ghost predicate Inv<T(!new), L(!new)>(sys: System<T, L>, s: State<T, L>) {
    LocksOk(sys, s) && OrderInv(sys, s) && StopInv(sys, s)
  }

  ghost predicate LocksOk<T(!new), L(!new)>(sys: System<T, L>, s: State<T, L>) {
    Shape(sys, s) && LockInv(sys, s) && DelayInv(sys, s) && WakeupInv(sys, s) && BoxInv(sys, s) && LoadInv(sys, s)
  }

  lemma InitInv<T(!new), L(!new)>(sys: System<T, L>)
    ensures Inv(sys, Init(sys))
  {
    var s := Init(sys);
    forall w | 0 <= w < sys.workers
      ensures LoadOf(sys, s, w) == {} && w in s.free
    {
      assert s.free[w] == w;
    }
  }

  // ---------------------------------------------------------------------------------------------
  // Each part of the invariant, change by change
  // ---------------------------------------------------------------------------------------------

  /** Only the place of t changes. */
  ghost predicate Moves<T(!new), L(!new)>(sys: System<T, L>, s: State<T, L>, s': State<T, L>, t: T, p: Place) {
    s.place.Keys == sys.tasks && t in sys.tasks && s'.place == s.place[t := p]
  }

  lemma LockSame<T(!new), L(!new)>(sys: System<T, L>, s: State<T, L>, s': State<T, L>, t: T, p: Place)
    requires Moves(sys, s, s', t, p) && LockInv(sys, s) && s'.inUse == s.inUse
    requires Holding(p) == Holding(s.place[t]) || sys.lock(t).None?
    ensures LockInv(sys, s')
  {
    forall l | l in s'.inUse
      ensures exists u :: u in sys.tasks && Holding(s'.place[u]) && sys.lock(u) == Some(l)
    {
      var u :| u in sys.tasks && Holding(s.place[u]) && sys.lock(u) == Some(l);
      assert Holding(s'.place[u]);
    }
  }

  lemma LockTaken<T(!new), L(!new)>(sys: System<T, L>, s: State<T, L>, s': State<T, L>, t: T, p: Place, l: L)
    requires Moves(sys, s, s', t, p) && LockInv(sys, s) && sys.lock(t) == Some(l) && l !in s.inUse
    requires Holding(p) && s'.inUse == s.inUse + {l}
    ensures LockInv(sys, s')
  {
    assert Holding(s'.place[t]);
    forall k | k in s'.inUse
      ensures exists u :: u in sys.tasks && Holding(s'.place[u]) && sys.lock(u) == Some(k)
    {
      if k in s.inUse {
        var u :| u in sys.tasks && Holding(s.place[u]) && sys.lock(u) == Some(k);
        assert Holding(s'.place[u]);
      }
    }
  }

  lemma LockGiven<T(!new), L(!new)>(sys: System<T, L>, s: State<T, L>, s': State<T, L>, t: T, p: Place, l: L)
    requires Moves(sys, s, s', t, p) && LockInv(sys, s) && sys.lock(t) == Some(l)
    requires Holding(s.place[t]) && !Holding(p) && s'.inUse == s.inUse - {l}
    ensures LockInv(sys, s')
  {
    forall k | k in s'.inUse
      ensures exists u :: u in sys.tasks && Holding(s'.place[u]) && sys.lock(u) == Some(k)
    {
      var u :| u in sys.tasks && Holding(s.place[u]) && sys.lock(u) == Some(k);
      assert Holding(s'.place[u]);
    }
  }

  lemma DelaySame<T(!new), L(!new)>(sys: System<T, L>, s: State<T, L>, s': State<T, L>, t: T, p: Place)
    requires Shape(sys, s) && Moves(sys, s, s', t, p) && DelayInv(sys, s) && s'.delayed == s.delayed
    requires !p.Delayed? && !s.place[t].Delayed?
    ensures DelayInv(sys, s')
  {
  }

  lemma DistinctAppend<A(!new)>(xs: seq<A>, x: A)
    requires Distinct(xs) && x !in xs
    ensures Distinct(xs + [x])
  {
  }

  lemma DelayAdded<T(!new), L(!new)>(sys: System<T, L>, s: State<T, L>, s': State<T, L>, t: T, l: L)
    requires Shape(sys, s) && Moves(sys, s, s', t, Delayed) && DelayInv(sys, s) && sys.lock(t) == Some(l) && l in s.delayed
    requires !s.place[t].Delayed? && s'.delayed == s.delayed[l := s.delayed[l] + [t]]
    ensures DelayInv(sys, s')
  {
    DistinctAppend(s.delayed[l], t);
    forall k, u | k in s'.delayed
      ensures u in s'.delayed[k] <==> u in sys.tasks && s'.place[u].Delayed? && sys.lock(u) == Some(k)
    {
      assert u in s.delayed[k] <==> u in sys.tasks && s.place[u].Delayed? && sys.lock(u) == Some(k);
    }
  }

  lemma DistinctTail<A(!new)>(xs: seq<A>, x: A)
    requires Distinct(xs) && xs != []
    ensures Distinct(xs[1..]) && (x in xs[1..] <==> x in xs && x != xs[0])
  {
    assert xs == [xs[0]] + xs[1..];
  }

  lemma DelayTakenAt<T(!new), L(!new)>(sys: System<T, L>, s: State<T, L>, s': State<T, L>, t: T, p: Place, l: L, k: L, u: T)
    requires Shape(sys, s) && DelayInv(sys, s) && l in s.delayed && s.delayed[l] != [] && t == s.delayed[l][0]
    requires t in sys.tasks && sys.lock(t) == Some(l) && k in s.delayed
    requires s'.place == s.place[t := p] && !p.Delayed? && s'.delayed == s.delayed[l := s.delayed[l][1..]]
    ensures Distinct(s'.delayed[k]) && (u in s'.delayed[k] <==> u in sys.tasks && s'.place[u].Delayed? && sys.lock(u) == Some(k))
  {
    DistinctTail(s.delayed[l], u);
    assert u in s.delayed[k] <==> u in sys.tasks && s.place[u].Delayed? && sys.lock(u) == Some(k);
  }

  lemma DelayTaken<T(!new), L(!new)>(sys: System<T, L>, s: State<T, L>, s': State<T, L>, t: T, p: Place, l: L)
    requires Shape(sys, s) && DelayInv(sys, s) && l in s.delayed && s.delayed[l] != [] && t == s.delayed[l][0]
    requires t in sys.tasks && sys.lock(t) == Some(l)
    requires s'.place == s.place[t := p] && !p.Delayed? && s'.delayed == s.delayed[l := s.delayed[l][1..]]
    ensures DelayInv(sys, s')
  {
    forall k, u | k in s'.delayed
      ensures Distinct(s'.delayed[k]) && (u in s'.delayed[k] <==> u in sys.tasks && s'.place[u].Delayed? && sys.lock(u) == Some(k))
    {
      DelayTakenAt(sys, s, s', t, p, l, k, u);
    }
    forall k | k in s'.delayed
      ensures Distinct(s'.delayed[k])
    {
      DelayTakenAt(sys, s, s', t, p, l, k, t);
    }
  }

  /** The lists do not grow, locks stay in use, and a completion under way stays under way. */
  lemma WakeupSame<T(!new), L(!new)>(sys: System<T, L>, s: State<T, L>, s': State<T, L>, t: T, p: Place)
    requires Moves(sys, s, s', t, p) && WakeupInv(sys, s) && s'.delayed == s.delayed && s.inUse <= s'.inUse
    requires Leaving(s.place[t]) ==> Leaving(p)
    ensures WakeupInv(sys, s')
  {
    forall l | l in s'.delayed && s'.delayed[l] != [] && l !in s'.inUse
      ensures exists u :: u in sys.tasks && Leaving(s'.place[u]) && sys.lock(u) == Some(l)
    {
      var u :| u in sys.tasks && Leaving(s.place[u]) && sys.lock(u) == Some(l);
      assert Leaving(s'.place[u]);
    }
  }

  lemma BoxSame<T(!new), L(!new)>(sys: System<T, L>, s: State<T, L>, s': State<T, L>, t: T, p: Place)
    requires Moves(sys, s, s', t, p) && |s.box| == sys.workers && BoxInv(sys, s) && s'.box == s.box
    requires !p.Boxed? && !s.place[t].Boxed? && (AtWork(p) ==> AtWork(s.place[t]) && p.w == s.place[t].w)
    ensures BoxInv(sys, s')
  {
  }

  lemma BoxAdded<T(!new), L(!new)>(sys: System<T, L>, s: State<T, L>, s': State<T, L>, t: T, w: nat)
    requires Moves(sys, s, s', t, Boxed(w)) && |s.box| == sys.workers && BoxInv(sys, s) && w < sys.workers
    requires s.place[t].Ready? && s'.box == s.box[w := s.box[w] + [t]]
    ensures BoxInv(sys, s')
  {
    assert t !in s.box[w];
    forall v, u | 0 <= v < sys.workers
      ensures u in s'.box[v] <==> u in sys.tasks && s'.place[u] == Boxed(v)
    {
      assert u in s.box[v] <==> u in sys.tasks && s.place[u] == Boxed(v);
    }
  }

  lemma BoxTaken<T(!new), L(!new)>(sys: System<T, L>, s: State<T, L>, s': State<T, L>, t: T, w: nat)
    requires Shape(sys, s) && BoxInv(sys, s) && w < sys.workers && s.box[w] != [] && t == s.box[w][0] && !Busy(sys, s, w)
    requires s'.place == s.place[t := Running(w)] && s'.box == s.box[w := s.box[w][1..]]
    ensures t in sys.tasks && s.place[t] == Boxed(w) && BoxInv(sys, s')
  {
    assert t in s.box[w] && s.box[w] == [t] + s.box[w][1..];
    forall v, u | 0 <= v < sys.workers
      ensures u in s'.box[v] <==> u in sys.tasks && s'.place[u] == Boxed(v)
    {
      assert u in s.box[v] <==> u in sys.tasks && s.place[u] == Boxed(v);
    }
    forall u | u in sys.tasks && u != t && AtWork(s'.place[u])
      ensures s'.place[u].w != w
    {
      assert s.place[u] == Running(s.place[u].w) || s.place[u] == Released(s.place[u].w);
    }
  }

  lemma LoadOthers<T(!new), L(!new)>(sys: System<T, L>, s: State<T, L>, s': State<T, L>, t: T, p: Place, w: nat)
    requires Moves(sys, s, s', t, p)
    ensures (OnWorker(p) == Some(w)) == (OnWorker(s.place[t]) == Some(w)) ==> LoadOf(sys, s', w) == LoadOf(sys, s, w)
    ensures OnWorker(p) == Some(w) != OnWorker(s.place[t]) ==> |LoadOf(sys, s', w)| == |LoadOf(sys, s, w)| + 1
    ensures OnWorker(s.place[t]) == Some(w) != OnWorker(p) ==> |LoadOf(sys, s', w)| == |LoadOf(sys, s, w)| - 1
  {
    if OnWorker(p) == Some(w) != OnWorker(s.place[t]) {
      assert t !in LoadOf(sys, s, w) && LoadOf(sys, s', w) == LoadOf(sys, s, w) + {t};
    } else if OnWorker(s.place[t]) == Some(w) != OnWorker(p) {
      assert t in LoadOf(sys, s, w) && LoadOf(sys, s', w) == LoadOf(sys, s, w) - {t};
    } else {
      assert LoadOf(sys, s', w) == LoadOf(sys, s, w);
    }
  }

  lemma LoadSame<T(!new), L(!new)>(sys: System<T, L>, s: State<T, L>, s': State<T, L>, t: T, p: Place)
    requires Shape(sys, s) && Shape(sys, s') && Moves(sys, s, s', t, p) && LoadInv(sys, s)
    requires s'.loads == s.loads && s'.free == s.free && OnWorker(p) == OnWorker(s.place[t])
    ensures LoadInv(sys, s')
  {
    forall w | 0 <= w < sys.workers
      ensures s'.loads[w] == |LoadOf(sys, s', w)| <= 2
    {
      LoadOthers(sys, s, s', t, p, w);
    }
  }

  lemma LoadAdded<T(!new), L(!new)>(sys: System<T, L>, s: State<T, L>, s': State<T, L>, t: T, w: nat)
    requires Shape(sys, s) && Shape(sys, s') && Moves(sys, s, s', t, Boxed(w)) && LoadInv(sys, s)
    requires s.place[t].Ready? && s.free != [] && w == s.free[0] && s'.loads == s.loads[w := s.loads[w] + 1]
    requires s'.free == if s.loads[w] + 1 == 2 then s.free[1..] else s.free
    ensures LoadInv(sys, s')
  {
    assert w in s.free && s.free == [w] + s.free[1..];
    forall v | 0 <= v < sys.workers
      ensures s'.loads[v] == |LoadOf(sys, s', v)| <= 2
      ensures v in s'.free <==> s'.loads[v] < 2
    {
      LoadOthers(sys, s, s', t, Boxed(w), v);
    }
  }

  lemma LoadTaken<T(!new), L(!new)>(sys: System<T, L>, s: State<T, L>, s': State<T, L>, t: T, w: nat)
    requires Shape(sys, s) && Shape(sys, s') && Moves(sys, s, s', t, Finished) && LoadInv(sys, s)
    requires s.place[t] == Posted(w) && w < sys.workers
    requires s'.loads == s.loads[w := if s.loads[w] > 0 then s.loads[w] - 1 else 0]
    requires s'.free == if s.loads[w] == 2 then s.free + [w] else s.free
    ensures s.loads[w] >= 1 && LoadInv(sys, s')
  {
    assert t in LoadOf(sys, s, w);
    forall v | 0 <= v < sys.workers
      ensures s'.loads[v] == |LoadOf(sys, s', v)| <= 2
      ensures v in s'.free <==> s'.loads[v] < 2
    {
      LoadOthers(sys, s, s', t, Finished, v);
    }
  }

  // ---------------------------------------------------------------------------------------------
  // Every step keeps the invariant
  // ---------------------------------------------------------------------------------------------

  lemma ArriveReady<T(!new), L(!new)>(sys: System<T, L>, s: State<T, L>, t: T)
    requires LocksOk(sys, s) && t in sys.tasks && s.place[t].Waiting?
    requires sys.lock(t).Some? ==> sys.lock(t).value !in s.inUse
    ensures LocksOk(sys, AfterArrive(sys, s, t))
  {
    var s' := AfterArrive(sys, s, t);
    if sys.lock(t).Some? {
      LockTaken(sys, s, s', t, Ready, sys.lock(t).value);
    } else {
      LockSame(sys, s, s', t, Ready);
    }
    DelaySame(sys, s, s', t, Ready);
    WakeupSame(sys, s, s', t, Ready);
    LoadsUntouched(sys, s, s', t, Ready);
  }

  lemma ArriveDelayedLocks<T(!new), L(!new)>(sys: System<T, L>, s: State<T, L>, s': State<T, L>, t: T, l: L)
    requires Shape(sys, s) && LockInv(sys, s) && DelayInv(sys, s) && WakeupInv(sys, s) && l in s.inUse && l in s.delayed
    requires t in sys.tasks && s.place[t].Waiting? && sys.lock(t) == Some(l)
    requires s' == s.(place := s.place[t := Delayed], delayed := s.delayed[l := s.delayed[l] + [t]])
    ensures LockInv(sys, s') && DelayInv(sys, s') && WakeupInv(sys, s')
  {
    LockSame(sys, s, s', t, Delayed);
    DelayAdded(sys, s, s', t, l);
    WakeupAdded(sys, s, s', t, l);
  }

  /** Neither boxes nor loads change when a task moves between places that are on no worker. */
  lemma LoadsUntouched<T(!new), L(!new)>(sys: System<T, L>, s: State<T, L>, s': State<T, L>, t: T, p: Place)
    requires Shape(sys, s) && BoxInv(sys, s) && LoadInv(sys, s) && Moves(sys, s, s', t, p)
    requires OnWorker(p).None? && OnWorker(s.place[t]).None?
    requires s'.box == s.box && s'.loads == s.loads && s'.free == s.free && s'.delayed.Keys == s.delayed.Keys && s'.worker == s.worker
    ensures Shape(sys, s') && BoxInv(sys, s') && LoadInv(sys, s')
  {
    BoxSame(sys, s, s', t, p);
    LoadSame(sys, s, s', t, p);
  }

  lemma ArriveDelayed<T(!new), L(!new)>(sys: System<T, L>, s: State<T, L>, s': State<T, L>, t: T, l: L)
    requires LocksOk(sys, s) && t in sys.tasks && s.place[t].Waiting? && sys.lock(t) == Some(l) && l in s.inUse && l in s.delayed
    requires s' == s.(place := s.place[t := Delayed], delayed := s.delayed[l := s.delayed[l] + [t]])
    ensures LocksOk(sys, s')
  {
    ArriveDelayedLocks(sys, s, s', t, l);
    LoadsUntouched(sys, s, s', t, Delayed);
  }

  lemma LockKnown<T(!new), L(!new)>(sys: System<T, L>, s: State<T, L>, t: T)
    requires Shape(sys, s) && t in sys.tasks && sys.lock(t).Some?
    ensures sys.lock(t).value in s.delayed
  {
  }

  lemma ArriveKeeps<T(!new), L(!new)>(sys: System<T, L>, s: State<T, L>, t: T)
    requires LocksOk(sys, s) && t in sys.tasks && s.place[t].Waiting?
    ensures LocksOk(sys, AfterArrive(sys, s, t))
  {
    if sys.lock(t).Some? && sys.lock(t).value in s.inUse {
      LockKnown(sys, s, t);
      ArriveDelayed(sys, s, AfterArrive(sys, s, t), t, sys.lock(t).value);
    } else {
      ArriveReady(sys, s, t);
    }
  }

  lemma WakeupAdded<T(!new), L(!new)>(sys: System<T, L>, s: State<T, L>, s': State<T, L>, t: T, l: L)
    requires Shape(sys, s) && Moves(sys, s, s', t, Delayed) && WakeupInv(sys, s) && l in s.delayed && l in s.inUse
    requires s.place[t].Waiting? && s'.inUse == s.inUse && s'.delayed == s.delayed[l := s.delayed[l] + [t]]
    ensures WakeupInv(sys, s')
  {
    forall k | k in s'.delayed && s'.delayed[k] != [] && k !in s'.inUse
      ensures exists u :: u in sys.tasks && Leaving(s'.place[u]) && sys.lock(u) == Some(k)
    {
      var u :| u in sys.tasks && Leaving(s.place[u]) && sys.lock(u) == Some(k);
      assert Leaving(s'.place[u]);
    }
  }

  lemma {:induction false} DistinctFits<T(!new)>(xs: seq<T>, s: set<T>)
    requires Distinct(xs) && forall x <- xs :: x in s
    ensures |xs| <= |s|
  {
    if xs != [] {
      var last := |xs| - 1;
      assert xs[last] in xs;
      forall x | x in xs[..last]
        ensures x in s - {xs[last]}
      {
        assert x in xs;
      }
      DistinctFits(xs[..last], s - {xs[last]});
    }
  }

  /** assignWork never fails: a worker in the free list has an empty slot. */
  lemma FreeHasRoom<T(!new), L(!new)>(sys: System<T, L>, s: State<T, L>, w: nat)
    requires LocksOk(sys, s) && w in s.free
    ensures w < sys.workers && |s.box[w]| < 2
  {
    var k :| 0 <= k < |s.free| && s.free[k] == w;
    forall t | t in s.box[w]
      ensures t in LoadOf(sys, s, w)
    {
    }
    DistinctFits(s.box[w], LoadOf(sys, s, w));
  }

  /** A task keeps its lock, and no completion is involved. */
  lemma LocksUntouched<T(!new), L(!new)>(sys: System<T, L>, s: State<T, L>, s': State<T, L>, t: T, p: Place)
    requires Shape(sys, s) && LockInv(sys, s) && DelayInv(sys, s) && WakeupInv(sys, s) && Moves(sys, s, s', t, p)
    requires Holding(p) == Holding(s.place[t]) && !p.Delayed? && !s.place[t].Delayed? && (Leaving(s.place[t]) ==> Leaving(p))
    requires s'.inUse == s.inUse && s'.delayed == s.delayed
    ensures LockInv(sys, s') && DelayInv(sys, s') && WakeupInv(sys, s')
  {
    LockSame(sys, s, s', t, p);
    DelaySame(sys, s, s', t, p);
    WakeupSame(sys, s, s', t, p);
  }

  lemma AssignLoads<T(!new), L(!new)>(sys: System<T, L>, s: State<T, L>, s': State<T, L>, t: T, w: nat)
    requires Shape(sys, s) && BoxInv(sys, s) && LoadInv(sys, s) && t in sys.tasks && s.place[t].Ready? && s.free != []
    requires w == s.free[0] && |s.box[w]| < 2 && s' == AfterAssign(sys, s, t)
    ensures Shape(sys, s') && BoxInv(sys, s') && LoadInv(sys, s')
  {
    BoxAdded(sys, s, s', t, w);
    LoadAdded(sys, s, s', t, w);
  }

  lemma AssignKeeps<T(!new), L(!new)>(sys: System<T, L>, s: State<T, L>, t: T)
    requires LocksOk(sys, s) && t in sys.tasks && s.place[t].Ready? && s.free != []
    ensures AfterAssign(sys, s, t).place[t] == Boxed(s.free[0]) && LocksOk(sys, AfterAssign(sys, s, t))
  {
    var s', w := AfterAssign(sys, s, t), s.free[0];
    FreeHasRoom(sys, s, w);
    AssignLoads(sys, s, s', t, w);
    LocksUntouched(sys, s, s', t, Boxed(w));
  }

  lemma TakeLoads<T(!new), L(!new)>(sys: System<T, L>, s: State<T, L>, s': State<T, L>, t: T, w: nat)
    requires Shape(sys, s) && BoxInv(sys, s) && LoadInv(sys, s) && w < sys.workers && s.box[w] != [] && !Busy(sys, s, w)
    requires t == s.box[w][0] && s' == AfterTake(sys, s, w)
    ensures t in sys.tasks && s.place[t] == Boxed(w) && Shape(sys, s') && BoxInv(sys, s') && LoadInv(sys, s')
  {
    BoxTaken(sys, s, s', t, w);
    LoadSame(sys, s, s', t, Running(w));
  }

  lemma TakeKeeps<T(!new), L(!new)>(sys: System<T, L>, s: State<T, L>, w: nat)
    requires LocksOk(sys, s) && w < sys.workers && s.box[w] != [] && !Busy(sys, s, w)
    ensures s.box[w][0] in sys.tasks && s.place[s.box[w][0]] == Boxed(w) && LocksOk(sys, AfterTake(sys, s, w))
  {
    var s', t := AfterTake(sys, s, w), s.box[w][0];
    TakeLoads(sys, s, s', t, w);
    LocksUntouched(sys, s, s', t, Running(w));
  }

  lemma WakeupReleased<T(!new), L(!new)>(sys: System<T, L>, s: State<T, L>, s': State<T, L>, t: T, p: Place)
    requires Shape(sys, s) && Moves(sys, s, s', t, p) && WakeupInv(sys, s) && Leaving(p) && s'.delayed == s.delayed
    requires s'.inUse == if sys.lock(t).Some? then s.inUse - {sys.lock(t).value} else s.inUse
    ensures WakeupInv(sys, s')
  {
    forall l | l in s'.delayed && s'.delayed[l] != [] && l !in s'.inUse
      ensures exists u :: u in sys.tasks && Leaving(s'.place[u]) && sys.lock(u) == Some(l)
    {
      if l in s.inUse {
        assert Leaving(s'.place[t]) && sys.lock(t) == Some(l);
      } else {
        var u :| u in sys.tasks && Leaving(s.place[u]) && sys.lock(u) == Some(l);
        assert Leaving(s'.place[u]);
      }
    }
  }

  lemma ReleaseKeeps<T(!new), L(!new)>(sys: System<T, L>, s: State<T, L>, t: T)
    requires LocksOk(sys, s) && t in sys.tasks && s.place[t].Running?
    ensures LocksOk(sys, AfterRelease(sys, s, t))
  {
    var s', p := AfterRelease(sys, s, t), Released(s.place[t].w);
    if sys.lock(t).Some? {
      LockGiven(sys, s, s', t, p, sys.lock(t).value);
    } else {
      LockSame(sys, s, s', t, p);
    }
    DelaySame(sys, s, s', t, p);
    WakeupReleased(sys, s, s', t, p);
    BoxSame(sys, s, s', t, p);
    LoadSame(sys, s, s', t, p);
  }

  lemma PostKeeps<T(!new), L(!new)>(sys: System<T, L>, s: State<T, L>, t: T)
    requires LocksOk(sys, s) && t in sys.tasks && s.place[t].Released?
    ensures LocksOk(sys, AfterPost(sys, s, t))
  {
    var s', p := AfterPost(sys, s, t), Posted(s.place[t].w);
    LocksUntouched(sys, s, s', t, p);
    BoxSame(sys, s, s', t, p);
    LoadSame(sys, s, s', t, p);
  }

  lemma FirstDelayed<T(!new), L(!new)>(sys: System<T, L>, s: State<T, L>, l: L)
    requires Shape(sys, s) && DelayInv(sys, s) && l in s.delayed && s.delayed[l] != []
    ensures var t := s.delayed[l][0]; t in sys.tasks && s.place[t].Delayed? && sys.lock(t) == Some(l)
  {
    assert s.delayed[l][0] in s.delayed[l];
  }

  lemma WakeOneLocks<T(!new), L(!new)>(sys: System<T, L>, s: State<T, L>, s': State<T, L>, t: T, l: L)
    requires Shape(sys, s) && DelayInv(sys, s) && WakeupInv(sys, s)
    requires l in s.delayed && s.delayed[l] != [] && t == s.delayed[l][0] && l !in s.inUse
    requires t in sys.tasks && s.place[t].Delayed? && sys.lock(t) == Some(l)
    requires s' == s.(place := s.place[t := Ready], inUse := s.inUse + {l}, delayed := s.delayed[l := s.delayed[l][1..]])
    ensures DelayInv(sys, s') && WakeupInv(sys, s')
  {
    DelayTaken(sys, s, s', t, Ready, l);
    WakeupTaken(sys, s, s', t, l);
  }

  lemma WakeOne<T(!new), L(!new)>(sys: System<T, L>, s: State<T, L>, l: L)
    requires LocksOk(sys, s) && l in s.delayed && s.delayed[l] != [] && l !in s.inUse
    ensures LocksOk(sys, Wake(s, l)) && l in Wake(s, l).inUse
    ensures s.delayed[l][0] in sys.tasks && s.place[s.delayed[l][0]].Delayed? && Wake(s, l).place == s.place[s.delayed[l][0] := Ready]
  {
    FirstDelayed(sys, s, l);
    WakeOneLocks(sys, s, Wake(s, l), s.delayed[l][0], l);
    LockTaken(sys, s, Wake(s, l), s.delayed[l][0], Ready, l);
    LoadsUntouched(sys, s, Wake(s, l), s.delayed[l][0], Ready);
  }

  /** Waking keeps everything, and afterwards the lock is in use unless nobody waits for it. */
  lemma WakeKeeps<T(!new), L(!new)>(sys: System<T, L>, s: State<T, L>, l: L)
    requires LocksOk(sys, s) && l in s.delayed
    ensures LocksOk(sys, Wake(s, l)) && (Wake(s, l).delayed[l] != [] ==> l in Wake(s, l).inUse)
    ensures forall t <- sys.tasks :: Leaving(s.place[t]) ==> Wake(s, l).place[t] == s.place[t]
  {
    if s.delayed[l] != [] && l !in s.inUse {
      WakeOne(sys, s, l);
    }
  }

  lemma WakeupTaken<T(!new), L(!new)>(sys: System<T, L>, s: State<T, L>, s': State<T, L>, t: T, l: L)
    requires Shape(sys, s) && Moves(sys, s, s', t, Ready) && WakeupInv(sys, s) && s.place[t].Delayed?
    requires s'.inUse == s.inUse + {l} && l in s.delayed && s.delayed[l] != [] && s'.delayed == s.delayed[l := s.delayed[l][1..]]
    ensures WakeupInv(sys, s')
  {
    forall k | k in s'.delayed && s'.delayed[k] != [] && k !in s'.inUse
      ensures exists u :: u in sys.tasks && Leaving(s'.place[u]) && sys.lock(u) == Some(k)
    {
      var u :| u in sys.tasks && Leaving(s.place[u]) && sys.lock(u) == Some(k);
      assert Leaving(s'.place[u]);
    }
  }

  /** The completion of t is no longer under way; nobody waits for its lock in vain. */
  lemma WakeupFinished<T(!new), L(!new)>(sys: System<T, L>, s: State<T, L>, s': State<T, L>, t: T)
    requires Shape(sys, s) && Moves(sys, s, s', t, Finished) && WakeupInv(sys, s)
    requires s'.delayed == s.delayed && s'.inUse == s.inUse
    requires sys.lock(t).Some? ==> sys.lock(t).value in s.delayed && (s.delayed[sys.lock(t).value] != [] ==> sys.lock(t).value in s.inUse)
    ensures WakeupInv(sys, s')
  {
    forall l | l in s'.delayed && s'.delayed[l] != [] && l !in s'.inUse
      ensures exists u :: u in sys.tasks && Leaving(s'.place[u]) && sys.lock(u) == Some(l)
    {
      var u :| u in sys.tasks && Leaving(s.place[u]) && sys.lock(u) == Some(l);
      assert Leaving(s'.place[u]);
    }
  }

  ghost function Finish<T(!new), L(!new)>(s: State<T, L>, t: T, w: nat): State<T, L>
    requires w < |s.loads|
  {
    var s1 := Unload(s, w);
    s1.(place := s1.place[t := Finished])
  }

  lemma FinishLocks<T(!new), L(!new)>(sys: System<T, L>, s: State<T, L>, t: T, w: nat)
    requires Shape(sys, s) && LockInv(sys, s) && DelayInv(sys, s) && t in sys.tasks && s.place[t] == Posted(w) && w < sys.workers
    ensures LockInv(sys, Finish(s, t, w)) && DelayInv(sys, Finish(s, t, w))
  {
    LockSame(sys, s, Finish(s, t, w), t, Finished);
    DelaySame(sys, s, Finish(s, t, w), t, Finished);
  }

  lemma FinishLoads<T(!new), L(!new)>(sys: System<T, L>, s: State<T, L>, t: T, w: nat)
    requires Shape(sys, s) && BoxInv(sys, s) && LoadInv(sys, s) && t in sys.tasks && s.place[t] == Posted(w) && w < sys.workers
    ensures Shape(sys, Finish(s, t, w)) && BoxInv(sys, Finish(s, t, w)) && LoadInv(sys, Finish(s, t, w))
  {
    BoxSame(sys, s, Finish(s, t, w), t, Finished);
    LoadTaken(sys, s, Finish(s, t, w), t, w);
  }

  lemma FinishKeeps<T(!new), L(!new)>(sys: System<T, L>, s: State<T, L>, t: T, w: nat)
    requires LocksOk(sys, s) && t in sys.tasks && s.place[t] == Posted(w)
    requires sys.lock(t).Some? ==> sys.lock(t).value in s.delayed && (s.delayed[sys.lock(t).value] != [] ==> sys.lock(t).value in s.inUse)
    ensures w < |s.loads| && LocksOk(sys, Finish(s, t, w))
  {
    assert OnWorker(s.place[t]) == Some(w);
    FinishLocks(sys, s, t, w);
    WakeupFinished(sys, s, Finish(s, t, w), t);
    FinishLoads(sys, s, t, w);
  }

  lemma CompleteKeeps<T(!new), L(!new)>(sys: System<T, L>, s: State<T, L>, t: T)
    requires LocksOk(sys, s) && t in sys.tasks && s.place[t].Posted?
    ensures LocksOk(sys, AfterComplete(sys, s, t))
  {
    if sys.lock(t).Some? {
      WakeKeeps(sys, s, sys.lock(t).value);
      FinishKeeps(sys, Wake(s, sys.lock(t).value), t, s.place[t].w);
    } else {
      FinishKeeps(sys, s, t, s.place[t].w);
    }
  }

  lemma BoxedHead<T(!new), L(!new)>(sys: System<T, L>, s: State<T, L>, w: nat)
    requires Shape(sys, s) && BoxInv(sys, s) && w < sys.workers && s.box[w] != []
    ensures s.box[w][0] in sys.tasks && s.place[s.box[w][0]] == Boxed(w)
  {
    assert s.box[w][0] in s.box[w];
  }

  lemma CompletePlaces<T(!new), L(!new)>(sys: System<T, L>, s: State<T, L>, t: T)
    requires Shape(sys, s) && t in sys.tasks && s.place[t].Posted?
    ensures AfterComplete(sys, s, t).place ==
            if sys.lock(t).Some? && s.delayed[sys.lock(t).value] != [] && sys.lock(t).value !in s.inUse
            then s.place[s.delayed[sys.lock(t).value][0] := Ready][t := Finished]
            else s.place[t := Finished]
  {
  }

  lemma WorkersLocks<T(!new), L(!new)>(sys: System<T, L>, s: State<T, L>, s': State<T, L>)
    requires Shape(sys, s) && LockInv(sys, s)
    requires s'.place == s.place && s'.inUse == s.inUse
    ensures LockInv(sys, s')
  {
  }

  lemma WorkersDelays<T(!new), L(!new)>(sys: System<T, L>, s: State<T, L>, s': State<T, L>)
    requires Shape(sys, s) && DelayInv(sys, s) && WakeupInv(sys, s)
    requires s'.place == s.place && s'.delayed == s.delayed && s'.inUse == s.inUse
    ensures DelayInv(sys, s') && WakeupInv(sys, s')
  {
  }

  lemma WorkersLoads<T(!new), L(!new)>(sys: System<T, L>, s: State<T, L>, s': State<T, L>)
    requires Shape(sys, s) && Shape(sys, s') && BoxInv(sys, s) && LoadInv(sys, s)
    requires s'.place == s.place && s'.box == s.box && s'.loads == s.loads && s'.free == s.free
    ensures BoxInv(sys, s') && LoadInv(sys, s')
  {
    assert forall w :: 0 <= w < sys.workers ==> LoadOf(sys, s', w) == LoadOf(sys, s, w);
  }

  /** Only the workers and the flag change. */
  lemma WorkersChange<T(!new), L(!new)>(sys: System<T, L>, s: State<T, L>, s': State<T, L>)
    requires LocksOk(sys, s) && s' == s.(worker := s'.worker, done := s'.done) && |s'.worker| == sys.workers
    ensures LocksOk(sys, s')
  {
    WorkersLocks(sys, s, s');
    WorkersDelays(sys, s, s');
    WorkersLoads(sys, s, s');
  }

  lemma StepKeepsLocks<T(!new), L(!new)>(sys: System<T, L>, s: State<T, L>, step: Step<T>)
    requires LocksOk(sys, s) && Enabled(sys, s, step)
    ensures LocksOk(sys, Apply(sys, s, step))
  {
    match step
    case Arrive(t) => ArriveKeeps(sys, s, t);
    case Assign(t) => AssignKeeps(sys, s, t);
    case Take(w) => TakeKeeps(sys, s, w);
    case Release(t) => ReleaseKeeps(sys, s, t);
    case Post(t) => PostKeeps(sys, s, t);
    case Complete(t) => CompleteKeeps(sys, s, t);
    case _ => WorkersChange(sys, s, Apply(sys, s, step));
  }

  /** How one step may move a task: what has ended stays so and ends by its release, only the step that tells a
      task of its last input makes it start, and only a poll brings it to a worker's hands. */
  ghost predicate Moved<T(!new)>(step: Step<T>, t: T, p: Place, p': Place) {
    && (Passed(p) ==> Passed(p')) && (Assigned(p) ==> Assigned(p'))
    && (AtWork(p') && step != Take(p'.w) ==> AtWork(p) && p'.w == p.w)
    && (Passed(p') && !Passed(p) ==> step == Release(t))
    && (p.Waiting? ==> p'.Waiting? || step == Arrive(t)) && (!p.Waiting? ==> !p'.Waiting?)
  }

  lemma TakeMoves<T(!new), L(!new)>(sys: System<T, L>, s: State<T, L>, w: nat, t: T)
    requires LocksOk(sys, s) && t in sys.tasks && w < sys.workers && s.box[w] != []
    ensures t in AfterTake(sys, s, w).place && Moved(Take(w), t, s.place[t], AfterTake(sys, s, w).place[t])
  {
    BoxedHead(sys, s, w);
  }

  lemma CompleteMoves<T(!new), L(!new)>(sys: System<T, L>, s: State<T, L>, u: T, t: T)
    requires LocksOk(sys, s) && t in sys.tasks && u in sys.tasks && s.place[u].Posted?
    ensures t in AfterComplete(sys, s, u).place && Moved(Complete(u), t, s.place[t], AfterComplete(sys, s, u).place[t])
  {
    CompletePlaces(sys, s, u);
    if sys.lock(u).Some? && s.delayed[sys.lock(u).value] != [] {
      FirstDelayed(sys, s, sys.lock(u).value);
    }
  }

  lemma ArriveMoves<T(!new), L(!new)>(sys: System<T, L>, s: State<T, L>, u: T, t: T)
    requires Shape(sys, s) && t in sys.tasks && u in sys.tasks && s.place[u].Waiting?
    ensures t in AfterArrive(sys, s, u).place && Moved(Arrive(u), t, s.place[t], AfterArrive(sys, s, u).place[t])
  {
  }

  lemma StepMoves<T(!new), L(!new)>(sys: System<T, L>, s: State<T, L>, step: Step<T>, t: T)
    requires LocksOk(sys, s) && Enabled(sys, s, step) && t in sys.tasks
    ensures t in Apply(sys, s, step).place && Moved(step, t, s.place[t], Apply(sys, s, step).place[t])
  {
    match step
    case Arrive(u) => ArriveMoves(sys, s, u, t);
    case Take(w) => TakeMoves(sys, s, w, t);
    case Complete(u) => CompleteMoves(sys, s, u, t);
    case _ =>
  }

  lemma StepKeepsOrder<T(!new), L(!new)>(sys: System<T, L>, s: State<T, L>, step: Step<T>)
    requires LocksOk(sys, s) && OrderInv(sys, s) && Enabled(sys, s, step) && LocksOk(sys, Apply(sys, s, step))
    ensures OrderInv(sys, Apply(sys, s, step))
  {
    forall t, u | t in sys.tasks && !Apply(sys, s, step).place[t].Waiting? && u in sys.preds(t)
      ensures u in Apply(sys, s, step).place && Passed(Apply(sys, s, step).place[u])
    {
      StepMoves(sys, s, step, t);
      assert PredsPassed(sys, s, t);
      StepMoves(sys, s, step, u);
    }
  }

  lemma StopAtKept<T(!new), L(!new)>(sys: System<T, L>, s: State<T, L>, step: Step<T>, t: T)
    requires Shape(sys, s) && StopInv(sys, s) && Enabled(sys, s, step) && Shape(sys, Apply(sys, s, step)) && t in sys.tasks
    requires Moved(step, t, s.place[t], Apply(sys, s, step).place[t])
    ensures StopAt(sys, Apply(sys, s, step), t)
  {
    assert StopAt(sys, s, t);
    if AtWork(Apply(sys, s, step).place[t]) && step.Miss? {
      assert s.place[t] == Running(s.place[t].w) || s.place[t] == Released(s.place[t].w);
    }
  }

  lemma ExitAtKept<T(!new), L(!new)>(sys: System<T, L>, s: State<T, L>, step: Step<T>, w: nat)
    requires Shape(sys, s) && StopInv(sys, s) && Enabled(sys, s, step) && Shape(sys, Apply(sys, s, step)) && w < sys.workers
    ensures ExitAt(sys, Apply(sys, s, step), w)
  {
    assert ExitAt(sys, s, w);
    if step.Assign? {
      assert !Assigned(s.place[step.t]) && StopAt(sys, s, step.t);
    }
  }

  lemma StepKeepsStop<T(!new), L(!new)>(sys: System<T, L>, s: State<T, L>, step: Step<T>)
    requires LocksOk(sys, s) && StopInv(sys, s) && Enabled(sys, s, step) && Shape(sys, Apply(sys, s, step))
    ensures StopInv(sys, Apply(sys, s, step))
  {
    forall t | t in sys.tasks
      ensures StopAt(sys, Apply(sys, s, step), t)
    {
      StepMoves(sys, s, step, t);
      StopAtKept(sys, s, step, t);
    }
    forall w | 0 <= w < sys.workers
      ensures ExitAt(sys, Apply(sys, s, step), w)
    {
      ExitAtKept(sys, s, step, w);
    }
  }

  lemma StepKeepsInv<T(!new), L(!new)>(sys: System<T, L>, s: State<T, L>, step: Step<T>)
    requires Inv(sys, s) && Enabled(sys, s, step)
    ensures Inv(sys, Apply(sys, s, step))
  {
    StepKeepsLocks(sys, s, step);
    StepKeepsOrder(sys, s, step);
    StepKeepsStop(sys, s, step);
  }

}
