/** Whole runs of the threads of one rank: which runs finish every task, and which lose one at the end. */
module ThreadRuns {
  import opened Sums
  import opened ThreadLocks

  /** The tasks wait for tasks of the rank only, and for none in a cycle. */
  ghost predicate Ordered<T(!new), L(!new)>(sys: System<T, L>, rank: T -> nat) {
    forall t <- sys.tasks :: forall u <- sys.preds(t) :: u in sys.tasks && rank(u) < rank(t)
  }

  // ---------------------------------------------------------------------------------------------
  // Steps that lead on
  // ---------------------------------------------------------------------------------------------

  /** All steps but the polls of a worker that has nothing to do while the master is still at work. */
  ghost predicate LeadsOn<T(!new), L(!new)>(sys: System<T, L>, s: State<T, L>, step: Step<T>)
    requires Shape(sys, s)
  {
    && Enabled(sys, s, step)
    && (step.Miss? ==> s.done)
    && (step.Look? ==> s.done || s.box[step.w] != [])
  }

  /** The master has joined its workers and has run every completion: a task is finished, or lies in the
      mailbox of a worker that is gone. */
  ghost predicate Over<T(!new), L(!new)>(sys: System<T, L>, s: State<T, L>)
    requires Shape(sys, s)
  {
    && s.done
    && (forall w :: 0 <= w < sys.workers ==> s.worker[w].Gone?)
    && (forall t <- sys.tasks :: s.place[t].Finished? || s.place[t].Boxed?)
  }

  /** A worker that is not gone, or that has a task in hand, can go on. */
  lemma WorkerGoesOn<T(!new), L(!new)>(sys: System<T, L>, s: State<T, L>, w: nat) returns (step: Step<T>)
    requires Inv(sys, s) && w < sys.workers && !s.worker[w].Gone? && (s.box[w] == [] ==> s.done)
    ensures LeadsOn(sys, s, step) && !step.Arrive?
  {
    match s.worker[w]
    case Missed => step := Look(w);
    case Closing =>
      if s.box[w] == [] {
        step := Again(w);
      } else {
        BoxedHead(sys, s, w);
        NotBusy(sys, s, w);
        step := Take(w);
      }
    case Polling =>
      if Busy(sys, s, w) {
        var u :| u in sys.tasks && (s.place[u] == Running(w) || s.place[u] == Released(w));
        step := if s.place[u].Running? then Release(u) else Post(u);
      } else if s.box[w] == [] {
        step := Miss(w);
      } else {
        BoxedHead(sys, s, w);
        step := Take(w);
      }
  }

  lemma NotBusy<T(!new), L(!new)>(sys: System<T, L>, s: State<T, L>, w: nat)
    requires Shape(sys, s) && StopInv(sys, s) && w < sys.workers && !s.worker[w].Polling?
    ensures !Busy(sys, s, w)
  {
    forall u | u in sys.tasks
      ensures s.place[u] != Running(w) && s.place[u] != Released(w)
    {
      assert StopAt(sys, s, u);
    }
  }

  lemma TaskGoesOn<T(!new), L(!new)>(sys: System<T, L>, s: State<T, L>, t: T) returns (step: Step<T>)
    requires Inv(sys, s) && t in sys.tasks && OnWorker(s.place[t]).Some? && (s.place[t].Boxed? ==> !s.done)
    ensures LeadsOn(sys, s, step) && !step.Arrive?
  {
    match s.place[t]
    case Running(w) => step := Release(t);
    case Released(w) => step := Post(t);
    case Posted(w) => step := Complete(t);
    case Boxed(w) =>
      assert OnWorker(s.place[t]) == Some(w) && t in s.box[w] && ExitAt(sys, s, w);
      step := WorkerGoesOn(sys, s, w);
  }

  lemma HolderOnWorker(p: Place)
    requires (Holding(p) && !p.Ready?) || Leaving(p)
    ensures OnWorker(p).Some?
  {
  }

  lemma FullWorker<T(!new), L(!new)>(sys: System<T, L>, s: State<T, L>, w: nat) returns (t: T)
    requires Shape(sys, s) && LoadInv(sys, s) && w < sys.workers && w !in s.free
    ensures t in sys.tasks && OnWorker(s.place[t]).Some?
  {
    assert |LoadOf(sys, s, w)| == 2;
    t :| t in LoadOf(sys, s, w);
  }

  lemma ReadyGoesOn<T(!new), L(!new)>(sys: System<T, L>, s: State<T, L>, t: T) returns (step: Step<T>)
    requires Inv(sys, s) && t in sys.tasks && s.place[t].Ready? && sys.workers > 0
    ensures LeadsOn(sys, s, step) && !step.Arrive?
  {
    if s.free != [] {
      step := Assign(t);
    } else {
      var u := FullWorker(sys, s, 0);
      assert StopAt(sys, s, t);
      step := TaskGoesOn(sys, s, u);
    }
  }

  lemma HolderOf<T(!new), L(!new)>(sys: System<T, L>, s: State<T, L>, t: T) returns (u: T)
    requires Shape(sys, s) && LockInv(sys, s) && DelayInv(sys, s) && WakeupInv(sys, s) && t in sys.tasks && s.place[t].Delayed?
    ensures u in sys.tasks && (Holding(s.place[u]) || Leaving(s.place[u]))
  {
    var l := sys.lock(t).value;
    assert l in Locks(sys) && t in s.delayed[l];
    u :| u in sys.tasks && sys.lock(u) == Some(l) && (Holding(s.place[u]) || Leaving(s.place[u]));
  }

  /** A delayed task never waits for ever: the lock that it waits for has a holder that can go on. */
  lemma DelayedGoesOn<T(!new), L(!new)>(sys: System<T, L>, s: State<T, L>, t: T) returns (step: Step<T>)
    requires Inv(sys, s) && t in sys.tasks && s.place[t].Delayed? && sys.workers > 0
    ensures LeadsOn(sys, s, step) && !step.Arrive?
  {
    var u := HolderOf(sys, s, t);
    if s.place[u].Ready? {
      step := ReadyGoesOn(sys, s, u);
    } else {
      HolderOnWorker(s.place[u]);
      assert StopAt(sys, s, t);
      step := TaskGoesOn(sys, s, u);
    }
  }

  /** With a second poll a task that has begun and not ended goes on, or another one does first, whatever the
      tasks still wait for. */
  lemma BegunGoesOn<T(!new), L(!new)>(sys: System<T, L>, s: State<T, L>, t: T) returns (step: Step<T>)
    requires Inv(sys, s) && t in sys.tasks && !s.place[t].Waiting? && !Passed(s.place[t]) && sys.workers > 0 && sys.recheck
    ensures LeadsOn(sys, s, step) && !step.Arrive?
  {
    match s.place[t]
    case Ready => step := ReadyGoesOn(sys, s, t);
    case Delayed => step := DelayedGoesOn(sys, s, t);
    case Running(w) => step := TaskGoesOn(sys, s, t);
    case Boxed(w) =>
      if s.done {
        assert OnWorker(s.place[t]) == Some(w) && t in s.box[w] && ExitAt(sys, s, w);
        step := WorkerGoesOn(sys, s, w);
      } else {
        step := TaskGoesOn(sys, s, t);
      }
  }

  /** While the master has not handed out every task, some step leads on. */
  lemma {:induction false} UnassignedGoesOn<T(!new), L(!new)>(sys: System<T, L>, rank: T -> nat, s: State<T, L>, t: T) returns (step: Step<T>)
    requires Inv(sys, s) && Ordered(sys, rank) && t in sys.tasks && !Assigned(s.place[t]) && sys.workers > 0
    ensures LeadsOn(sys, s, step)
    decreases rank(t)
  {
    assert StopAt(sys, s, t);
    match s.place[t]
    case Ready => step := ReadyGoesOn(sys, s, t);
    case Delayed => step := DelayedGoesOn(sys, s, t);
    case Waiting =>
      if PredsPassed(sys, s, t) {
        step := Arrive(t);
      } else {
        var u :| u in sys.preds(t) && !(u in s.place && Passed(s.place[u]));
        if Assigned(s.place[u]) {
          step := TaskGoesOn(sys, s, u);
        } else {
          step := UnassignedGoesOn(sys, rank, s, u);
        }
      }
  }

  /** No deadlock: unless everything is over, some step leads on. */
  lemma NoDeadlock<T(!new), L(!new)>(sys: System<T, L>, rank: T -> nat, s: State<T, L>) returns (step: Step<T>)
    requires Inv(sys, s) && Ordered(sys, rank) && sys.workers > 0 && !Over(sys, s)
    ensures LeadsOn(sys, s, step)
  {
    if t :| t in sys.tasks && !Assigned(s.place[t]) {
      step := UnassignedGoesOn(sys, rank, s, t);
    } else if !s.done {
      step := Stop;
    } else if w: nat :| w < sys.workers && !s.worker[w].Gone? {
      step := WorkerGoesOn(sys, s, w);
    } else {
      var t :| t in sys.tasks && !s.place[t].Finished? && !s.place[t].Boxed?;
      step := TaskGoesOn(sys, s, t);
    }
  }

  lemma OverIsStuck<T(!new), L(!new)>(sys: System<T, L>, s: State<T, L>, step: Step<T>)
    requires Inv(sys, s) && Over(sys, s)
    ensures !Enabled(sys, s, step)
  {
  }

  // ---------------------------------------------------------------------------------------------
  // Whole runs
  // ---------------------------------------------------------------------------------------------

  function Weight(p: Place): nat {
    match p
    case Waiting => 7
    case Delayed => 6
    case Ready => 5
    case Boxed(_) => 4
    case Running(_) => 3
    case Released(_) => 2
    case Posted(_) => 1
    case Finished => 0
  }

  ghost function Weights<T(!new)>(place: map<T, Place>): map<T, int> { map t | t in place :: Weight(place[t]) as int }

  /** What is left to do. */
  ghost function Left<T(!new)>(tasks: set<T>, place: map<T, Place>): int
    requires tasks <= place.Keys
  {
    Sum(tasks, Weights(place))
  }

  lemma LeftMoves<T(!new)>(tasks: set<T>, place: map<T, Place>, t: T, p: Place)
    requires tasks <= place.Keys && t in tasks
    ensures Left(tasks, place[t := p]) == Left(tasks, place) + Weight(p) - Weight(place[t])
  {
    assert Weights(place[t := p]) == Weights(place)[t := Weight(p)];
    SumUpdate(tasks, Weights(place), t, Weight(p));
  }

  lemma LeftNonNegative<T(!new)>(tasks: set<T>, place: map<T, Place>)
    requires tasks <= place.Keys
    ensures Left(tasks, place) >= 0
    ensures Left(tasks, place) == 0 <==> forall t <- tasks :: place[t].Finished?
  {
    SumNonNegative(tasks, Weights(place));
  }

  ghost predicate Polls<T>(step: Step<T>) { step.Miss? || step.Look? || step.Again? || step.Stop? }

  /** A step of a task moves it on; only a completion may move a second one, from the delay list to the queue. */
  lemma StepCounts<T(!new), L(!new)>(sys: System<T, L>, s: State<T, L>, step: Step<T>)
    requires LocksOk(sys, s) && Enabled(sys, s, step) && !Polls(step)
    ensures Apply(sys, s, step).place.Keys == sys.tasks
    ensures Left(sys.tasks, Apply(sys, s, step).place) < Left(sys.tasks, s.place)
  {
    match step
    case Complete(t) => CompleteCounts(sys, s, t);
    case Take(w) => TakeCounts(sys, s, w);
    case Assign(t) => AssignCounts(sys, s, t);
    case Arrive(t) => ArriveCounts(sys, s, t);
    case Release(t) => OneMoves(s.place, AfterRelease(sys, s, t).place, sys.tasks, t);
    case Post(t) => OneMoves(s.place, AfterPost(sys, s, t).place, sys.tasks, t);
  }

  lemma ArriveCounts<T(!new), L(!new)>(sys: System<T, L>, s: State<T, L>, t: T)
    requires Shape(sys, s) && t in sys.tasks && s.place[t].Waiting?
    ensures AfterArrive(sys, s, t).place.Keys == sys.tasks
    ensures Left(sys.tasks, AfterArrive(sys, s, t).place) < Left(sys.tasks, s.place)
  {
    OneMoves(s.place, AfterArrive(sys, s, t).place, sys.tasks, t);
  }

  lemma TakeCounts<T(!new), L(!new)>(sys: System<T, L>, s: State<T, L>, w: nat)
    requires LocksOk(sys, s) && w < sys.workers && s.box[w] != []
    ensures AfterTake(sys, s, w).place.Keys == sys.tasks
    ensures Left(sys.tasks, AfterTake(sys, s, w).place) < Left(sys.tasks, s.place)
  {
    BoxedHead(sys, s, w);
    OneMoves(s.place, AfterTake(sys, s, w).place, sys.tasks, s.box[w][0]);
  }

  lemma AssignCounts<T(!new), L(!new)>(sys: System<T, L>, s: State<T, L>, t: T)
    requires LocksOk(sys, s) && t in sys.tasks && s.place[t].Ready? && s.free != []
    ensures AfterAssign(sys, s, t).place.Keys == sys.tasks
    ensures Left(sys.tasks, AfterAssign(sys, s, t).place) < Left(sys.tasks, s.place)
  {
    FreeHasRoom(sys, s, s.free[0]);
    OneMoves(s.place, AfterAssign(sys, s, t).place, sys.tasks, t);
  }

  lemma OneMoves<T(!new)>(place: map<T, Place>, place': map<T, Place>, tasks: set<T>, t: T)
    requires place.Keys == tasks && t in tasks && t in place' && place' == place[t := place'[t]]
    requires Weight(place'[t]) < Weight(place[t])
    ensures place'.Keys == tasks && Left(tasks, place') < Left(tasks, place)
  {
    LeftMoves(tasks, place, t, place'[t]);
  }

  lemma TwoMove<T(!new)>(place: map<T, Place>, tasks: set<T>, u: T, t: T)
    requires place.Keys == tasks && u in tasks && t in tasks && place[u].Delayed? && place[t].Posted?
    ensures Left(tasks, place[u := Ready][t := Finished]) < Left(tasks, place)
  {
    LeftMoves(tasks, place, u, Ready);
    LeftMoves(tasks, place[u := Ready], t, Finished);
  }


  lemma CompleteCounts<T(!new), L(!new)>(sys: System<T, L>, s: State<T, L>, t: T)
    requires Shape(sys, s) && DelayInv(sys, s) && t in sys.tasks && s.place[t].Posted?
    ensures AfterComplete(sys, s, t).place.Keys == sys.tasks
    ensures Left(sys.tasks, AfterComplete(sys, s, t).place) < Left(sys.tasks, s.place)
  {
    CompletePlaces(sys, s, t);
    if sys.lock(t).Some? && s.delayed[sys.lock(t).value] != [] && sys.lock(t).value !in s.inUse {
      FirstDelayed(sys, s, sys.lock(t).value);
      TwoMove(s.place, sys.tasks, s.delayed[sys.lock(t).value][0], t);
    } else {
      OneMoves(s.place, s.place[t := Finished], sys.tasks, t);
    }
  }

  // ---------------------------------------------------------------------------------------------
  // Every step that leads on brings the end nearer, and no step puts it off
  // ---------------------------------------------------------------------------------------------

  /** What a worker that runs nothing still has to do before it is gone. */
  function Idling(k: Worker, done: bool, filled: bool): nat {
    if !done then if k.Missed? && filled then 4 else 3
    else match k case Polling => 3 case Missed => 2 case Closing => 1 case Gone => 0
  }

  ghost function Idlings<T(!new), L(!new)>(sys: System<T, L>, s: State<T, L>): (r: seq<nat>)
    requires Shape(sys, s)
    ensures |r| == sys.workers && forall w :: 0 <= w < sys.workers ==> r[w] == Idling(s.worker[w], s.done, s.box[w] != [])
  {
    seq(sys.workers, w requires 0 <= w < sys.workers => Idling(s.worker[w], s.done, s.box[w] != []))
  }

  ghost function Total(xs: seq<nat>): nat { if xs == [] then 0 else xs[0] + Total(xs[1..]) }

  lemma {:induction false} TotalGrows(xs: seq<nat>, ys: seq<nat>, k: nat, d: int)
    requires |xs| == |ys| && forall i :: 0 <= i < |xs| ==> ys[i] <= xs[i] + (if i == k then d else 0)
    ensures Total(ys) <= Total(xs) + if k < |xs| then d else 0
  {
    if xs != [] {
      if k == 0 {
        TotalSame(xs[1..], ys[1..]);
      } else {
        TotalGrows(xs[1..], ys[1..], k - 1, d);
      }
    }
  }

  lemma {:induction false} TotalSame(xs: seq<nat>, ys: seq<nat>)
    requires |xs| == |ys| && forall i :: 0 <= i < |xs| ==> ys[i] <= xs[i]
    ensures Total(ys) <= Total(xs)
  {
    if xs != [] {
      TotalSame(xs[1..], ys[1..]);
    }
  }

  lemma {:induction false} TotalBound(xs: seq<nat>, d: nat)
    requires forall i :: 0 <= i < |xs| ==> xs[i] <= d
    ensures Total(xs) <= d * |xs|
  {
    if xs != [] {
      TotalBound(xs[1..], d);
    }
  }

  ghost function Remaining<T(!new), L(!new)>(sys: System<T, L>, s: State<T, L>): int
    requires Shape(sys, s)
  {
    3 * Left(sys.tasks, s.place) + Total(Idlings(sys, s)) + if s.done then 0 else 1
  }

  /** A step of a task may bring one worker back from its way out. */
  lemma TaskStepIdles<T(!new), L(!new)>(sys: System<T, L>, s: State<T, L>, step: Step<T>)
    requires Shape(sys, s) && StopInv(sys, s) && Enabled(sys, s, step) && Shape(sys, Apply(sys, s, step)) && !Polls(step)
    ensures Apply(sys, s, step).done == s.done
    ensures Total(Idlings(sys, Apply(sys, s, step))) <= Total(Idlings(sys, s)) + 2
  {
    var w := if step.Take? then step.w else if step.Assign? then s.free[0] else 0;
    TotalGrows(Idlings(sys, s), Idlings(sys, Apply(sys, s, step)), w, 2);
  }

  /** That costs less than the task gains. */
  lemma TaskStepRemaining<T(!new), L(!new)>(sys: System<T, L>, s: State<T, L>, step: Step<T>)
    requires LocksOk(sys, s) && StopInv(sys, s) && Enabled(sys, s, step) && Shape(sys, Apply(sys, s, step)) && !Polls(step)
    ensures Remaining(sys, Apply(sys, s, step)) < Remaining(sys, s)
  {
    StepCounts(sys, s, step);
    TaskStepIdles(sys, s, step);
  }

  lemma PollRemaining<T(!new), L(!new)>(sys: System<T, L>, s: State<T, L>, step: Step<T>)
    requires Inv(sys, s) && Enabled(sys, s, step) && Shape(sys, Apply(sys, s, step)) && (step.Miss? || step.Look? || step.Again?)
    ensures Remaining(sys, Apply(sys, s, step)) <= Remaining(sys, s) - if LeadsOn(sys, s, step) then 1 else 0
  {
    assert ExitAt(sys, s, step.w);
    TotalGrows(Idlings(sys, s), Idlings(sys, Apply(sys, s, step)), step.w, if LeadsOn(sys, s, step) then -1 else 0);
  }

  lemma StepRemaining<T(!new), L(!new)>(sys: System<T, L>, s: State<T, L>, step: Step<T>)
    requires Inv(sys, s) && Enabled(sys, s, step) && Shape(sys, Apply(sys, s, step))
    ensures Remaining(sys, Apply(sys, s, step)) <= Remaining(sys, s) - if LeadsOn(sys, s, step) then 1 else 0
  {
    if step.Stop? {
      TotalSame(Idlings(sys, s), Idlings(sys, Apply(sys, s, step)));
    } else if step.Miss? || step.Look? || step.Again? {
      PollRemaining(sys, s, step);
    } else {
      TaskStepRemaining(sys, s, step);
    }
  }

  // ---------------------------------------------------------------------------------------------
  // Runs
  // ---------------------------------------------------------------------------------------------

  ghost predicate Run<T(!new), L(!new)>(sys: System<T, L>, s: State<T, L>, steps: seq<Step<T>>, s': State<T, L>)
    decreases |steps|
  {
    if steps == [] then s' == s
    else Shape(sys, s) && Enabled(sys, s, steps[0]) && Run(sys, Apply(sys, s, steps[0]), steps[1..], s')
  }

  /** How many steps of a run lead on. */
  ghost function Leading<T(!new), L(!new)>(sys: System<T, L>, s: State<T, L>, steps: seq<Step<T>>, s': State<T, L>): nat
    requires Run(sys, s, steps, s')
    decreases |steps|
  {
    if steps == [] then 0
    else (if LeadsOn(sys, s, steps[0]) then 1 else 0) + Leading(sys, Apply(sys, s, steps[0]), steps[1..], s')
  }

  lemma {:induction false} RunKeepsInv<T(!new), L(!new)>(sys: System<T, L>, s: State<T, L>, steps: seq<Step<T>>, s': State<T, L>)
    requires Inv(sys, s) && Run(sys, s, steps, s')
    ensures Inv(sys, s') && Remaining(sys, s') + Leading(sys, s, steps, s') <= Remaining(sys, s)
    decreases |steps|
  {
    if steps != [] {
      StepKeepsInv(sys, s, steps[0]);
      StepRemaining(sys, s, steps[0]);
      RunKeepsInv(sys, Apply(sys, s, steps[0]), steps[1..], s');
    }
  }

  lemma {:induction false} AllWaiting<T(!new)>(tasks: set<T>, place: map<T, Place>)
    requires tasks <= place.Keys && forall t <- tasks :: place[t].Waiting?
    ensures Left(tasks, place) == 7 * |tasks|
    decreases tasks
  {
    if tasks != {} {
      var x :| x in tasks;
      SumRemove(tasks, Weights(place), x);
      AllWaiting(tasks - {x}, place);
    }
  }

  lemma InitRemaining<T(!new), L(!new)>(sys: System<T, L>)
    ensures Shape(sys, Init(sys)) && Remaining(sys, Init(sys)) <= 21 * |sys.tasks| + 3 * sys.workers + 1
  {
    InitInv(sys);
    AllWaiting(sys.tasks, Init(sys).place);
    TotalBound(Idlings(sys, Init(sys)), 3);
  }

  lemma Exclusion<T(!new), L(!new)>(sys: System<T, L>, s: State<T, L>, t: T, u: T)
    requires Shape(sys, s) && LockInv(sys, s) && t in sys.tasks && u in sys.tasks && s.place[t].Running? && s.place[u].Running?
    requires sys.lock(t).Some? && sys.lock(t) == sys.lock(u)
    ensures t == u
  {
  }

  ghost predicate AllFinished<T(!new), L(!new)>(sys: System<T, L>, s: State<T, L>) {
    forall t <- sys.tasks :: t in s.place && s.place[t].Finished?
  }

  /** A task in the mailbox of a worker that is gone. */
  ghost predicate Lost<T(!new), L(!new)>(sys: System<T, L>, s: State<T, L>, t: T) {
    t in s.place && s.place[t].Boxed? && s.place[t].w < |s.worker| && s.worker[s.place[t].w].Gone?
  }

  /** At the end the tasks that are not finished are those left behind in mailboxes; with a second poll there
      are none. */
  lemma OverMeans<T(!new), L(!new)>(sys: System<T, L>, s: State<T, L>, t: T)
    requires Inv(sys, s) && Over(sys, s) && t in sys.tasks
    ensures s.place[t].Finished? <==> !Lost(sys, s, t)
    ensures sys.recheck ==> s.place[t].Finished?
  {
    if s.place[t].Boxed? {
      assert OnWorker(s.place[t]) == Some(s.place[t].w) && ExitAt(sys, s, s.place[t].w) && t in s.box[s.place[t].w];
    }
  }

  lemma NoLockLeft<T(!new), L(!new)>(sys: System<T, L>, s: State<T, L>)
    requires Shape(sys, s) && LockInv(sys, s)
    ensures AllFinished(sys, s) ==> s.inUse == {}
  {
    if AllFinished(sys, s) {
      assert forall l :: l !in s.inUse;
    }
  }

  /** A run ends, with every worker gone and every completion run, exactly when no step leads on. */
  lemma RunEnds<T(!new), L(!new)>(sys: System<T, L>, rank: T -> nat, s: State<T, L>)
    requires sys.workers > 0 && Ordered(sys, rank) && Inv(sys, s)
    ensures (forall step :: !LeadsOn(sys, s, step)) <==> Over(sys, s)
    ensures Over(sys, s) ==> forall step :: !Enabled(sys, s, step)
  {
    if Over(sys, s) {
      forall step
        ensures !Enabled(sys, s, step)
      {
        OverIsStuck(sys, s, step);
      }
    } else {
      var step := NoDeadlock(sys, rank, s);
    }
  }

  /** Every run of master and workers: no two tasks with the same lock run at once, a task runs only after the
      tasks it waits for, a task waits for a lock only while the lock is held or a completion for it is under
      way; apart from idle polling the number of steps is bounded in advance; the steps that lead on give out
      exactly when the master has stopped and all workers are gone; and what is not finished then lies in the
      mailbox of a worker that has left. */
  lemma EveryRun<T(!new), L(!new)>(sys: System<T, L>, rank: T -> nat, steps: seq<Step<T>>, s: State<T, L>)
    requires sys.workers > 0 && Ordered(sys, rank) && Run(sys, Init(sys), steps, s)
    ensures Inv(sys, s)
    ensures forall t, u :: t in sys.tasks && u in sys.tasks && s.place[t].Running? && s.place[u].Running? ==>
              sys.lock(t).Some? && sys.lock(t) == sys.lock(u) ==> t == u
    ensures Leading(sys, Init(sys), steps, s) <= 21 * |sys.tasks| + 3 * sys.workers + 1
    ensures (forall step :: !LeadsOn(sys, s, step)) <==> Over(sys, s)
    ensures Over(sys, s) ==> forall t <- sys.tasks :: (s.place[t].Finished? <==> !Lost(sys, s, t)) && (sys.recheck ==> s.place[t].Finished?)
    ensures AllFinished(sys, s) ==> s.inUse == {}
  {
    InitInv(sys);
    InitRemaining(sys);
    RunKeepsInv(sys, Init(sys), steps, s);
    LeftNonNegative(sys.tasks, s.place);
    RunEnds(sys, rank, s);
    NoLockLeft(sys, s);
    forall t, u | t in sys.tasks && u in sys.tasks && s.place[t].Running? && s.place[u].Running?
      ensures sys.lock(t).Some? && sys.lock(t) == sys.lock(u) ==> t == u
    {
      if sys.lock(t).Some? && sys.lock(t) == sys.lock(u) {
        Exclusion(sys, s, t, u);
      }
    }
    if Over(sys, s) {
      forall t | t in sys.tasks
        ensures (s.place[t].Finished? <==> !Lost(sys, s, t)) && (sys.recheck ==> s.place[t].Finished?)
      {
        OverMeans(sys, s, t);
      }
    }
  }

  // ---------------------------------------------------------------------------------------------
  // The worker that leaves too early
  // ---------------------------------------------------------------------------------------------

  lemma {:induction false} Extend<T(!new), L(!new)>(sys: System<T, L>, s0: State<T, L>, steps: seq<Step<T>>, s: State<T, L>, step: Step<T>)
    requires Run(sys, s0, steps, s) && Shape(sys, s) && Enabled(sys, s, step)
    ensures Run(sys, s0, steps + [step], Apply(sys, s, step))
    decreases |steps|
  {
    if steps == [] {
      assert Run(sys, Apply(sys, s, step), [step][1..], Apply(sys, s, step));
    } else {
      Extend(sys, Apply(sys, s0, steps[0]), steps[1..], s, step);
      assert (steps + [step])[1..] == steps[1..] + [step];
    }
  }

  /** The tasks in `fin` are finished, t is at p on worker 0, the others wait and nothing else is going on. */
  ghost function Single<T(!new), L(!new)>(sys: System<T, L>, fin: set<T>, t: T, p: Place): State<T, L> {
    State(
      map u | u in sys.tasks :: if u == t then p else if u in fin then Finished else Waiting,
      if Holding(p) && sys.lock(t).Some? then {sys.lock(t).value} else {},
      map l | l in Locks(sys) :: [],
      seq(sys.workers, w requires 0 <= w => if w == 0 && p.Boxed? then [t] else []),
      seq<nat>(sys.workers, w requires 0 <= w => if w == 0 && OnWorker(p).Some? then 1 else 0),
      seq<nat>(sys.workers, w requires 0 <= w => w),
      seq(sys.workers, _ => Polling),
      false)
  }

  lemma SingleShape<T(!new), L(!new)>(sys: System<T, L>, fin: set<T>, t: T, p: Place)
    requires sys.workers > 0 && t in sys.tasks && fin <= sys.tasks
    requires OnWorker(p).Some? ==> OnWorker(p) == Some(0)
    ensures Shape(sys, Single(sys, fin, t, p)) && Single(sys, fin, t, p).place[t] == p
    ensures OnWorker(p).None? || p.Boxed? || p.Posted? ==> !Busy(sys, Single(sys, fin, t, p), 0)
  {
  }

  lemma SingleArrives<T(!new), L(!new)>(sys: System<T, L>, fin: set<T>, t: T)
    requires sys.workers > 0 && t in sys.tasks && fin <= sys.tasks && t !in fin && sys.preds(t) <= fin
    ensures Shape(sys, Single(sys, fin, t, Waiting)) && Enabled(sys, Single(sys, fin, t, Waiting), Arrive(t))
    ensures Apply(sys, Single(sys, fin, t, Waiting), Arrive(t)) == Single(sys, fin, t, Ready)
  {
    SingleShape(sys, fin, t, Waiting);
  }

  lemma SingleAssigned<T(!new), L(!new)>(sys: System<T, L>, fin: set<T>, t: T)
    requires sys.workers > 0 && t in sys.tasks && fin <= sys.tasks && t !in fin
    ensures Shape(sys, Single(sys, fin, t, Ready)) && Enabled(sys, Single(sys, fin, t, Ready), Assign(t))
    ensures Apply(sys, Single(sys, fin, t, Ready), Assign(t)) == Single(sys, fin, t, Boxed(0))
  {
    SingleShape(sys, fin, t, Ready);
    var s, s' := Single(sys, fin, t, Ready), Single(sys, fin, t, Boxed(0));
    assert s.free[0] == 0 && s.box[0] == [];
    assert forall w :: 0 <= w < sys.workers ==> s.box[w] == [];
    assert [] + [t] == [t] && s.box[0 := [t]] == s'.box && s.loads[0 := 1] == s'.loads && s.place[t := Boxed(0)] == s'.place;
  }

  lemma SingleTaken<T(!new), L(!new)>(sys: System<T, L>, fin: set<T>, t: T)
    requires sys.workers > 0 && t in sys.tasks && fin <= sys.tasks && t !in fin
    ensures Shape(sys, Single(sys, fin, t, Boxed(0))) && Enabled(sys, Single(sys, fin, t, Boxed(0)), Take(0))
    ensures Apply(sys, Single(sys, fin, t, Boxed(0)), Take(0)) == Single(sys, fin, t, Running(0))
  {
    SingleShape(sys, fin, t, Boxed(0));
    assert [t][1..] == [];
  }

  lemma SingleEnds<T(!new), L(!new)>(sys: System<T, L>, fin: set<T>, t: T)
    requires sys.workers > 0 && t in sys.tasks && fin <= sys.tasks && t !in fin
    ensures Shape(sys, Single(sys, fin, t, Running(0))) && Enabled(sys, Single(sys, fin, t, Running(0)), Release(t))
    ensures Apply(sys, Single(sys, fin, t, Running(0)), Release(t)) == Single(sys, fin, t, Released(0))
    ensures Shape(sys, Single(sys, fin, t, Released(0))) && Enabled(sys, Single(sys, fin, t, Released(0)), Post(t))
    ensures Apply(sys, Single(sys, fin, t, Released(0)), Post(t)) == Single(sys, fin, t, Posted(0))
  {
    SingleShape(sys, fin, t, Running(0));
    SingleShape(sys, fin, t, Released(0));
  }

  lemma SingleCompletes<T(!new), L(!new)>(sys: System<T, L>, fin: set<T>, t: T)
    requires sys.workers > 0 && t in sys.tasks && fin <= sys.tasks && t !in fin
    ensures Shape(sys, Single(sys, fin, t, Posted(0))) && Enabled(sys, Single(sys, fin, t, Posted(0)), Complete(t))
    ensures Apply(sys, Single(sys, fin, t, Posted(0)), Complete(t)) == Single(sys, fin, t, Finished)
  {
    SingleShape(sys, fin, t, Posted(0));
    CompletePlaces(sys, Single(sys, fin, t, Posted(0)), t);
  }

  /** A task that no unfinished task holds back can run from start to end while nothing else happens. */
  lemma RunOne<T(!new), L(!new)>(sys: System<T, L>, steps: seq<Step<T>>, fin: set<T>, t: T) returns (more: seq<Step<T>>)
    requires sys.workers > 0 && t in sys.tasks && fin <= sys.tasks && t !in fin && sys.preds(t) <= fin
    requires Run(sys, Init(sys), steps, Single(sys, fin, t, Waiting))
    ensures Run(sys, Init(sys), more, Single(sys, fin, t, Finished))
  {
    more := BoxOne(sys, steps, fin, t);
    SingleTaken(sys, fin, t);
    Extend(sys, Init(sys), more, Single(sys, fin, t, Boxed(0)), Take(0));
    more := more + [Take(0)];
    SingleEnds(sys, fin, t);
    Extend(sys, Init(sys), more, Single(sys, fin, t, Running(0)), Release(t));
    more := more + [Release(t)];
    Extend(sys, Init(sys), more, Single(sys, fin, t, Released(0)), Post(t));
    more := more + [Post(t)];
    SingleCompletes(sys, fin, t);
    Extend(sys, Init(sys), more, Single(sys, fin, t, Posted(0)), Complete(t));
    more := more + [Complete(t)];
  }

  lemma BoxOne<T(!new), L(!new)>(sys: System<T, L>, steps: seq<Step<T>>, fin: set<T>, t: T) returns (more: seq<Step<T>>)
    requires sys.workers > 0 && t in sys.tasks && fin <= sys.tasks && t !in fin && sys.preds(t) <= fin
    requires Run(sys, Init(sys), steps, Single(sys, fin, t, Waiting))
    ensures Run(sys, Init(sys), more, Single(sys, fin, t, Boxed(0)))
  {
    SingleArrives(sys, fin, t);
    Extend(sys, Init(sys), steps, Single(sys, fin, t, Waiting), Arrive(t));
    more := steps + [Arrive(t)];
    SingleAssigned(sys, fin, t);
    Extend(sys, Init(sys), more, Single(sys, fin, t, Ready), Assign(t));
    more := more + [Assign(t)];
  }

  lemma SingleSwitch<T(!new), L(!new)>(sys: System<T, L>, fin: set<T>, t: T, u: T)
    requires t in sys.tasks && u in sys.tasks && fin <= sys.tasks && t !in fin && u !in fin + {t}
    ensures Single(sys, fin, t, Finished) == Single(sys, fin + {t}, u, Waiting)
  {
  }

  lemma SingleInit<T(!new), L(!new)>(sys: System<T, L>, t: T)
    requires t in sys.tasks
    ensures Single(sys, {}, t, Waiting) == Init(sys)
  {
    assert Single(sys, {}, t, Waiting).place == Init(sys).place;
  }

  /** A task of least, or of greatest, rank. */
  lemma {:induction false} Extreme<T(!new)>(rank: T -> nat, xs: set<T>, least: bool) returns (t: T)
    requires xs != {}
    ensures t in xs && forall u <- xs :: if least then rank(t) <= rank(u) else rank(u) <= rank(t)
    decreases xs
  {
    t :| t in xs;
    if xs != {t} {
      var u := Extreme(rank, xs - {t}, least);
      assert forall v <- xs :: v == t || v in xs - {t};
      if (if least then rank(u) < rank(t) else rank(u) > rank(t)) {
        t := u;
      }
    }
  }

  /** All tasks but the last one run one after the other. */
  lemma {:induction false} RunOthers<T(!new), L(!new)>(sys: System<T, L>, rank: T -> nat, steps: seq<Step<T>>, fin: set<T>, last: T)
    returns (more: seq<Step<T>>)
    requires sys.workers > 0 && Ordered(sys, rank) && last in sys.tasks && fin <= sys.tasks - {last}
    requires forall u <- sys.tasks :: rank(u) <= rank(last)
    requires forall u <- fin :: sys.preds(u) <= fin
    requires Run(sys, Init(sys), steps, Single(sys, fin, last, Waiting))
    ensures Run(sys, Init(sys), more, Single(sys, sys.tasks - {last}, last, Waiting))
    decreases sys.tasks - fin
  {
    if fin == sys.tasks - {last} {
      more := steps;
    } else {
      var rest := sys.tasks - {last} - fin;
      var t := Extreme(rank, rest, true);
      forall u | u in sys.preds(t)
        ensures u in fin
      {
        assert u in sys.tasks && rank(u) < rank(t) <= rank(last);
      }
      SingleOther(sys, fin, last, t);
      more := RunOne(sys, steps, fin, t);
      SingleSwitch(sys, fin, t, last);
      more := RunOthers(sys, rank, more, fin + {t}, last);
    }
  }

  lemma SingleOther<T(!new), L(!new)>(sys: System<T, L>, fin: set<T>, t: T, u: T)
    requires t in sys.tasks && u in sys.tasks && t !in fin && u !in fin
    ensures Single(sys, fin, t, Waiting) == Single(sys, fin, u, Waiting)
  {
    assert Single(sys, fin, t, Waiting).place == Single(sys, fin, u, Waiting).place;
  }

  ghost function WithMiss<T(!new), L(!new)>(s: State<T, L>): State<T, L>
    requires |s.worker| > 0
  {
    s.(worker := s.worker[0 := Missed])
  }

  lemma MissReady<T(!new), L(!new)>(sys: System<T, L>, fin: set<T>, t: T)
    requires sys.workers > 0 && t in sys.tasks && fin <= sys.tasks && t !in fin
    ensures Shape(sys, Single(sys, fin, t, Ready)) && Enabled(sys, Single(sys, fin, t, Ready), Miss(0))
    ensures Apply(sys, Single(sys, fin, t, Ready), Miss(0)) == WithMiss(Single(sys, fin, t, Ready))
  {
    SingleShape(sys, fin, t, Ready);
  }

  lemma AssignMissed<T(!new), L(!new)>(sys: System<T, L>, fin: set<T>, t: T)
    requires sys.workers > 0 && t in sys.tasks && fin <= sys.tasks && t !in fin
    ensures Shape(sys, WithMiss(Single(sys, fin, t, Ready))) && Enabled(sys, WithMiss(Single(sys, fin, t, Ready)), Assign(t))
    ensures Apply(sys, WithMiss(Single(sys, fin, t, Ready)), Assign(t)) == WithMiss(Single(sys, fin, t, Boxed(0)))
  {
    SingleAssigned(sys, fin, t);
  }

  /** Worker 0 finds its mailbox empty before the last task is put into it. */
  lemma MissLast<T(!new), L(!new)>(sys: System<T, L>, steps: seq<Step<T>>, fin: set<T>, last: T) returns (more: seq<Step<T>>)
    requires sys.workers > 0 && last in sys.tasks && fin <= sys.tasks && last !in fin && sys.preds(last) <= fin
    requires Run(sys, Init(sys), steps, Single(sys, fin, last, Waiting))
    ensures Run(sys, Init(sys), more, WithMiss(Single(sys, fin, last, Boxed(0))))
    ensures more == steps + [Arrive(last)] + [Miss(0)] + [Assign(last)]
  {
    SingleArrives(sys, fin, last);
    Extend(sys, Init(sys), steps, Single(sys, fin, last, Waiting), Arrive(last));
    MissReady(sys, fin, last);
    Extend(sys, Init(sys), steps + [Arrive(last)], Single(sys, fin, last, Ready), Miss(0));
    AssignMissed(sys, fin, last);
    more := steps + [Arrive(last)] + [Miss(0)] + [Assign(last)];
    Extend(sys, Init(sys), steps + [Arrive(last)] + [Miss(0)], WithMiss(Single(sys, fin, last, Ready)), Assign(last));
  }

  /** The last task is in the mailbox of worker 0, which has left. */
  ghost function LastLost<T(!new), L(!new)>(sys: System<T, L>, last: T): State<T, L> {
    Single(sys, sys.tasks - {last}, last, Boxed(0)).(
      worker := seq(sys.workers, w requires 0 <= w => if w == 0 then Gone else Polling), done := true)
  }

  lemma LastIsLost<T(!new), L(!new)>(sys: System<T, L>, last: T)
    requires sys.workers > 0 && last in sys.tasks
    ensures var s := WithMiss(Single(sys, sys.tasks - {last}, last, Boxed(0)));
            s.(worker := s.worker[0 := Gone], done := true) == LastLost(sys, last)
    ensures Lost(sys, LastLost(sys, last), last)
  {
    var s := WithMiss(Single(sys, sys.tasks - {last}, last, Boxed(0)));
    assert s.worker[0 := Gone] == LastLost(sys, last).worker;
  }

  lemma LastIsBoxed<T(!new), L(!new)>(sys: System<T, L>, last: T)
    requires sys.workers > 0 && last in sys.tasks
    ensures var s := WithMiss(Single(sys, sys.tasks - {last}, last, Boxed(0)));
            Shape(sys, s) && s.worker[0].Missed? && !s.done && forall t <- sys.tasks :: Assigned(s.place[t])
  {
    SingleShape(sys, sys.tasks - {last}, last, Boxed(0));
  }

  /** The end of such a run: the master stops and worker 0 reads `done`. */
  lemma LoseLast<T(!new), L(!new)>(sys: System<T, L>, steps: seq<Step<T>>, last: T) returns (more: seq<Step<T>>)
    requires sys.workers > 0 && !sys.recheck && last in sys.tasks && sys.preds(last) <= sys.tasks - {last}
    requires Run(sys, Init(sys), steps, Single(sys, sys.tasks - {last}, last, Waiting))
    ensures Run(sys, Init(sys), more, LastLost(sys, last)) && Lost(sys, LastLost(sys, last), last)
    ensures more == steps + [Arrive(last), Miss(0), Assign(last), Stop, Look(0)]
  {
    more := MissLast(sys, steps, sys.tasks - {last}, last);
    LastIsBoxed(sys, last);
    more := StopAndLook(sys, more, WithMiss(Single(sys, sys.tasks - {last}, last, Boxed(0))));
    LastIsLost(sys, last);
  }

  lemma StopAndLook<T(!new), L(!new)>(sys: System<T, L>, steps: seq<Step<T>>, s: State<T, L>) returns (more: seq<Step<T>>)
    requires sys.workers > 0 && !sys.recheck && Shape(sys, s) && Run(sys, Init(sys), steps, s)
    requires s.worker[0].Missed? && !s.done && forall t <- sys.tasks :: Assigned(s.place[t])
    ensures Run(sys, Init(sys), more, s.(worker := s.worker[0 := Gone], done := true))
    ensures more == steps + [Stop] + [Look(0)]
  {
    Extend(sys, Init(sys), steps, s, Stop);
    Extend(sys, Init(sys), steps + [Stop], s.(done := true), Look(0));
    more := steps + [Stop] + [Look(0)];
  }

  lemma BoxedStays<T(!new), L(!new)>(sys: System<T, L>, s: State<T, L>, u: T, t: T)
    requires LocksOk(sys, s) && u in sys.tasks && s.place[u].Posted? && t in sys.tasks && s.place[t].Boxed?
    ensures t in AfterComplete(sys, s, u).place && AfterComplete(sys, s, u).place[t] == s.place[t]
  {
    CompletePlaces(sys, s, u);
    if sys.lock(u).Some? && s.delayed[sys.lock(u).value] != [] {
      FirstDelayed(sys, s, sys.lock(u).value);
    }
  }

  lemma TakeLoses<T(!new), L(!new)>(sys: System<T, L>, s: State<T, L>, w: nat, t: T)
    requires LocksOk(sys, s) && w < sys.workers && s.box[w] != [] && !s.worker[w].Gone? && t in sys.tasks && Lost(sys, s, t)
    ensures Lost(sys, AfterTake(sys, s, w), t)
  {
    BoxedHead(sys, s, w);
  }

  /** A task in a mailbox moves only when it is taken, and nothing but a poll changes a worker. */
  lemma LostStays<T(!new), L(!new)>(sys: System<T, L>, s: State<T, L>, s': State<T, L>, t: T, u: T)
    requires Lost(sys, s, t) && t != u && s'.worker == s.worker && u in s'.place && s'.place == s.place[u := s'.place[u]]
    ensures Lost(sys, s', t)
  {
  }

  lemma MasterKeepsLost<T(!new), L(!new)>(sys: System<T, L>, s: State<T, L>, step: Step<T>, t: T)
    requires Shape(sys, s) && Enabled(sys, s, step) && t in sys.tasks && Lost(sys, s, t)
    requires step.Arrive? || step.Assign? || step.Release? || step.Post?
    ensures Lost(sys, Apply(sys, s, step), t)
  {
    LostStays(sys, s, Apply(sys, s, step), t, step.t);
  }

  lemma LostForGood<T(!new), L(!new)>(sys: System<T, L>, s: State<T, L>, step: Step<T>, t: T)
    requires LocksOk(sys, s) && Enabled(sys, s, step) && t in sys.tasks && Lost(sys, s, t)
    ensures Lost(sys, Apply(sys, s, step), t)
  {
    match step
    case Take(w) => TakeLoses(sys, s, w, t);
    case Complete(u) => BoxedStays(sys, s, u, t);
    case Miss(w) =>
    case Look(w) =>
    case Again(w) =>
    case Stop =>
    case _ => MasterKeepsLost(sys, s, step, t);
  }

  /** Every run can be led to its end. */
  lemma {:induction false} RunToEnd<T(!new), L(!new)>(sys: System<T, L>, rank: T -> nat, steps: seq<Step<T>>, s: State<T, L>, t: T)
    returns (more: seq<Step<T>>, s': State<T, L>)
    requires sys.workers > 0 && Ordered(sys, rank) && Inv(sys, s) && Run(sys, Init(sys), steps, s)
    requires t in sys.tasks && Lost(sys, s, t)
    ensures Run(sys, Init(sys), more, s') && Inv(sys, s') && Over(sys, s') && Lost(sys, s', t)
    decreases Remaining(sys, s)
  {
    more, s' := steps, s;
    if !Over(sys, s) {
      var step := NoDeadlock(sys, rank, s);
      StepKeepsInv(sys, s, step);
      StepRemaining(sys, s, step);
      LostForGood(sys, s, step, t);
      Extend(sys, Init(sys), steps, s, step);
      RemainingNonNegative(sys, Apply(sys, s, step));
      more, s' := RunToEnd(sys, rank, steps + [step], Apply(sys, s, step), t);
    }
  }

  lemma RemainingNonNegative<T(!new), L(!new)>(sys: System<T, L>, s: State<T, L>)
    requires Shape(sys, s)
    ensures Remaining(sys, s) >= 0
  {
    LeftNonNegative(sys.tasks, s.place);
  }

  /** Without the second poll there is a run to the end that loses a task, whatever the tasks are. */
  lemma SomeRunLoses<T(!new), L(!new)>(sys: System<T, L>, rank: T -> nat) returns (steps: seq<Step<T>>, s: State<T, L>, last: T)
    requires sys.workers > 0 && Ordered(sys, rank) && !sys.recheck && sys.tasks != {}
    ensures Run(sys, Init(sys), steps, s) && Inv(sys, s) && Over(sys, s) && last in sys.tasks && Lost(sys, s, last)
  {
    last := Extreme(rank, sys.tasks, false);
    SingleInit(sys, last);
    var before := RunOthers(sys, rank, [], {}, last);
    assert last !in sys.preds(last);
    steps := LoseLast(sys, before, last);
    s := LastLost(sys, last);
    InitInv(sys);
    RunKeepsInv(sys, Init(sys), steps, s);
    steps, s := RunToEnd(sys, rank, steps, s, last);
  }

  ghost predicate AllRunsFinish<T(!new), L(!new)>(sys: System<T, L>) {
    forall steps, s :: Run(sys, Init(sys), steps, s) && Shape(sys, s) && Over(sys, s) ==> AllFinished(sys, s)
  }

  /** The runs that end all finish every task exactly when a worker polls once more after it has seen `done`,
      which symPACK's workers do not, or the rank has no task. */
  lemma AllRunsFinishIff<T(!new), L(!new)>(sys: System<T, L>, rank: T -> nat)
    requires sys.workers > 0 && Ordered(sys, rank)
    ensures AllRunsFinish(sys) <==> sys.recheck || sys.tasks == {}
  {
    if sys.recheck || sys.tasks == {} {
      forall steps, s | Run(sys, Init(sys), steps, s) && Shape(sys, s) && Over(sys, s)
        ensures AllFinished(sys, s)
      {
        EveryRun(sys, rank, steps, s);
      }
    } else {
      var steps, s, last := SomeRunLoses(sys, rank);
      OverMeans(sys, s, last);
    }
  }

  /** One task, two workers: worker 0 finds nothing, the task is put into its mailbox, the master sets `done`,
      and both workers leave. */
  lemma OneTaskLost() returns (sys: System<nat, nat>, steps: seq<Step<nat>>, s: State<nat, nat>)
    ensures sys == System({7}, sys.lock, sys.preds, 2, false) && sys.preds(7) == {}
    ensures steps == [Arrive(7), Miss(0), Assign(7), Stop, Look(0), Miss(1), Look(1)]
    ensures Run(sys, Init(sys), steps, s) && Shape(sys, s) && Over(sys, s) && Lost(sys, s, 7)
  {
    sys := System({7}, _ => None, _ => {}, 2, false);
    SingleInit(sys, 7);
    steps := LoseLast(sys, [], 7);
    SingleShape(sys, {}, 7, Boxed(0));
    s := Leave(sys, steps, LastLost(sys, 7), 1);
    steps := steps + [Miss(1)] + [Look(1)];
  }

  lemma Leave<T(!new), L(!new)>(sys: System<T, L>, steps: seq<Step<T>>, s: State<T, L>, w: nat) returns (s': State<T, L>)
    requires w < sys.workers && !sys.recheck && Shape(sys, s) && Run(sys, Init(sys), steps, s)
    requires s.done && s.worker[w].Polling? && s.box[w] == [] && forall t <- sys.tasks :: s.place[t].Boxed?
    ensures s' == s.(worker := s.worker[w := Gone]) && Run(sys, Init(sys), steps + [Miss(w)] + [Look(w)], s')
  {
    Extend(sys, Init(sys), steps, s, Miss(w));
    Extend(sys, Init(sys), steps + [Miss(w)], s.(worker := s.worker[w := Missed]), Look(w));
    s' := s.(worker := s.worker[w := Gone]);
    assert s.worker[w := Missed][w := Gone] == s'.worker;
  }

  /** Strong compare-and-swap is needed: when a task is delayed although its lock is free, as a spurious failure
      would have it, and all other tasks are done, only idle polls are left and the task stays delayed. */
  lemma SpuriousFailureStrands<T(!new), L(!new)>(sys: System<T, L>, s: State<T, L>, t: T, step: Step<T>)
    requires Shape(sys, s) && BoxInv(sys, s) && StopInv(sys, s) && t in sys.tasks && s.place[t].Delayed?
    requires forall u <- sys.tasks :: u != t ==> s.place[u].Finished?
    ensures !LeadsOn(sys, s, step)
    ensures Enabled(sys, s, step) ==> Apply(sys, s, step).place == s.place
  {
    assert StopAt(sys, s, t);
    forall w | 0 <= w < sys.workers
      ensures s.box[w] == [] && ExitAt(sys, s, w)
    {
      if s.box[w] != [] {
        BoxedHead(sys, s, w);
      }
    }
  }
}
