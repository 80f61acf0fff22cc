/** What the tasks compute, and why no schedule can change it.

    The blocks of the matrix are values of any type V with the operations of the task bodies: factorize,
    trsm, the scaled copy D*L^T of the LDL case, and update.  The only law used is that two updates of the
    same cell may be exchanged.  A state adds to the scheduler's state the cells, the copies that one-sided
    gets have brought to other ranks, and the buffers of the DLT tasks. */
module Factorization {
  import opened TaskProtocol
  import opened TaskGraph

  datatype Algebra<!V> = Algebra(
    factor: V -> V,
    trsm: (V, V) -> V,
    diagOf: V -> V,
    dlt: (V, V) -> V,
    update: (V, V, V) -> V,
    unset: V)

  datatype Problem<!V> = Problem(b: Blocks, alg: Algebra<V>, a: (nat, nat) -> V)

  /** Updates of a cell commute. */
  ghost predicate Commutes<V(!new)>(alg: Algebra<V>) {
    forall t, p, f, q, h ::
      alg.update(alg.update(t, p, f), q, h) == alg.update(alg.update(t, q, h), p, f)
  }

  // ---------------------------------------------------------------------------------------------
  // The factor, defined without any schedule
  // ---------------------------------------------------------------------------------------------

  /** Cell (K,J) of the factor. */
  function Fin<V>(p: Problem<V>, K: nat, J: nat): V
    decreases J, if K == J then 1 else 2
  {
    if K == J then p.alg.factor(Acc(p, J, J, J)) else p.alg.trsm(Fin(p, J, J), Acc(p, K, J, J))
  }

  /** Cell (K,J) of the matrix after the updates of the supernodes below `i`, in order. */
  function Acc<V>(p: Problem<V>, K: nat, J: nat, i: nat): V
    decreases i, 0
  {
    if i <= 1 then p.a(K, J)
    else if J in p.b.anc(i - 1) && K in p.b.anc(i - 1)
    then p.alg.update(Acc(p, K, J, i - 1), Pivot(p, J, i - 1), Fin(p, K, i - 1))
    else Acc(p, K, J, i - 1)
  }

  /** The operand that cell (J,I) gives to an update: the cell itself, or its product with D. */
  function Pivot<V>(p: Problem<V>, J: nat, I: nat): V
    decreases I, 3
  {
    if p.b.ldl then p.alg.dlt(p.alg.diagOf(Fin(p, I, I)), Fin(p, J, I)) else Fin(p, J, I)
  }

  // ---------------------------------------------------------------------------------------------
  // The task bodies
  // ---------------------------------------------------------------------------------------------

  datatype Option<+A> = None | Some(value: A)

  datatype Memory<!V> = Memory(cells: map<(nat, nat), V>, copies: map<Obj<Key>, V>, bufs: map<Key, V>)

  function CellOf(k: Key): (nat, nat) { (k.cellJ, k.cellI) }

  function Read<A(==), V>(m: map<A, V>, x: A, unset: V): V { if x in m then m[x] else unset }

  /** The first input that carries a cell and the last one that carries diagonal entries. */
  function FirstCell(inputs: seq<Obj<Key>>): Option<Obj<Key>> {
    if inputs == [] then None else if !inputs[0].diag then Some(inputs[0]) else FirstCell(inputs[1..])
  }

  function LastDiag(inputs: seq<Obj<Key>>): Option<Obj<Key>> {
    if inputs == [] then None
    else var rest := LastDiag(inputs[1..]);
      if rest.None? && inputs[0].diag then Some(inputs[0]) else rest
  }

  /** How an update distributes its messages over the pivot and the facing cell, in order of arrival. */
  function Assign(inputs: seq<Obj<Key>>, odRemote: bool, facingRemote: bool,
                  od: Option<Obj<Key>>, facing: Option<Obj<Key>>): (Option<Obj<Key>>, Option<Obj<Key>>)
  {
    if inputs == [] then (od, facing)
    else if odRemote && od.None? then Assign(inputs[1..], odRemote, facingRemote, Some(inputs[0]), facing)
    else if facingRemote && facing.None? then Assign(inputs[1..], odRemote, facingRemote, od, Some(inputs[0]))
    else Assign(inputs[1..], odRemote, facingRemote, od, facing)
  }

  datatype Operand<!V> = Operand(row: nat, val: V)

  function OperandOf<V>(p: Problem<V>, m: Memory<V>, o: Option<Obj<Key>>, row: nat, I: nat): Operand<V> {
    match o
    case Some(obj) => Operand(obj.src.cellJ, Read(m.copies, obj, p.alg.unset))
    case None => Operand(row, Read(m.cells, (row, I), p.alg.unset))
  }

  function RunFactor<V>(p: Problem<V>, m: Memory<V>, t: Key): Memory<V> {
    m.(cells := m.cells[CellOf(t) := p.alg.factor(Read(m.cells, CellOf(t), p.alg.unset))])
  }

  function RunTrsm<V>(p: Problem<V>, m: Memory<V>, t: Key, inputs: seq<Obj<Key>>): Memory<V> {
    var I := t.src;
    var diag := if p.b.own(I, I) == t.owner then Read(m.cells, (I, I), p.alg.unset)
                else if inputs != [] then Read(m.copies, inputs[0], p.alg.unset)
                else p.alg.unset;
    m.(cells := m.cells[CellOf(t) := p.alg.trsm(diag, Read(m.cells, CellOf(t), p.alg.unset))])
  }

  function RunDlt<V>(p: Problem<V>, m: Memory<V>, t: Key, inputs: seq<Obj<Key>>): Memory<V> {
    var J, I := t.cellI, t.src;
    var diag := match LastDiag(inputs)
      case Some(o) => Read(m.copies, o, p.alg.unset)
      case None => p.alg.diagOf(Read(m.cells, (I, I), p.alg.unset));
    var od := if p.b.own(J, I) == t.owner then Read(m.cells, (J, I), p.alg.unset)
              else match FirstCell(inputs)
                case Some(o) => Read(m.copies, o, p.alg.unset)
                case None => Read(m.cells, (J, I), p.alg.unset);
    m.(bufs := m.bufs[t := p.alg.dlt(diag, od)])
  }

  /** The two operands of an update, exchanged when they come in the wrong order. */
  function Operands<V>(p: Problem<V>, m: Memory<V>, t: Key, inputs: seq<Obj<Key>>): (Operand<V>, Operand<V>) {
    var K, J, I := t.cellJ, t.cellI, t.src;
    var picked := Assign(inputs, p.b.own(J, I) != t.owner, p.b.own(K, I) != t.owner, None, None);
    var od := OperandOf(p, m, picked.0, J, I);
    var facing := OperandOf(p, m, picked.1, K, I);
    if facing.row < od.row then (facing, od) else (od, facing)
  }

  function RunUpdate<V>(p: Problem<V>, m: Memory<V>, t: Key, inputs: seq<Obj<Key>>): Memory<V> {
    var ops := Operands(p, m, t, inputs);
    var pivot := if p.b.ldl then Read(m.bufs, DltKey(ops.0.row, t.src, t.owner), p.alg.unset) else ops.0.val;
    m.(cells := m.cells[CellOf(t) := p.alg.update(Read(m.cells, CellOf(t), p.alg.unset), pivot, ops.1.val)])
  }

  function RunTask<V>(p: Problem<V>, m: Memory<V>, t: Key, inputs: seq<Obj<Key>>): Memory<V> {
    match t.op
    case FACTOR => RunFactor(p, m, t)
    case TRSM => RunTrsm(p, m, t, inputs)
    case DLT2D_COMP => RunDlt(p, m, t, inputs)
    case UPDATE2D_COMP => RunUpdate(p, m, t, inputs)
  }

  /** A completed get holds what its source cell held at that moment. */
  function RunGet<V>(p: Problem<V>, m: Memory<V>, o: Obj<Key>): Memory<V> {
    var v := Read(m.cells, CellOf(o.src), p.alg.unset);
    m.(copies := m.copies[o := if o.diag then p.alg.diagOf(v) else v])
  }

  // ---------------------------------------------------------------------------------------------
  // States, steps and runs with data
  // ---------------------------------------------------------------------------------------------

  datatype DState<!V> = DState(ctl: State<Key>, mem: Memory<V>)

  ghost function ApplyData<V>(p: Problem<V>, s: DState<V>, step: Step<Key>): DState<V>
    requires Keyed(GraphOf(p.b), s.ctl) && Known(GraphOf(p.b), step)
  {
    DState(
      Apply(GraphOf(p.b), s.ctl, step),
      match step
      case Execute(t) => RunTask(p, s.mem, t, s.ctl.inputMsg[t])
      case RgetDone(o) => RunGet(p, s.mem, o)
      case _ => s.mem)
  }

  ghost predicate ValidCell(b: Blocks, K: nat, J: nat) { 1 <= J <= b.n && (K == J || K in b.anc(J)) }

  ghost predicate StartData<V>(p: Problem<V>, s: DState<V>) {
    && s.ctl == Start(p.b)
    && s.mem.copies == map[] && s.mem.bufs == map[]
    && forall K: nat, J: nat :: ValidCell(p.b, K, J) ==> (K, J) in s.mem.cells && s.mem.cells[(K, J)] == p.a(K, J)
  }

  ghost predicate RunData<V>(p: Problem<V>, s: DState<V>, steps: seq<Step<Key>>, s': DState<V>)
    decreases |steps|
  {
    if steps == [] then s' == s
    else
      && Keyed(GraphOf(p.b), s.ctl) && Known(GraphOf(p.b), steps[0]) && Enabled(GraphOf(p.b), s.ctl, steps[0])
      && RunData(p, ApplyData(p, s, steps[0]), steps[1..], s')
  }

  // ---------------------------------------------------------------------------------------------
  // The invariant on data
  // ---------------------------------------------------------------------------------------------

  /** Cell (K,J) after the updates among supernodes below `i` that have been done. */
  ghost function AccDone<V>(p: Problem<V>, K: nat, J: nat, i: nat, done: set<Key>): V
    decreases i
  {
    if i <= 1 then p.a(K, J)
    else if UpdateKey(p.b, K, J, i - 1) in done
    then p.alg.update(AccDone(p, K, J, i - 1, done), Pivot(p, J, i - 1), Fin(p, K, i - 1))
    else AccDone(p, K, J, i - 1, done)
  }

  ghost predicate CellInv<V>(p: Problem<V>, s: DState<V>, K: nat, J: nat) {
    && (K, J) in s.mem.cells
    && s.mem.cells[(K, J)] ==
       (if FinalKey(p.b, K, J) in s.ctl.log then Fin(p, K, J) else AccDone(p, K, J, J, s.ctl.Done()))
  }

  ghost function Published<V>(p: Problem<V>, o: Obj<Key>): V {
    var v := Fin(p, o.src.cellJ, o.src.cellI);
    if o.diag then p.alg.diagOf(v) else v
  }

  ghost predicate CopiesInv<V>(p: Problem<V>, s: DState<V>) {
    forall o <- s.ctl.landed :: o in s.mem.copies && s.mem.copies[o] == Published(p, o)
  }

  ghost predicate BufsInv<V>(p: Problem<V>, s: DState<V>) {
    forall t <- s.ctl.log :: t.op.DLT2D_COMP? ==>
      t in s.mem.bufs && s.mem.bufs[t] == p.alg.dlt(p.alg.diagOf(Fin(p, t.src, t.src)), Fin(p, t.cellI, t.src))
  }

  ghost predicate DataOk<V>(p: Problem<V>, s: DState<V>) {
    && (forall K: nat, J: nat :: ValidCell(p.b, K, J) ==> CellInv(p, s, K, J))
    && CopiesInv(p, s)
    && BufsInv(p, s)
  }

  // ---------------------------------------------------------------------------------------------
  // Accumulated updates
  // ---------------------------------------------------------------------------------------------

  /** A further update can be put last, whatever was done before it. */
  lemma {:induction false} AccDoneAdd<V(!new)>(p: Problem<V>, K: nat, J: nat, i: nat, done: set<Key>, I: nat)
    requires Commutes(p.alg) && UpdateKey(p.b, K, J, I) !in done && 1 <= I < i
    ensures AccDone(p, K, J, i, done + {UpdateKey(p.b, K, J, I)}) ==
            p.alg.update(AccDone(p, K, J, i, done), Pivot(p, J, I), Fin(p, K, I))
  {
    var t := UpdateKey(p.b, K, J, I);
    if I == i - 1 {
      AccDoneSame(p, K, J, i - 1, done, t);
    } else {
      AccDoneAdd(p, K, J, i - 1, done, I);
      if UpdateKey(p.b, K, J, i - 1) in done {
        var x := AccDone(p, K, J, i - 1, done);
        Exchange(p.alg, x, Pivot(p, J, I), Fin(p, K, I), Pivot(p, J, i - 1), Fin(p, K, i - 1));
      }
    }
  }

  lemma Exchange<V(!new)>(alg: Algebra<V>, t: V, x: V, f: V, q: V, h: V)
    requires Commutes(alg)
    ensures alg.update(alg.update(t, x, f), q, h) == alg.update(alg.update(t, q, h), x, f)
  {
  }

  /** Tasks that are not updates of the cell from below `i` do not count. */
  lemma {:induction false} AccDoneSame<V>(p: Problem<V>, K: nat, J: nat, i: nat, done: set<Key>, t: Key)
    requires forall I: nat :: I < i ==> t != UpdateKey(p.b, K, J, I)
    ensures AccDone(p, K, J, i, done + {t}) == AccDone(p, K, J, i, done)
  {
    if i > 1 {
      AccDoneSame(p, K, J, i - 1, done, t);
    }
  }

  lemma {:induction false} AccDoneNone<V>(p: Problem<V>, K: nat, J: nat, i: nat)
    ensures AccDone(p, K, J, i, {}) == p.a(K, J)
  {
    if i > 1 {
      AccDoneNone(p, K, J, i - 1);
    }
  }

  /** With every update done the accumulation is that of the reference. */
  lemma {:induction false} AccDoneAll<V>(p: Problem<V>, K: nat, J: nat, i: nat, done: set<Key>)
    requires forall I: nat :: 1 <= I < i ==> (UpdateKey(p.b, K, J, I) in done <==> J in p.b.anc(I) && K in p.b.anc(I))
    ensures AccDone(p, K, J, i, done) == Acc(p, K, J, i)
  {
    if i > 1 {
      AccDoneAll(p, K, J, i - 1, done);
    }
  }

  // ---------------------------------------------------------------------------------------------
  // What a ready task finds
  // ---------------------------------------------------------------------------------------------

  lemma UpstreamDone(b: Blocks, s: State<Key>, t: Key, u: Key)
    requires Inv(GraphOf(b), s) && t in s.ready && (u, t) in GraphOf(b).edges
    ensures u in s.log
    ensures u.owner != t.owner ==> ObjOf(GraphOf(b), u, t) in s.landed
  {
    ReadyPredsDone(GraphOf(b), s, t);
    InMembers(GraphOf(b), GraphOf(b).edges, t, true);
    InMembers(GraphOf(b), GraphOf(b).edges, t, false);
    if u.owner == t.owner {
      assert u in Preds(GraphOf(b), t, true);
    } else {
      assert u in Preds(GraphOf(b), t, false);
    }
  }

  /** Every input message of a task comes from a remote task upstream of it, and every remote task
      upstream of a ready task has sent its message. */
  lemma InputsAreUpstream(b: Blocks, s: State<Key>, t: Key)
    requires Inv(GraphOf(b), s) && t in GraphOf(b).tasks
    ensures forall o <- s.inputMsg[t] :: (o.src, t) in GraphOf(b).edges && o.src.owner != t.owner && o == ObjOf(GraphOf(b), o.src, t)
  {
    forall o | o in s.inputMsg[t]
      ensures (o.src, t) in GraphOf(b).edges && o.src.owner != t.owner && o == ObjOf(GraphOf(b), o.src, t)
    {
      InputIsUpstream(b, s, t, o);
    }
  }

  lemma InputIsEdge(g: Graph<Key>, s: State<Key>, t: Key, o: Obj<Key>)
    requires Inv(g, s) && t in g.tasks && o in s.inputMsg[t]
    ensures (o.src, t) in g.edges && g.owner(o.src) != g.owner(t) && o == ObjOf(g, o.src, t)
  {
    assert o in Objs(g);
    assert DataInv(g, s, t, o);
    assert o.src in Preds(g, t, false);
    InMembers(g, g.edges, t, false);
  }

  lemma InputIsUpstream(b: Blocks, s: State<Key>, t: Key, o: Obj<Key>)
    requires Inv(GraphOf(b), s) && t in GraphOf(b).tasks && o in s.inputMsg[t]
    ensures (o.src, t) in GraphOf(b).edges && o.src.owner != t.owner && o == ObjOf(GraphOf(b), o.src, t)
  {
    InputIsEdge(GraphOf(b), s, t, o);
  }

  lemma UpstreamSent(b: Blocks, s: State<Key>, t: Key, u: Key)
    requires Inv(GraphOf(b), s) && t in s.ready && (u, t) in GraphOf(b).edges && u.owner != t.owner
    ensures multiset(s.inputMsg[t])[ObjOf(GraphOf(b), u, t)] == multiset(Preds(GraphOf(b), t, false))[u]
    ensures ObjOf(GraphOf(b), u, t) in s.inputMsg[t]
  {
    var g := GraphOf(b);
    ReadyPredsDone(g, s, t);
    InMembers(g, g.edges, t, false);
    assert u in Preds(g, t, false);
    RemoteEdge(g, g.edges, (u, t));
    assert t in g.tasks;
    assert DataInv(g, s, t, ObjOf(g, u, t));
  }

  ghost predicate Good<V(!new)>(p: Problem<V>, s: DState<V>) {
    && ValidBlocks(p.b) && FillClosed(p.b) && Commutes(p.alg)
    && Inv(GraphOf(p.b), s.ctl)
    && DataOk(p, s)
  }

  lemma KnownTask(b: Blocks, s: State<Key>, t: Key)
    requires Inv(GraphOf(b), s) && (t in s.ready || t in s.log)
    ensures IsTask(b, t) && t in GraphOf(b).tasks
  {
    TaskMembers(b, t);
  }

  /** When the task that finishes cell (K,J) is ready, exactly the updates of the structure are done. */
  lemma UpdatesDone(b: Blocks, s: State<Key>, K: nat, J: nat, I: nat)
    requires ValidBlocks(b) && Inv(GraphOf(b), s) && ValidCell(b, K, J) && FinalKey(b, K, J) in s.ready
    requires 1 <= I < J
    ensures UpdateKey(b, K, J, I) in s.Done() <==> J in b.anc(I) && K in b.anc(I)
  {
    var t := UpdateKey(b, K, J, I);
    if t in s.Done() {
      KnownTask(b, s, t);
    }
    if J in b.anc(I) && K in b.anc(I) {
      AggregateEdge(b, I, J, K);
      UpstreamDone(b, s, FinalKey(b, K, J), t);
    }
  }

  /** FACTOR(J) and TRSM(K,J) read the matrix cell minus all its updates. */
  lemma FinalTaskReadsAcc<V(!new)>(p: Problem<V>, s: DState<V>, K: nat, J: nat)
    requires Good(p, s) && ValidCell(p.b, K, J) && FinalKey(p.b, K, J) in s.ctl.ready
    ensures FinalKey(p.b, K, J) !in s.ctl.log
    ensures (K, J) in s.mem.cells && s.mem.cells[(K, J)] == Acc(p, K, J, J)
  {
    ReadyPredsDone(GraphOf(p.b), s.ctl, FinalKey(p.b, K, J));
    forall I: nat | 1 <= I < J
      ensures UpdateKey(p.b, K, J, I) in s.ctl.Done() <==> J in p.b.anc(I) && K in p.b.anc(I)
    {
      UpdatesDone(p.b, s.ctl, K, J, I);
    }
    AccDoneAll(p, K, J, J, s.ctl.Done());
    assert CellInv(p, s, K, J);
  }

  lemma FinalCell<V(!new)>(p: Problem<V>, s: DState<V>, K: nat, J: nat)
    requires DataOk(p, s) && ValidCell(p.b, K, J) && FinalKey(p.b, K, J) in s.ctl.log
    ensures Read(s.mem.cells, (K, J), p.alg.unset) == Fin(p, K, J)
  {
    assert CellInv(p, s, K, J);
  }

  lemma LandedCopy<V(!new)>(p: Problem<V>, s: DState<V>, o: Obj<Key>)
    requires DataOk(p, s) && o in s.ctl.landed
    ensures Read(s.mem.copies, o, p.alg.unset) == Published(p, o)
  {
  }

  lemma FactorRuns<V(!new)>(p: Problem<V>, s: DState<V>, I: nat)
    requires Good(p, s) && 1 <= I <= p.b.n && FactorKey(p.b, I) in s.ctl.ready
    ensures RunFactor(p, s.mem, FactorKey(p.b, I)) == s.mem.(cells := s.mem.cells[(I, I) := Fin(p, I, I)])
  {
    FinalTaskReadsAcc(p, s, I, I);
  }

  lemma TrsmDiag<V(!new)>(p: Problem<V>, s: DState<V>, J: nat, I: nat)
    requires Good(p, s) && 1 <= I <= p.b.n && J in p.b.anc(I) && TrsmKey(p.b, J, I) in s.ctl.ready
    ensures p.b.own(I, I) == p.b.own(J, I) ==> Read(s.mem.cells, (I, I), p.alg.unset) == Fin(p, I, I)
    ensures p.b.own(I, I) != p.b.own(J, I) ==>
              TrsmKey(p.b, J, I) in s.ctl.inputMsg && s.ctl.inputMsg[TrsmKey(p.b, J, I)] != []
              && Read(s.mem.copies, s.ctl.inputMsg[TrsmKey(p.b, J, I)][0], p.alg.unset) == Fin(p, I, I)
  {
    var t, u := TrsmKey(p.b, J, I), FactorKey(p.b, I);
    KnownTask(p.b, s.ctl, t);
    TrsmEdge(p.b, I, J);
    UpstreamDone(p.b, s.ctl, t, u);
    if p.b.own(I, I) == p.b.own(J, I) {
      FinalCell(p, s, I, I);
    } else {
      UpstreamSent(p.b, s.ctl, t, u);
      InputsAreUpstream(p.b, s.ctl, t);
      var o := s.ctl.inputMsg[t][0];
      assert o in s.ctl.inputMsg[t];
      EdgeShapes(p.b, (o.src, t));
      assert o == ObjOf(GraphOf(p.b), u, t);
      LandedCopy(p, s, o);
    }
  }

  lemma TrsmRuns<V(!new)>(p: Problem<V>, s: DState<V>, J: nat, I: nat)
    requires Good(p, s) && 1 <= I <= p.b.n && J in p.b.anc(I) && TrsmKey(p.b, J, I) in s.ctl.ready
    ensures TrsmKey(p.b, J, I) in s.ctl.inputMsg
    ensures RunTrsm(p, s.mem, TrsmKey(p.b, J, I), s.ctl.inputMsg[TrsmKey(p.b, J, I)]) ==
            s.mem.(cells := s.mem.cells[(J, I) := Fin(p, J, I)])
  {
    KnownTask(p.b, s.ctl, TrsmKey(p.b, J, I));
    assert I < J;
    TrsmDiag(p, s, J, I);
    FinalTaskReadsAcc(p, s, J, I);
  }

  // ---------------------------------------------------------------------------------------------
  // DLT and UPDATE
  // ---------------------------------------------------------------------------------------------

  lemma {:induction false} LastDiagIs(inputs: seq<Obj<Key>>)
    ensures LastDiag(inputs).Some? <==> exists o <- inputs :: o.diag
    ensures LastDiag(inputs).Some? ==> LastDiag(inputs).value in inputs && LastDiag(inputs).value.diag
  {
    if inputs != [] {
      LastDiagIs(inputs[1..]);
      assert inputs == [inputs[0]] + inputs[1..];
    }
  }

  lemma {:induction false} FirstCellIs(inputs: seq<Obj<Key>>)
    ensures FirstCell(inputs).Some? <==> exists o <- inputs :: !o.diag
    ensures FirstCell(inputs).Some? ==> FirstCell(inputs).value in inputs && !FirstCell(inputs).value.diag
  {
    if inputs != [] {
      FirstCellIs(inputs[1..]);
      assert inputs == [inputs[0]] + inputs[1..];
    }
  }

  /** A DLT task is fed by the diagonal block and by its own cell. */
  lemma DltUpstream(b: Blocks, t: Key)
    requires IsTask(b, t) && t.op.DLT2D_COMP?
    ensures b.ldl && 1 <= t.src <= b.n && t.cellI in b.anc(t.src)
    ensures (FactorKey(b, t.src), t) in GraphOf(b).edges && (TrsmKey(b, t.cellI, t.src), t) in GraphOf(b).edges
  {
    var J, I := t.cellI, t.src;
    var K :| K in b.anc(I) && K >= J && b.own(K, J) == t.owner;
    PivotEdge(b, I, J, K);
    FacingEdge(b, I, J, K);
  }

  lemma DltInput(b: Blocks, s: State<Key>, t: Key, o: Obj<Key>)
    requires Inv(GraphOf(b), s) && IsTask(b, t) && t in GraphOf(b).tasks && t.op.DLT2D_COMP? && o in s.inputMsg[t]
    ensures o.src.owner != t.owner
    ensures if o.diag then o == ObjOf(GraphOf(b), FactorKey(b, t.src), t)
            else o == ObjOf(GraphOf(b), TrsmKey(b, t.cellI, t.src), t)
  {
    InputsAreUpstream(b, s, t);
    EdgeShapes(b, (o.src, t));
  }

  lemma DltDiag<V(!new)>(p: Problem<V>, s: DState<V>, t: Key)
    requires Good(p, s) && IsTask(p.b, t) && t.op.DLT2D_COMP? && t in s.ctl.ready && t in s.ctl.inputMsg
    ensures (match LastDiag(s.ctl.inputMsg[t])
             case Some(o) => Read(s.mem.copies, o, p.alg.unset)
             case None => p.alg.diagOf(Read(s.mem.cells, (t.src, t.src), p.alg.unset)))
            == p.alg.diagOf(Fin(p, t.src, t.src))
  {
    var I, inputs := t.src, s.ctl.inputMsg[t];
    KnownTask(p.b, s.ctl, t);
    DltUpstream(p.b, t);
    UpstreamDone(p.b, s.ctl, t, FactorKey(p.b, I));
    LastDiagIs(inputs);
    if p.b.own(I, I) != t.owner {
      UpstreamSent(p.b, s.ctl, t, FactorKey(p.b, I));
      assert ObjOf(GraphOf(p.b), FactorKey(p.b, I), t).diag;
    }
    match LastDiag(inputs)
    case Some(o) =>
      DltInput(p.b, s.ctl, t, o);
      LandedCopy(p, s, o);
    case None =>
      FinalCell(p, s, I, I);
  }

  lemma DltCell<V(!new)>(p: Problem<V>, s: DState<V>, t: Key)
    requires Good(p, s) && IsTask(p.b, t) && t.op.DLT2D_COMP? && t in s.ctl.ready && t in s.ctl.inputMsg
    ensures p.b.own(t.cellI, t.src) == t.owner ==> Read(s.mem.cells, (t.cellI, t.src), p.alg.unset) == Fin(p, t.cellI, t.src)
    ensures p.b.own(t.cellI, t.src) != t.owner ==>
              && FirstCell(s.ctl.inputMsg[t]).Some?
              && Read(s.mem.copies, FirstCell(s.ctl.inputMsg[t]).value, p.alg.unset) == Fin(p, t.cellI, t.src)
  {
    var J, I, inputs := t.cellI, t.src, s.ctl.inputMsg[t];
    var u := TrsmKey(p.b, J, I);
    KnownTask(p.b, s.ctl, t);
    DltUpstream(p.b, t);
    assert I < J;
    UpstreamDone(p.b, s.ctl, t, u);
    if p.b.own(J, I) == t.owner {
      FinalCell(p, s, J, I);
    } else {
      UpstreamSent(p.b, s.ctl, t, u);
      FirstCellIs(inputs);
      assert !ObjOf(GraphOf(p.b), u, t).diag;
      var o := FirstCell(inputs).value;
      DltInput(p.b, s.ctl, t, o);
      LandedCopy(p, s, o);
    }
  }

  lemma DltRuns<V(!new)>(p: Problem<V>, s: DState<V>, t: Key)
    requires Good(p, s) && IsTask(p.b, t) && t.op.DLT2D_COMP? && t in s.ctl.ready && t in s.ctl.inputMsg
    ensures RunDlt(p, s.mem, t, s.ctl.inputMsg[t]) ==
            s.mem.(bufs := s.mem.bufs[t := p.alg.dlt(p.alg.diagOf(Fin(p, t.src, t.src)), Fin(p, t.cellI, t.src))])
  {
    DltDiag(p, s, t);
    DltCell(p, s, t);
  }

  /** Two messages, one of each kind, arrive in one of two orders. */
  lemma TwoOrders<A>(xs: seq<A>, x: A, y: A)
    requires x != y && (forall z <- xs :: z == x || z == y) && multiset(xs)[x] == 1 && multiset(xs)[y] == 1
    ensures xs == [x, y] || xs == [y, x]
  {
    assert |multiset(xs)| == |xs|;
    OnlyTwo(xs, x, y);
    assert xs == [xs[0], xs[1]];
  }

  lemma {:induction false} OnlyTwo<A>(xs: seq<A>, x: A, y: A)
    requires x != y && forall z <- xs :: z == x || z == y
    ensures |xs| == multiset(xs)[x] + multiset(xs)[y]
  {
    if xs != [] {
      assert xs[0] in xs && forall z <- xs[1..] :: z in xs;
      OnlyTwo(xs[1..], x, y);
      assert xs == [xs[0]] + xs[1..];
    }
  }

  lemma {:induction false} OnlyOne<A>(xs: seq<A>, x: A)
    requires forall z <- xs :: z == x
    ensures |xs| == multiset(xs)[x]
  {
    if xs != [] {
      assert xs[0] in xs && forall z <- xs[1..] :: z in xs;
      OnlyOne(xs[1..], x);
      assert xs == [xs[0]] + xs[1..];
    }
  }

  /** Who is picked as pivot and as facing cell. */
  lemma AssignBoth(x: Obj<Key>, y: Obj<Key>)
    ensures Assign([x, y], true, true, None, None) == (Some(x), Some(y))
  {
    assert [x, y][1..] == [y] && [y][1..] == [];
    assert Assign([y], true, true, Some(x), None) == Assign([], true, true, Some(x), Some(y));
  }

  lemma {:induction false} AssignLocal(inputs: seq<Obj<Key>>, odRemote: bool, facingRemote: bool,
                                       od: Option<Obj<Key>>, facing: Option<Obj<Key>>)
    requires (odRemote ==> od.Some?) && (facingRemote ==> facing.Some?)
    ensures Assign(inputs, odRemote, facingRemote, od, facing) == (od, facing)
  {
    if inputs != [] {
      AssignLocal(inputs[1..], odRemote, facingRemote, od, facing);
    }
  }

  lemma UpdateUpstream(b: Blocks, t: Key)
    requires ValidBlocks(b) && IsTask(b, t) && t.op.UPDATE2D_COMP?
    ensures (TrsmKey(b, t.cellI, t.src), t) in GraphOf(b).edges && (TrsmKey(b, t.cellJ, t.src), t) in GraphOf(b).edges
    ensures b.ldl ==> (DltKey(t.cellI, t.src, t.owner), t) in GraphOf(b).edges
    ensures t.src < t.cellI <= t.cellJ
  {
    PivotEdge(b, t.src, t.cellI, t.cellJ);
    FacingEdge(b, t.src, t.cellI, t.cellJ);
  }

  lemma UpdateInput(b: Blocks, s: State<Key>, t: Key, o: Obj<Key>)
    requires Inv(GraphOf(b), s) && IsTask(b, t) && t in GraphOf(b).tasks && t.op.UPDATE2D_COMP? && o in s.inputMsg[t]
    ensures o.src.owner != t.owner
    ensures o == ObjOf(GraphOf(b), TrsmKey(b, t.cellI, t.src), t) || o == ObjOf(GraphOf(b), TrsmKey(b, t.cellJ, t.src), t)
  {
    InputsAreUpstream(b, s, t);
    EdgeShapes(b, (o.src, t));
  }

  /** The message, if any, that brings cell (X,I) to the rank of the update. */
  ghost function MessageOf(b: Blocks, t: Key, X: nat): Option<Obj<Key>> {
    if b.own(X, t.src) != t.owner then Some(ObjOf(GraphOf(b), TrsmKey(b, X, t.src), t)) else None
  }

  /** The messages of a ready update are those of its two cells and nothing else. */
  ghost predicate TwoMessagesOnly(inputs: seq<Obj<Key>>, x: Option<Obj<Key>>, y: Option<Obj<Key>>) {
    && (forall o <- inputs :: x == Some(o) || y == Some(o))
    && (x.Some? ==> multiset(inputs)[x.value] == if x == y then 2 else 1)
    && (y.Some? ==> multiset(inputs)[y.value] == if x == y then 2 else 1)
  }

  lemma UpdateMessage(b: Blocks, s: State<Key>, t: Key, X: nat, Y: nat)
    requires ValidBlocks(b) && Inv(GraphOf(b), s) && IsTask(b, t) && t.op.UPDATE2D_COMP? && t in s.ready && t in s.inputMsg
    requires (X == t.cellI && Y == t.cellJ) || (X == t.cellJ && Y == t.cellI)
    requires MessageOf(b, t, X).Some?
    ensures multiset(s.inputMsg[t])[MessageOf(b, t, X).value] == Weight(X, Y)
  {
    UpdateUpstream(b, t);
    UpstreamSent(b, s, t, TrsmKey(b, X, t.src));
    OperandCount(b, t.src, X, Y, (TrsmKey(b, X, t.src), t));
  }

  lemma UpdateInputs(b: Blocks, s: State<Key>, t: Key)
    requires ValidBlocks(b) && Inv(GraphOf(b), s) && IsTask(b, t) && t.op.UPDATE2D_COMP? && t in s.ready && t in s.inputMsg
    ensures TwoMessagesOnly(s.inputMsg[t], MessageOf(b, t, t.cellI), MessageOf(b, t, t.cellJ))
  {
    var K, J := t.cellJ, t.cellI;
    KnownTask(b, s, t);
    forall o | o in s.inputMsg[t]
      ensures MessageOf(b, t, J) == Some(o) || MessageOf(b, t, K) == Some(o)
    {
      UpdateInput(b, s, t, o);
    }
    if MessageOf(b, t, J).Some? {
      UpdateMessage(b, s, t, J, K);
    }
    if MessageOf(b, t, K).Some? {
      UpdateMessage(b, s, t, K, J);
    }
  }

  /** Whatever the arrival order, the messages give the two source cells, in one order or the other. */
  lemma AssignFinds(inputs: seq<Obj<Key>>, x: Option<Obj<Key>>, y: Option<Obj<Key>>)
    requires TwoMessagesOnly(inputs, x, y)
    ensures var picked := Assign(inputs, x.Some?, y.Some?, None, None);
            picked == (x, y) || (x.Some? && y.Some? && picked == (y, x))
  {
    if x.Some? && y.Some? {
      if x == y {
        OnlyOne(inputs, x.value);
        assert inputs[0] in inputs && inputs[1] in inputs;
        assert inputs == [x.value, y.value];
      } else {
        TwoOrders(inputs, x.value, y.value);
      }
      AssignBoth(x.value, y.value);
      AssignBoth(y.value, x.value);
    } else if x.Some? || y.Some? {
      var z := if x.Some? then x.value else y.value;
      OnlyOne(inputs, z);
      assert inputs[0] in inputs;
      assert inputs == [z] && inputs[1..] == [];
      AssignLocal([], x.Some?, y.Some?, x, y);
    } else {
      AssignLocal(inputs, false, false, None, None);
    }
  }

  lemma SourceOperand<V(!new)>(p: Problem<V>, s: DState<V>, t: Key, X: nat, row: nat)
    requires Good(p, s) && IsTask(p.b, t) && t.op.UPDATE2D_COMP? && t in s.ctl.ready
    requires X == t.cellI || X == t.cellJ
    requires MessageOf(p.b, t, X).None? ==> row == X
    ensures OperandOf(p, s.mem, MessageOf(p.b, t, X), row, t.src) == Operand(X, Fin(p, X, t.src))
  {
    var u := TrsmKey(p.b, X, t.src);
    KnownTask(p.b, s.ctl, t);
    UpdateUpstream(p.b, t);
    UpstreamDone(p.b, s.ctl, t, u);
    if p.b.own(X, t.src) != t.owner {
      LandedCopy(p, s, ObjOf(GraphOf(p.b), u, t));
    } else {
      FinalCell(p, s, X, t.src);
    }
  }

  /** How the messages are assigned to the two operands. */
  ghost function PickedFor(b: Blocks, inputs: seq<Obj<Key>>, t: Key): (Option<Obj<Key>>, Option<Obj<Key>>) {
    Assign(inputs, b.own(t.cellI, t.src) != t.owner, b.own(t.cellJ, t.src) != t.owner, None, None)
  }

  ghost predicate EitherWay<A(!new)>(p: (A, A), x: A, y: A) { p == (x, y) || p == (y, x) }

  lemma Picked(b: Blocks, s: State<Key>, t: Key)
    requires ValidBlocks(b) && Inv(GraphOf(b), s) && IsTask(b, t) && t.op.UPDATE2D_COMP? && t in s.ready && t in s.inputMsg
    ensures var x, y := MessageOf(b, t, t.cellI), MessageOf(b, t, t.cellJ);
            PickedFor(b, s.inputMsg[t], t) == (x, y) || (x.Some? && y.Some? && PickedFor(b, s.inputMsg[t], t) == (y, x))
  {
    UpdateInputs(b, s, t);
    AssignFinds(s.inputMsg[t], MessageOf(b, t, t.cellI), MessageOf(b, t, t.cellJ));
  }

  lemma BothOperands<V(!new)>(p: Problem<V>, s: DState<V>, t: Key, picked: (Option<Obj<Key>>, Option<Obj<Key>>), od: Operand<V>, facing: Operand<V>)
    requires Good(p, s) && IsTask(p.b, t) && t.op.UPDATE2D_COMP? && t in s.ctl.ready
    requires var x, y := MessageOf(p.b, t, t.cellI), MessageOf(p.b, t, t.cellJ);
             picked == (x, y) || (x.Some? && y.Some? && picked == (y, x))
    requires od == OperandOf(p, s.mem, picked.0, t.cellI, t.src) && facing == OperandOf(p, s.mem, picked.1, t.cellJ, t.src)
    ensures EitherWay((od, facing), Operand(t.cellI, Fin(p, t.cellI, t.src)), Operand(t.cellJ, Fin(p, t.cellJ, t.src)))
  {
    var K, J := t.cellJ, t.cellI;
    if picked == (MessageOf(p.b, t, J), MessageOf(p.b, t, K)) {
      SourceOperand(p, s, t, J, J);
      SourceOperand(p, s, t, K, K);
    } else {
      SourceOperand(p, s, t, J, K);
      SourceOperand(p, s, t, K, J);
    }
  }

  lemma OperandsFrom<V(!new)>(p: Problem<V>, m: Memory<V>, t: Key, inputs: seq<Obj<Key>>, od: Operand<V>, facing: Operand<V>, x: Operand<V>, y: Operand<V>)
    requires od == OperandOf(p, m, PickedFor(p.b, inputs, t).0, t.cellI, t.src)
    requires facing == OperandOf(p, m, PickedFor(p.b, inputs, t).1, t.cellJ, t.src)
    requires EitherWay((od, facing), x, y) && (x.row < y.row || x == y)
    ensures Operands(p, m, t, inputs) == (x, y)
  {
  }

  lemma PickedOperands<V(!new)>(p: Problem<V>, s: DState<V>, t: Key, inputs: seq<Obj<Key>>) returns (od: Operand<V>, facing: Operand<V>)
    requires Good(p, s) && IsTask(p.b, t) && t.op.UPDATE2D_COMP? && t in s.ctl.ready && t in s.ctl.inputMsg && inputs == s.ctl.inputMsg[t]
    ensures od == OperandOf(p, s.mem, PickedFor(p.b, inputs, t).0, t.cellI, t.src)
    ensures facing == OperandOf(p, s.mem, PickedFor(p.b, inputs, t).1, t.cellJ, t.src)
    ensures EitherWay((od, facing), Operand(t.cellI, Fin(p, t.cellI, t.src)), Operand(t.cellJ, Fin(p, t.cellJ, t.src)))
  {
    var picked := PickedFor(p.b, inputs, t);
    od, facing := OperandOf(p, s.mem, picked.0, t.cellI, t.src), OperandOf(p, s.mem, picked.1, t.cellJ, t.src);
    Picked(p.b, s.ctl, t);
    BothOperands(p, s, t, picked, od, facing);
  }

  lemma SourceOrder(b: Blocks, t: Key)
    requires IsTask(b, t) && t.op.UPDATE2D_COMP?
    ensures t.cellI <= t.cellJ
  {
  }

  lemma UpdateOperands<V(!new)>(p: Problem<V>, s: DState<V>, t: Key)
    requires Good(p, s) && IsTask(p.b, t) && t.op.UPDATE2D_COMP? && t in s.ctl.ready && t in s.ctl.inputMsg
    ensures Operands(p, s.mem, t, s.ctl.inputMsg[t]) ==
            (Operand(t.cellI, Fin(p, t.cellI, t.src)), Operand(t.cellJ, Fin(p, t.cellJ, t.src)))
  {
    var inputs := s.ctl.inputMsg[t];
    var od, facing := PickedOperands(p, s, t, inputs);
    SourceOrder(p.b, t);
    OperandsFrom(p, s.mem, t, inputs, od, facing, Operand(t.cellI, Fin(p, t.cellI, t.src)), Operand(t.cellJ, Fin(p, t.cellJ, t.src)));
  }

  lemma UpdateRuns<V(!new)>(p: Problem<V>, s: DState<V>, t: Key)
    requires Good(p, s) && IsTask(p.b, t) && t.op.UPDATE2D_COMP? && t in s.ctl.ready && t in s.ctl.inputMsg
    ensures RunUpdate(p, s.mem, t, s.ctl.inputMsg[t]) ==
            s.mem.(cells := s.mem.cells[CellOf(t) :=
              p.alg.update(Read(s.mem.cells, CellOf(t), p.alg.unset), Pivot(p, t.cellI, t.src), Fin(p, t.cellJ, t.src))])
  {
    UpdateOperands(p, s, t);
    if p.b.ldl {
      var d := DltKey(t.cellI, t.src, t.owner);
      UpdateUpstream(p.b, t);
      UpstreamDone(p.b, s.ctl, t, d);
      assert d in s.mem.bufs;
    }
  }

  // ---------------------------------------------------------------------------------------------
  // Every step keeps the data right
  // ---------------------------------------------------------------------------------------------

  lemma LogGrowth(s: State<Key>, t: Key, g: Graph<Key>)
    ensures AfterExecute(g, s, t).log == s.log + [t]
    ensures AfterExecute(g, s, t).Done() == s.Done() + {t}
    ensures AfterExecute(g, s, t).landed == s.landed
  {
    LogGrows(s, AfterExecute(g, s, t), t);
  }

  /** A task other than an update of the cell, or its final task, leaves the cell as it should be. */
  lemma OtherCell<V(!new)>(p: Problem<V>, s: DState<V>, s': DState<V>, t: Key, K: nat, J: nat)
    requires CellInv(p, s, K, J) && s'.ctl.log == s.ctl.log + [t]
    requires t != FinalKey(p.b, K, J) && forall I: nat :: t != UpdateKey(p.b, K, J, I)
    requires (K, J) in s'.mem.cells && s'.mem.cells[(K, J)] == s.mem.cells[(K, J)]
    ensures CellInv(p, s', K, J)
  {
    LogGrows(s.ctl, s'.ctl, t);
    AccDoneSame(p, K, J, J, s.ctl.Done(), t);
  }

  lemma ExecuteFinalCells<V(!new)>(p: Problem<V>, s: DState<V>, s': DState<V>, K: nat, J: nat)
    requires DataOk(p, s) && ValidCell(p.b, K, J)
    requires s'.ctl.log == s.ctl.log + [FinalKey(p.b, K, J)]
    requires s'.mem.cells == s.mem.cells[(K, J) := Fin(p, K, J)]
    ensures forall k: nat, j: nat :: ValidCell(p.b, k, j) ==> CellInv(p, s', k, j)
  {
    forall k: nat, j: nat | ValidCell(p.b, k, j)
      ensures CellInv(p, s', k, j)
    {
      if (k, j) != (K, J) {
        assert CellInv(p, s, k, j);
        OtherCell(p, s, s', FinalKey(p.b, K, J), k, j);
      }
    }
  }

  lemma ExecuteUpdateCells<V(!new)>(p: Problem<V>, s: DState<V>, s': DState<V>, t: Key)
    requires Commutes(p.alg) && DataOk(p, s) && t == UpdateKey(p.b, t.cellJ, t.cellI, t.src)
    requires ValidCell(p.b, t.cellJ, t.cellI) && 1 <= t.src < t.cellI
    requires t !in s.ctl.log && FinalKey(p.b, t.cellJ, t.cellI) !in s.ctl.log
    requires s'.ctl.log == s.ctl.log + [t]
    requires s'.mem.cells == s.mem.cells[CellOf(t) :=
               p.alg.update(Read(s.mem.cells, CellOf(t), p.alg.unset), Pivot(p, t.cellI, t.src), Fin(p, t.cellJ, t.src))]
    ensures forall k: nat, j: nat :: ValidCell(p.b, k, j) ==> CellInv(p, s', k, j)
  {
    forall k: nat, j: nat | ValidCell(p.b, k, j)
      ensures CellInv(p, s', k, j)
    {
      assert CellInv(p, s, k, j);
      if (k, j) == CellOf(t) {
        LogGrows(s.ctl, s'.ctl, t);
        AccDoneAdd(p, k, j, j, s.ctl.Done(), t.src);
      } else {
        OtherCell(p, s, s', t, k, j);
      }
    }
  }

  lemma ExecuteDltCells<V(!new)>(p: Problem<V>, s: DState<V>, s': DState<V>, t: Key)
    requires DataOk(p, s) && t.op.DLT2D_COMP? && s'.ctl.log == s.ctl.log + [t] && s'.mem.cells == s.mem.cells
    ensures forall k: nat, j: nat :: ValidCell(p.b, k, j) ==> CellInv(p, s', k, j)
  {
    forall k: nat, j: nat | ValidCell(p.b, k, j)
      ensures CellInv(p, s', k, j)
    {
      assert CellInv(p, s, k, j);
      OtherCell(p, s, s', t, k, j);
    }
  }

  lemma UpstreamInLog(g: Graph<Key>, log: seq<Key>, u: Key, t: Key)
    requires RespectsEdges(g, log) && (u, t) in g.edges && t in log
    ensures u in log
  {
    var j :| 0 <= j < |log| && log[j] == t;
    var e := (u, t);
    assert e in g.edges && log[j] == e.1;
    assert e.0 in log[..j];
  }

  /** Nothing writes a cell after its final task: an update still to run means the final task has not run. */
  lemma NoLateWrite(b: Blocks, s: State<Key>, t: Key)
    requires ValidBlocks(b) && FillClosed(b) && Inv(GraphOf(b), s) && t in s.ready && IsTask(b, t) && t.op.UPDATE2D_COMP?
    ensures t !in s.log && FinalKey(b, t.cellJ, t.cellI) !in s.log
    ensures ValidCell(b, t.cellJ, t.cellI)
  {
    ReadyPredsDone(GraphOf(b), s, t);
    AggregateEdge(b, t.src, t.cellI, t.cellJ);
    if FinalKey(b, t.cellJ, t.cellI) in s.log {
      UpstreamInLog(GraphOf(b), s.log, t, FinalKey(b, t.cellJ, t.cellI));
    }
  }

  lemma ExecuteCells<V(!new)>(p: Problem<V>, s: DState<V>, t: Key)
    requires Good(p, s) && t in s.ctl.ready
    ensures Known(GraphOf(p.b), Execute(t)) && t in s.ctl.inputMsg
    ensures forall k: nat, j: nat :: ValidCell(p.b, k, j) ==> CellInv(p, ApplyData(p, s, Execute(t)), k, j)
    ensures ApplyData(p, s, Execute(t)).mem.copies == s.mem.copies
    ensures ApplyData(p, s, Execute(t)).mem.bufs ==
            if t.op.DLT2D_COMP?
            then s.mem.bufs[t := p.alg.dlt(p.alg.diagOf(Fin(p, t.src, t.src)), Fin(p, t.cellI, t.src))]
            else s.mem.bufs
  {
    KnownTask(p.b, s.ctl, t);
    var s' := ApplyData(p, s, Execute(t));
    LogGrowth(s.ctl, t, GraphOf(p.b));
    match t.op
    case FACTOR =>
      FactorRuns(p, s, t.src);
      ExecuteFinalCells(p, s, s', t.src, t.src);
    case TRSM =>
      TrsmRuns(p, s, t.cellJ, t.src);
      ExecuteFinalCells(p, s, s', t.cellJ, t.src);
    case DLT2D_COMP =>
      DltRuns(p, s, t);
      ExecuteDltCells(p, s, s', t);
    case UPDATE2D_COMP =>
      UpdateRuns(p, s, t);
      NoLateWrite(p.b, s.ctl, t);
      UpdateUpstream(p.b, t);
      ExecuteUpdateCells(p, s, s', t);
  }

  lemma SameCopies<V(!new)>(p: Problem<V>, s: DState<V>, s': DState<V>)
    requires CopiesInv(p, s) && s'.ctl.landed == s.ctl.landed && s'.mem.copies == s.mem.copies
    ensures CopiesInv(p, s')
  {
  }

  lemma MoreBufs<V(!new)>(p: Problem<V>, s: DState<V>, s': DState<V>, t: Key)
    requires BufsInv(p, s) && s'.ctl.log == s.ctl.log + [t]
    requires s'.mem.bufs ==
             if t.op.DLT2D_COMP?
             then s.mem.bufs[t := p.alg.dlt(p.alg.diagOf(Fin(p, t.src, t.src)), Fin(p, t.cellI, t.src))]
             else s.mem.bufs
    ensures BufsInv(p, s')
  {
  }

  lemma ExecuteKeepsData<V(!new)>(p: Problem<V>, s: DState<V>, t: Key)
    requires Good(p, s) && t in s.ctl.ready
    ensures Known(GraphOf(p.b), Execute(t)) && DataOk(p, ApplyData(p, s, Execute(t)))
  {
    ExecuteCells(p, s, t);
    LogGrowth(s.ctl, t, GraphOf(p.b));
    var s' := ApplyData(p, s, Execute(t));
    SameCopies(p, s, s');
    MoreBufs(p, s, s', t);
  }

  lemma ObjSource(b: Blocks, o: Obj<Key>)
    requires ValidBlocks(b) && FillClosed(b) && o in Objs(GraphOf(b))
    ensures ValidCell(b, o.src.cellJ, o.src.cellI) && o.src == FinalKey(b, o.src.cellJ, o.src.cellI)
  {
    var e := ObjEdge(GraphOf(b), GraphOf(b).edges, o);
    EdgeShapes(b, e);
    GraphEdge(b, e);
  }

  /** The source of a get is a cell whose final task has run. */
  lemma GetSource<V(!new)>(p: Problem<V>, s: DState<V>, o: Obj<Key>)
    requires Good(p, s) && o in s.ctl.rgets
    ensures ValidCell(p.b, o.src.cellJ, o.src.cellI) && o.src == FinalKey(p.b, o.src.cellJ, o.src.cellI)
    ensures o.src in s.ctl.log && o in Objs(GraphOf(p.b))
  {
    assert o in Objs(GraphOf(p.b));
    ObjSource(p.b, o);
    ArrivedSource(GraphOf(p.b), s.ctl, o);
  }

  lemma ArrivedSource(g: Graph<Key>, s: State<Key>, o: Obj<Key>)
    requires FlightInv(g, s) && o in Objs(g) && o in s.rgets
    ensures o.src in s.log
  {
    var a := (o.src, o.rank);
    assert s.rgets[o] == 1;
    assert a in s.arrived;
    assert a.0 in s.log;
  }

  lemma OneMoreCopy<V(!new)>(p: Problem<V>, s: DState<V>, s': DState<V>, o: Obj<Key>)
    requires CopiesInv(p, s) && s'.ctl.landed == s.ctl.landed + {o} && s'.mem.copies == s.mem.copies[o := Published(p, o)]
    ensures CopiesInv(p, s')
  {
  }

  lemma AfterGet<V(!new)>(p: Problem<V>, s: DState<V>, o: Obj<Key>)
    requires Keyed(GraphOf(p.b), s.ctl) && o in Objs(GraphOf(p.b))
    requires Read(s.mem.cells, CellOf(o.src), p.alg.unset) == Fin(p, o.src.cellJ, o.src.cellI)
    ensures var s' := ApplyData(p, s, RgetDone(o));
            && s'.ctl.log == s.ctl.log && s'.ctl.landed == s.ctl.landed + {o}
            && s'.mem == s.mem.(copies := s.mem.copies[o := Published(p, o)])
  {
  }

  lemma SameBufs<V(!new)>(p: Problem<V>, s: DState<V>, s': DState<V>)
    requires BufsInv(p, s) && s'.ctl.log == s.ctl.log && s'.mem.bufs == s.mem.bufs
    ensures BufsInv(p, s')
  {
  }

  lemma GetKeepsData<V(!new)>(p: Problem<V>, s: DState<V>, o: Obj<Key>)
    requires Good(p, s) && o in s.ctl.rgets
    ensures Known(GraphOf(p.b), RgetDone(o)) && DataOk(p, ApplyData(p, s, RgetDone(o)))
  {
    GetSource(p, s, o);
    FinalCell(p, s, o.src.cellJ, o.src.cellI);
    AfterGet(p, s, o);
    var s' := ApplyData(p, s, RgetDone(o));
    OneMoreCopy(p, s, s', o);
    SameCells(p, s, s');
    SameBufs(p, s, s');
  }

  lemma SameCells<V(!new)>(p: Problem<V>, s: DState<V>, s': DState<V>)
    requires DataOk(p, s) && s'.ctl.log == s.ctl.log && s'.mem.cells == s.mem.cells
    ensures forall K: nat, J: nat :: ValidCell(p.b, K, J) ==> CellInv(p, s', K, J)
  {
    assert s'.ctl.Done() == s.ctl.Done();
    forall K: nat, J: nat | ValidCell(p.b, K, J)
      ensures CellInv(p, s', K, J)
    {
      assert CellInv(p, s, K, J);
    }
  }

  lemma QuietKeepsData<V(!new)>(p: Problem<V>, s: DState<V>, step: Step<Key>)
    requires DataOk(p, s) && !step.Execute? && !step.RgetDone?
    requires Keyed(GraphOf(p.b), s.ctl) && Known(GraphOf(p.b), step)
    ensures DataOk(p, ApplyData(p, s, step))
  {
    var s' := ApplyData(p, s, step);
    assert s'.mem == s.mem && s'.ctl.log == s.ctl.log && s'.ctl.landed == s.ctl.landed;
    SameCells(p, s, s');
  }

  lemma StepKeepsGood<V(!new)>(p: Problem<V>, s: DState<V>, step: Step<Key>)
    requires Good(p, s) && Enabled(GraphOf(p.b), s.ctl, step)
    ensures Known(GraphOf(p.b), step) && Good(p, ApplyData(p, s, step))
  {
    StepKeepsInv(GraphOf(p.b), s.ctl, step);
    match step
    case Execute(t) => ExecuteKeepsData(p, s, t);
    case RgetDone(o) => GetKeepsData(p, s, o);
    case _ => QuietKeepsData(p, s, step);
  }

  lemma StartGood<V(!new)>(p: Problem<V>, s: DState<V>)
    requires ValidBlocks(p.b) && FillClosed(p.b) && Commutes(p.alg) && StartData(p, s)
    ensures Good(p, s)
  {
    GraphWellFormed(p.b);
    CountersBalanced(p.b);
    InitInv(GraphOf(p.b), LocalCounts(p.b), RemoteCounts(p.b));
    assert s.ctl.Done() == {};
    forall K: nat, J: nat | ValidCell(p.b, K, J)
      ensures CellInv(p, s, K, J)
    {
      AccDoneNone(p, K, J, J);
    }
  }

  lemma {:induction false} RunKeepsGood<V(!new)>(p: Problem<V>, s: DState<V>, steps: seq<Step<Key>>, s': DState<V>)
    requires Good(p, s) && RunData(p, s, steps, s')
    ensures Good(p, s')
    ensures Run(GraphOf(p.b), s.ctl, steps, s'.ctl)
    decreases |steps|
  {
    if steps != [] {
      StepKeepsGood(p, s, steps[0]);
      RunKeepsGood(p, ApplyData(p, s, steps[0]), steps[1..], s');
    }
  }

  lemma FinishedCells<V(!new)>(p: Problem<V>, s: DState<V>)
    requires DataOk(p, s)
    ensures forall K: nat, J: nat :: ValidCell(p.b, K, J) && FinalKey(p.b, K, J) in s.ctl.log ==>
              (K, J) in s.mem.cells && s.mem.cells[(K, J)] == Fin(p, K, J)
  {
    forall K: nat, J: nat | ValidCell(p.b, K, J) && FinalKey(p.b, K, J) in s.ctl.log
      ensures (K, J) in s.mem.cells && s.mem.cells[(K, J)] == Fin(p, K, J)
    {
      assert CellInv(p, s, K, J);
    }
  }

  lemma ReadyCells<V(!new)>(p: Problem<V>, s: DState<V>)
    requires Good(p, s)
    ensures forall K: nat, J: nat :: ValidCell(p.b, K, J) && FinalKey(p.b, K, J) in s.ctl.ready ==>
              (K, J) in s.mem.cells && s.mem.cells[(K, J)] == Acc(p, K, J, J)
  {
    forall K: nat, J: nat | ValidCell(p.b, K, J) && FinalKey(p.b, K, J) in s.ctl.ready
      ensures (K, J) in s.mem.cells && s.mem.cells[(K, J)] == Acc(p, K, J, J)
    {
      FinalTaskReadsAcc(p, s, K, J);
    }
  }

  lemma CompleteCells<V(!new)>(p: Problem<V>, s: DState<V>)
    requires ValidBlocks(p.b) && DataOk(p, s) && forall t :: t in s.ctl.log <==> IsTask(p.b, t)
    ensures forall K: nat, J: nat :: ValidCell(p.b, K, J) ==> (K, J) in s.mem.cells && s.mem.cells[(K, J)] == Fin(p, K, J)
  {
    FinishedCells(p, s);
    forall K: nat, J: nat | ValidCell(p.b, K, J)
      ensures FinalKey(p.b, K, J) in s.ctl.log
    {
      assert IsTask(p.b, FinalKey(p.b, K, J));
    }
  }

  /** Schedule independence.  In every run, for every message arrival order and every assignment of the
      messages of an update to its operands, a cell whose final task has run holds the value of the
      reference factor, and FACTOR(J) or TRSM(K,J) reads the matrix cell minus all its updates.  A run
      that cannot go on has computed the whole reference factor. */
  lemma ScheduleIndependence<V(!new)>(p: Problem<V>, s0: DState<V>, steps: seq<Step<Key>>, s: DState<V>)
    requires ValidBlocks(p.b) && FillClosed(p.b) && Commutes(p.alg)
    requires StartData(p, s0) && RunData(p, s0, steps, s)
    ensures forall K: nat, J: nat :: ValidCell(p.b, K, J) && FinalKey(p.b, K, J) in s.ctl.log ==>
              (K, J) in s.mem.cells && s.mem.cells[(K, J)] == Fin(p, K, J)
    ensures forall K: nat, J: nat :: ValidCell(p.b, K, J) && FinalKey(p.b, K, J) in s.ctl.ready ==>
              (K, J) in s.mem.cells && s.mem.cells[(K, J)] == Acc(p, K, J, J)
    ensures Stuck(GraphOf(p.b), s.ctl) ==>
              forall K: nat, J: nat :: ValidCell(p.b, K, J) ==> (K, J) in s.mem.cells && s.mem.cells[(K, J)] == Fin(p, K, J)
  {
    StartGood(p, s0);
    RunKeepsGood(p, s0, steps, s);
    FinishedCells(p, s);
    ReadyCells(p, s);
    if Stuck(GraphOf(p.b), s.ctl) {
      EveryFactorizationRun(p.b, steps, s.ctl);
      CompleteCells(p, s);
    }
  }

  /** Two complete runs, under whatever schedules, end with the same factor. */
  lemma SchedulesAgree<V(!new)>(p: Problem<V>, s0: DState<V>, steps: seq<Step<Key>>, s: DState<V>,
                                steps': seq<Step<Key>>, s': DState<V>)
    requires ValidBlocks(p.b) && FillClosed(p.b) && Commutes(p.alg) && StartData(p, s0)
    requires RunData(p, s0, steps, s) && Stuck(GraphOf(p.b), s.ctl)
    requires RunData(p, s0, steps', s') && Stuck(GraphOf(p.b), s'.ctl)
    ensures forall K: nat, J: nat :: ValidCell(p.b, K, J) ==>
              (K, J) in s.mem.cells && (K, J) in s'.mem.cells && s.mem.cells[(K, J)] == s'.mem.cells[(K, J)]
    ensures |steps| == |steps'|
  {
    ScheduleIndependence(p, s0, steps, s);
    ScheduleIndependence(p, s0, steps', s');
    StartGood(p, s0);
    RunKeepsGood(p, s0, steps, s);
    RunKeepsGood(p, s0, steps', s');
    EveryFactorizationRun(p.b, steps, s.ctl);
    EveryFactorizationRun(p.b, steps', s'.ctl);
  }
}
