/** What the tasks of the triangular solves compute: on any distribution and in every run, coalesced messages and
    reused buffers included, the diagonal slots end with the result of forward and backward substitution.

    The blocks of the right-hand side are values of any type with an addition; a term is what a cell contributes
    to a block, already with its sign. */
module SolveValues {
  import opened TaskGraph
  import S = SolveProtocol
  import opened SolveGraph

  datatype Algebra<!V> = Algebra(
    add: (V, V) -> V,
    zero: V,
    solve: (nat, V) -> V,          // with the diagonal block of a supernode
    lterm: (nat, nat, V) -> V,     // -L(J,I) y
    scale: (nat, V) -> V,          // division by D in the LDL case, nothing otherwise
    xterm: (nat, nat, V) -> V,     // -L(J,I)' x
    backSolve: (nat, V) -> V)      // with the transposed diagonal block

  datatype Problem<!V> = Problem(b: Blocks, alg: Algebra<V>, rhs: nat -> V)

  /** The laws of addition, entry by entry. */
  ghost predicate CommAt<V>(alg: Algebra<V>, x: V, y: V) { alg.add(x, y) == alg.add(y, x) }
  ghost predicate AssocAt<V>(alg: Algebra<V>, x: V, y: V, z: V) { alg.add(alg.add(x, y), z) == alg.add(x, alg.add(y, z)) }
  ghost predicate ZeroAt<V>(alg: Algebra<V>, x: V) { alg.add(x, alg.zero) == x }

  ghost predicate Monoid<V(!new)>(alg: Algebra<V>) {
    && (forall x, y :: CommAt(alg, x, y))
    && (forall x, y, z :: AssocAt(alg, x, y, z))
    && (forall x :: ZeroAt(alg, x))
  }

  lemma Comm<V(!new)>(alg: Algebra<V>, x: V, y: V)
    requires Monoid(alg)
    ensures alg.add(x, y) == alg.add(y, x)
  {
    assert CommAt(alg, x, y);
  }

  lemma Assoc<V(!new)>(alg: Algebra<V>, x: V, y: V, z: V)
    requires Monoid(alg)
    ensures alg.add(alg.add(x, y), z) == alg.add(x, alg.add(y, z))
  {
    assert AssocAt(alg, x, y, z);
  }

  lemma Zero<V(!new)>(alg: Algebra<V>, x: V)
    requires Monoid(alg)
    ensures alg.add(x, alg.zero) == x && alg.add(alg.zero, x) == x
  {
    assert ZeroAt(alg, x);
    Comm(alg, x, alg.zero);
  }

  // ---------------------------------------------------------------------------------------------
  // Sums
  // ---------------------------------------------------------------------------------------------

  ghost function Total<K(!new), V>(alg: Algebra<V>, keys: set<K>, m: map<K, V>): V
    requires keys <= m.Keys
  {
    if keys == {} then alg.zero else var x :| x in keys; alg.add(m[x], Total(alg, keys - {x}, m))
  }

  lemma AddSwap<V(!new)>(alg: Algebra<V>, x: V, y: V, z: V)
    requires Monoid(alg)
    ensures alg.add(x, alg.add(y, z)) == alg.add(y, alg.add(x, z))
  {
    Assoc(alg, x, y, z);
    Comm(alg, x, y);
    Assoc(alg, y, x, z);
  }

  lemma {:induction false} TotalRemove<K(!new), V(!new)>(alg: Algebra<V>, keys: set<K>, m: map<K, V>, t: K)
    requires Monoid(alg) && keys <= m.Keys && t in keys
    ensures Total(alg, keys, m) == alg.add(m[t], Total(alg, keys - {t}, m))
  {
    var x :| x in keys && Total(alg, keys, m) == alg.add(m[x], Total(alg, keys - {x}, m));
    if x != t {
      TotalRemove(alg, keys - {x}, m, t);
      TotalRemove(alg, keys - {t}, m, x);
      assert keys - {x} - {t} == keys - {t} - {x};
      AddSwap(alg, m[x], m[t], Total(alg, keys - {x} - {t}, m));
    }
  }

  lemma TotalMore<K(!new), V(!new)>(alg: Algebra<V>, keys: set<K>, m: map<K, V>, t: K)
    requires Monoid(alg) && keys <= m.Keys && t in m && t !in keys
    ensures Total(alg, keys + {t}, m) == alg.add(Total(alg, keys, m), m[t])
  {
    TotalRemove(alg, keys + {t}, m, t);
    assert keys + {t} - {t} == keys;
    Comm(alg, m[t], Total(alg, keys, m));
  }

  lemma {:induction false} TotalDisjoint<K(!new), V(!new)>(alg: Algebra<V>, a: set<K>, b: set<K>, m: map<K, V>)
    requires Monoid(alg) && a <= m.Keys && b <= m.Keys && a !! b
    ensures Total(alg, a + b, m) == alg.add(Total(alg, a, m), Total(alg, b, m))
    decreases b
  {
    if b == {} {
      assert a + b == a;
      Zero(alg, Total(alg, a, m));
    } else {
      var x :| x in b;
      assert a + b == a + (b - {x}) + {x};
      TotalDisjoint(alg, a, b - {x}, m);
      TotalMore(alg, a + (b - {x}), m, x);
      assert b == b - {x} + {x};
      TotalMore(alg, b - {x}, m, x);
      Assoc(alg, Total(alg, a, m), Total(alg, b - {x}, m), m[x]);
    }
  }

  ghost function Union(ms: set<Message>, parts: Message -> set<nat>): set<nat> { set m, i | m in ms && i in parts(m) :: i }

  /** The totals of the messages add up to the total of what they stand for. */
  lemma {:induction false} TotalParts<V(!new)>(alg: Algebra<V>, ms: set<Message>, copies: map<Message, V>, parts: Message -> set<nat>, terms: map<nat, V>)
    requires Monoid(alg) && ms <= copies.Keys
    requires forall m :: m in ms ==> parts(m) <= terms.Keys && copies[m] == Total(alg, parts(m), terms)
    requires forall m, k :: m in ms && k in ms && m != k ==> parts(m) !! parts(k)
    ensures Union(ms, parts) <= terms.Keys && Total(alg, ms, copies) == Total(alg, Union(ms, parts), terms)
    decreases ms
  {
    if ms == {} {
      assert Union(ms, parts) == {};
    } else {
      var x :| x in ms;
      TotalParts(alg, ms - {x}, copies, parts, terms);
      TotalRemove(alg, ms, copies, x);
      UnionSplit(ms, parts, x);
      TotalDisjoint(alg, parts(x), Union(ms - {x}, parts), terms);
    }
  }

  lemma UnionSplit(ms: set<Message>, parts: Message -> set<nat>, x: Message)
    requires x in ms && forall m, k :: m in ms && k in ms && m != k ==> parts(m) !! parts(k)
    ensures Union(ms, parts) == parts(x) + Union(ms - {x}, parts) && parts(x) !! Union(ms - {x}, parts)
  {
  }

  // ---------------------------------------------------------------------------------------------
  // The reference: substitution, supernode by supernode
  // ---------------------------------------------------------------------------------------------

  /** The columns to the left that have a cell in row J, and the rows below in column I. */
  ghost function LeftOf(b: Blocks, J: nat): set<nat> { set I | 1 <= I < J && J in b.anc(I) }

  ghost function Below(b: Blocks, I: nat): set<nat> { set J | I < J <= b.n && J in b.anc(I) }

  ghost function Y<V>(p: Problem<V>, J: nat): V
    decreases J, 1
  {
    p.alg.solve(J, p.alg.add(p.rhs(J), Total(p.alg, LeftOf(p.b, J), YTerms(p, J))))
  }

  ghost function YTerms<V>(p: Problem<V>, J: nat): (m: map<nat, V>)
    ensures m.Keys == LeftOf(p.b, J)
    decreases J, 0
  {
    map I | I in LeftOf(p.b, J) :: p.alg.lterm(J, I, Y(p, I))
  }

  ghost function X<V>(p: Problem<V>, I: nat): V
    decreases p.b.n - I, 1
  {
    p.alg.backSolve(I, p.alg.add(p.alg.scale(I, Y(p, I)), Total(p.alg, Below(p.b, I), XTerms(p, I))))
  }

  ghost function XTerms<V>(p: Problem<V>, I: nat): (m: map<nat, V>)
    ensures m.Keys == Below(p.b, I)
    decreases p.b.n - I, 0
  {
    map J | J in Below(p.b, I) :: p.alg.xterm(J, I, X(p, J))
  }

  // ---------------------------------------------------------------------------------------------
  // The task bodies
  // ---------------------------------------------------------------------------------------------

  datatype DState<!V> = DState(ctl: S.State<Task, Message, Slot>, bufs: map<Slot, V>, copies: map<Message, V>, scaled: set<nat>)

  function Get<K(==), V>(m: map<K, V>, k: K, zero: V): V { if k in m then m[k] else zero }

  /** The contributions of other ranks are added one message after the other. */
  ghost function AddAll<V>(alg: Algebra<V>, base: V, ms: set<Message>, copies: map<Message, V>): V
    decreases ms
  {
    if ms == {} then base else var m :| m in ms; AddAll(alg, alg.add(base, Get(copies, m, alg.zero)), ms - {m}, copies)
  }

  function SlotFor(b: Blocks, t: Task): Slot { Slot(RankOf(b, t), if t.Fuc? then t.J else t.I) }

  /** The block that an off-diagonal task multiplies with: in the slot of its own rank, or fetched. */
  ghost function Input<V>(p: Problem<V>, s: DState<V>, t: Task, diag: Task): V {
    if RankOf(p.b, diag) == RankOf(p.b, t) then Get(s.bufs, SlotFor(p.b, diag), p.alg.zero)
    else Get(s.copies, Single(diag, RankOf(p.b, t)), p.alg.zero)
  }

  ghost function Inbox(b: Blocks, t: Task): set<Message> { S.MsgsTo(NetOf(b), t) }

  ghost function Scaled<V>(p: Problem<V>, s: DState<V>, I: nat): V {
    var v := Get(s.bufs, Slot(p.b.own(I, I), I), p.alg.zero);
    if I in s.scaled then v else p.alg.scale(I, v)
  }

  /** The new content of the slot of a task. */
  ghost function Result<V>(p: Problem<V>, s: DState<V>, t: Task): V
    requires S.Keyed(NetOf(p.b), s.ctl)
  {
    var slot := SlotFor(p.b, t);
    match t
    case Fuc(J, I) =>
      if J == I then
        var base := if slot in s.bufs then p.alg.add(s.bufs[slot], p.rhs(J)) else p.rhs(J);
        p.alg.solve(J, AddAll(p.alg, base, Inbox(p.b, t), s.copies))
      else p.alg.add(Get(s.bufs, slot, p.alg.zero), p.alg.lterm(J, I, Input(p, s, t, Fuc(I, I))))
    case Buc(J, I) =>
      if J == I then p.alg.backSolve(I, AddAll(p.alg, Scaled(p, s, I), Inbox(p.b, t), s.copies))
      else
        var group := Group(RankOf(p.b, t), Buc(I, I));
        var base := if p.b.own(I, I) == RankOf(p.b, t) then Scaled(p, s, I)
                    else if group in s.ctl.count && s.ctl.count[group] == 0 then p.alg.zero
                    else Get(s.bufs, slot, p.alg.zero);
        p.alg.add(base, p.alg.xterm(J, I, Input(p, s, t, Buc(J, J))))
  }

  /** The data after a step that leads to ctl; a buffer is freed when its counter has come down to zero. */
  ghost function NextData<V>(p: Problem<V>, s: DState<V>, ctl: S.State<Task, Message, Slot>, step: S.Step<Task, Message>): DState<V>
    requires S.Keyed(NetOf(p.b), s.ctl)
  {
    match step
    case Execute(t) =>
      s.(ctl := ctl, bufs := s.bufs[SlotFor(p.b, t) := Result(p, s, t)],
         scaled := if t.Buc? && RankOf(p.b, t) == p.b.own(t.I, t.I) then s.scaled + {t.I} else s.scaled)
    case Land(m) => s.(ctl := ctl, copies := s.copies[m := Get(s.bufs, SlotOf(p.b, m), p.alg.zero)])
    case Dealloc(m) =>
      var slot := SlotOf(p.b, m);
      s.(ctl := ctl, bufs := if slot in ctl.outstanding && ctl.outstanding[slot] == 0 then s.bufs - {slot} else s.bufs)
    case _ => s.(ctl := ctl)
  }

  ghost function ApplyData<V>(p: Problem<V>, s: DState<V>, step: S.Step<Task, Message>): DState<V>
    requires S.WellFormed(NetOf(p.b)) && S.Keyed(NetOf(p.b), s.ctl) && S.Enabled(NetOf(p.b), s.ctl, step)
  {
    NextData(p, s, S.Apply(NetOf(p.b), s.ctl, step), step)
  }

  // ---------------------------------------------------------------------------------------------
  // What slots and copies hold
  // ---------------------------------------------------------------------------------------------

  datatype Option<+A> = None | Some(value: A)

  function Lookup<V>(bufs: map<Slot, V>, slot: Slot): Option<V> { if slot in bufs then Some(bufs[slot]) else None }

  /** The contributions to slot (r, J) that have been made forward and backward. */
  ghost function Forward(b: Blocks, done: set<Task>, r: nat, J: nat): set<nat> {
    set I | I in LeftOf(b, J) && Fuc(J, I) in done && b.own(J, I) == r
  }

  ghost function Backward(b: Blocks, done: set<Task>, r: nat, I: nat): set<nat> {
    set J | J in Below(b, I) && Buc(J, I) in done && b.own(J, I) == r
  }

  ghost function PartL(b: Blocks, J: nat, r: nat): set<nat> { set I | I in LeftOf(b, J) && b.own(J, I) == r }
  ghost function PartB(b: Blocks, I: nat, r: nat): set<nat> { set J | J in Below(b, I) && b.own(J, I) == r }

  ghost function Has<V>(p: Problem<V>, done: set<Task>, slot: Slot): Option<V> {
    var X0 := slot.snode;
    var f, k := Forward(p.b, done, slot.rank, X0), Backward(p.b, done, slot.rank, X0);
    if slot.rank == p.b.own(X0, X0) then
      if Buc(X0, X0) in done then Some(X(p, X0))
      else if k != {} then Some(p.alg.add(p.alg.scale(X0, Y(p, X0)), Total(p.alg, k, XTerms(p, X0))))
      else if Fuc(X0, X0) in done then Some(Y(p, X0))
      else if f != {} then Some(Total(p.alg, f, YTerms(p, X0)))
      else None
    else if k != {} then Some(Total(p.alg, k, XTerms(p, X0)))
    else if f != {} then Some(Total(p.alg, f, YTerms(p, X0)))
    else None
  }

  /** A slot of another rank than that of the diagonal matters until its message has been fetched. */
  ghost predicate Needed(b: Blocks, done: set<Task>, landed: set<Message>, slot: Slot) {
    var X0 := slot.snode;
    || slot.rank == b.own(X0, X0)
    || (if Backward(b, done, slot.rank, X0) != {} then Group(slot.rank, Buc(X0, X0)) !in landed
        else Forward(b, done, slot.rank, X0) != {} ==> Group(slot.rank, Fuc(X0, X0)) !in landed)
  }

  /** What a message carries. */
  ghost function Sent<V>(p: Problem<V>, m: Message): V {
    match m
    case Single(s, _) => if s.Fuc? then Y(p, s.J) else X(p, s.J)
    case Group(r, t) =>
      if t.Fuc? then Total(p.alg, PartL(p.b, t.J, r), YTerms(p, t.J)) else Total(p.alg, PartB(p.b, t.I, r), XTerms(p, t.I))
  }

  ghost predicate SlotsOk<V>(p: Problem<V>, s: DState<V>) {
    forall slot: Slot {:trigger Has(p, s.ctl.Done(), slot)} :: 1 <= slot.snode <= p.b.n && Needed(p.b, s.ctl.Done(), s.ctl.landed, slot) ==>
      Lookup(s.bufs, slot) == Has(p, s.ctl.Done(), slot)
  }

  ghost predicate CopiesOk<V>(p: Problem<V>, s: DState<V>) {
    forall m <- s.ctl.landed :: m in s.copies && s.copies[m] == Sent(p, m)
  }

  ghost predicate ScaledOk<V>(p: Problem<V>, s: DState<V>) {
    forall I: nat :: 1 <= I <= p.b.n ==>
      (I in s.scaled <==> Buc(I, I) in s.ctl.Done() || Backward(p.b, s.ctl.Done(), p.b.own(I, I), I) != {})
  }

  ghost predicate Good<V(!new)>(p: Problem<V>, s: DState<V>) {
    && ValidBlocks(p.b) && FillClosed(p.b) && Monoid(p.alg) && S.WellFormed(NetOf(p.b)) && S.Inv(NetOf(p.b), s.ctl)
    && SlotsOk(p, s) && CopiesOk(p, s) && ScaledOk(p, s)
  }

  // ---------------------------------------------------------------------------------------------
  // What a ready task can rely on
  // ---------------------------------------------------------------------------------------------

  ghost predicate Ready(b: Blocks, ctl: S.State<Task, Message, Slot>, t: Task) {
    && S.WellFormed(NetOf(b)) && S.Inv(NetOf(b), ctl) && t in TasksOf(b)
    && ctl.inCounter[t] == 0 && t !in ctl.log
  }

  lemma ReadyTask(b: Blocks, ctl: S.State<Task, Message, Slot>, t: Task)
    requires Ready(b, ctl, t)
    ensures forall u :: u in TasksOf(b) && Edge(b, u, t) ==> u in ctl.Done()
    ensures forall m <- Inbox(b, t) :: m in ctl.landed
  {
    assert S.CounterInv(NetOf(b), ctl, t);
    S.CounterZero(NetOf(b), ctl, t);
    forall u | u in TasksOf(b) && Edge(b, u, t)
      ensures u in ctl.Done()
    {
      assert u in PredsOf(b, t);
      NetPreds(b, t, u);
      S.ReadyPreds(NetOf(b), ctl, t, u);
    }
  }

  lemma RunBefore(log: seq<Task>, u: Task, t: Task)
    requires Before(log, u, t)
    ensures t in log ==> u in log
  {
    if t in log {
      var j :| 0 <= j < |log| && log[j] == t;
      assert u in log[..j];
    }
  }

  lemma RunPred(b: Blocks, log: seq<Task>, u: Task, t: Task)
    requires S.PredsFirst(NetOf(b), log) && t in TasksOf(b) && u in TasksOf(b) && Edge(b, u, t)
    ensures t in log ==> u in log
  {
    EdgeBefore(b, log, u, t);
    RunBefore(log, u, t);
  }

  lemma RunForward(b: Blocks, log: seq<Task>, I: nat, K: nat, J: nat)
    requires ValidBlocks(b) && FillClosed(b) && S.PredsFirst(NetOf(b), log) && IsCell(b, K, I) && IsCell(b, J, I)
    ensures Buc(J, I) in log ==> Fuc(K, I) in log
  {
    ColumnForwardFirst(b, log, I, K, J);
    RunBefore(log, Fuc(K, I), Buc(J, I));
  }

  /** As long as a forward task of a column has not run no backward task of the column has. */
  lemma NoBackwardYet(b: Blocks, log: seq<Task>, done: set<Task>, K: nat, I: nat)
    requires ValidBlocks(b) && FillClosed(b) && S.PredsFirst(NetOf(b), log) && IsCell(b, K, I)
    requires (forall t :: t in done <==> t in log) && Fuc(K, I) !in done
    ensures Buc(I, I) !in done && forall r: nat :: Backward(b, done, r, I) == {}
  {
    RunForward(b, log, I, K, I);
    forall J | J in Below(b, I)
      ensures Buc(J, I) !in done
    {
      RunForward(b, log, I, K, J);
    }
    assert forall r: nat :: Backward(b, done, r, I) == {};
  }

  lemma LandedSource(b: Blocks, ctl: S.State<Task, Message, Slot>, m: Message, t: Task)
    requires S.Keyed(NetOf(b), ctl) && S.Messages(NetOf(b), ctl) && ctl.landed <= MessagesOf(b) && t in SourcesOf(b, m)
    ensures m in ctl.landed ==> t in ctl.Done()
  {
    if m in ctl.landed {
      assert S.MessageInv(NetOf(b), ctl, m);
    }
  }

  lemma OffIsSource(b: Blocks, t: Task)
    requires ValidBlocks(b) && t in TasksOf(b) && !Diagonal(t)
    ensures t in SourcesOf(b, Group(RankOf(b, t), if t.Fuc? then Fuc(t.J, t.J) else Buc(t.I, t.I)))
  {
    SolveGraph.TaskMembers(b, t);
    ColumnTasks(b, t.I, t.J);
  }

  lemma SlotIs<V(!new)>(p: Problem<V>, s: DState<V>, slot: Slot)
    requires SlotsOk(p, s) && 1 <= slot.snode <= p.b.n && Needed(p.b, s.ctl.Done(), s.ctl.landed, slot)
    ensures Lookup(s.bufs, slot) == Has(p, s.ctl.Done(), slot)
  {
  }

  lemma OwnY<V(!new)>(p: Problem<V>, s: DState<V>, I: nat)
    requires SlotsOk(p, s) && 1 <= I <= p.b.n && Fuc(I, I) in s.ctl.Done() && Buc(I, I) !in s.ctl.Done()
    requires Backward(p.b, s.ctl.Done(), p.b.own(I, I), I) == {}
    ensures Get(s.bufs, Slot(p.b.own(I, I), I), p.alg.zero) == Y(p, I)
  {
    SlotIs(p, s, Slot(p.b.own(I, I), I));
  }

  lemma OwnX<V(!new)>(p: Problem<V>, s: DState<V>, I: nat)
    requires SlotsOk(p, s) && 1 <= I <= p.b.n && Buc(I, I) in s.ctl.Done()
    ensures Get(s.bufs, Slot(p.b.own(I, I), I), p.alg.zero) == X(p, I)
  {
    SlotIs(p, s, Slot(p.b.own(I, I), I));
  }

  lemma CopyIs<V(!new)>(p: Problem<V>, s: DState<V>, m: Message)
    requires CopiesOk(p, s) && m in s.ctl.landed
    ensures Get(s.copies, m, p.alg.zero) == Sent(p, m)
  {
  }

  /** The diagonal task is upstream: in the slot of the rank, or among the messages. */
  lemma DiagInbox(b: Blocks, ctl: S.State<Task, Message, Slot>, t: Task, diag: Task)
    requires Ready(b, ctl, t) && diag in TasksOf(b) && Edge(b, diag, t) && Diagonal(diag)
    ensures diag in ctl.Done()
    ensures RankOf(b, diag) != RankOf(b, t) ==> Single(diag, RankOf(b, t)) in ctl.landed
  {
    ReadyTask(b, ctl, t);
    assert diag in PredsOf(b, t);
    if RankOf(b, diag) != RankOf(b, t) {
      RemoteIsPred(b, t, diag);
    }
  }

  // ---------------------------------------------------------------------------------------------
  // The off-diagonal tasks
  // ---------------------------------------------------------------------------------------------

  ghost predicate Base<V(!new)>(p: Problem<V>, s: DState<V>) {
    ValidBlocks(p.b) && FillClosed(p.b) && Monoid(p.alg) && S.PredsFirst(NetOf(p.b), s.ctl.log) && SlotsOk(p, s) && CopiesOk(p, s) && ScaledOk(p, s)
  }

  lemma GoodBase<V(!new)>(p: Problem<V>, s: DState<V>)
    requires Good(p, s)
    ensures Base(p, s) && S.Keyed(NetOf(p.b), s.ctl) && S.Messages(NetOf(p.b), s.ctl) && s.ctl.landed <= MessagesOf(p.b)
  {
  }

  lemma InputY<V(!new)>(p: Problem<V>, s: DState<V>, J: nat, I: nat)
    requires Base(p, s) && IsCell(p.b, J, I) && J != I && Fuc(J, I) !in s.ctl.log && Fuc(I, I) in s.ctl.Done()
    requires p.b.own(I, I) != p.b.own(J, I) ==> Single(Fuc(I, I), p.b.own(J, I)) in s.ctl.landed
    ensures Input(p, s, Fuc(J, I), Fuc(I, I)) == Y(p, I)
  {
    NoBackwardYet(p.b, s.ctl.log, s.ctl.Done(), J, I);
    if p.b.own(I, I) == p.b.own(J, I) {
      OwnY(p, s, I);
    } else {
      CopyIs(p, s, Single(Fuc(I, I), p.b.own(J, I)));
    }
  }

  lemma InputX<V(!new)>(p: Problem<V>, s: DState<V>, J: nat, I: nat)
    requires Base(p, s) && 1 <= J <= p.b.n && J != I && Buc(J, J) in s.ctl.Done()
    requires p.b.own(J, J) != p.b.own(J, I) ==> Single(Buc(J, J), p.b.own(J, I)) in s.ctl.landed
    ensures Input(p, s, Buc(J, I), Buc(J, J)) == X(p, J)
  {
    if p.b.own(J, J) == p.b.own(J, I) {
      OwnX(p, s, J);
    } else {
      CopyIs(p, s, Single(Buc(J, J), p.b.own(J, I)));
    }
  }

  /** Before the diagonal task the slot of any rank holds the contributions made there. */
  lemma ForwardSlot<V(!new)>(p: Problem<V>, s: DState<V>, r: nat, J: nat)
    requires Base(p, s) && 1 <= J <= p.b.n && Fuc(J, J) !in s.ctl.Done() && Group(r, Fuc(J, J)) !in s.ctl.landed
    ensures Backward(p.b, s.ctl.Done(), r, J) == {} && Buc(J, J) !in s.ctl.Done()
    ensures Lookup(s.bufs, Slot(r, J)) == if Forward(p.b, s.ctl.Done(), r, J) == {} then None
                                          else Some(Total(p.alg, Forward(p.b, s.ctl.Done(), r, J), YTerms(p, J)))
  {
    NoBackwardYet(p.b, s.ctl.log, s.ctl.Done(), J, J);
    SlotIs(p, s, Slot(r, J));
  }

  lemma ForwardMore(b: Blocks, done: set<Task>, J: nat, I: nat)
    requires I in LeftOf(b, J) && Fuc(J, I) !in done
    ensures I !in Forward(b, done, b.own(J, I), J)
    ensures Forward(b, done + {Fuc(J, I)}, b.own(J, I), J) == Forward(b, done, b.own(J, I), J) + {I}
    ensures Backward(b, done + {Fuc(J, I)}, b.own(J, I), J) == Backward(b, done, b.own(J, I), J)
  {
  }

  lemma ForwardValue<V(!new)>(p: Problem<V>, s: DState<V>, J: nat, I: nat)
    requires Base(p, s) && S.Keyed(NetOf(p.b), s.ctl) && I in LeftOf(p.b, J) && 1 <= J <= p.b.n && Fuc(J, I) !in s.ctl.Done()
    requires Fuc(J, J) !in s.ctl.Done() && Group(p.b.own(J, I), Fuc(J, J)) !in s.ctl.landed
    requires Input(p, s, Fuc(J, I), Fuc(I, I)) == Y(p, I)
    ensures Has(p, s.ctl.Done() + {Fuc(J, I)}, Slot(p.b.own(J, I), J)) == Some(Result(p, s, Fuc(J, I)))
  {
    var done, r := s.ctl.Done(), p.b.own(J, I);
    ForwardSlot(p, s, r, J);
    ForwardMore(p.b, done, J, I);
    TotalMore(p.alg, Forward(p.b, done, r, J), YTerms(p, J), I);
  }

  ghost predicate ForwardReady(b: Blocks, ctl: S.State<Task, Message, Slot>, J: nat, I: nat) {
    && IsCell(b, J, I) && I in LeftOf(b, J) && 1 <= I < J <= b.n && Fuc(J, I) !in ctl.Done() && Fuc(J, J) !in ctl.Done()
    && Fuc(I, I) in ctl.Done() && Group(b.own(J, I), Fuc(J, J)) !in ctl.landed
    && (b.own(I, I) != b.own(J, I) ==> Single(Fuc(I, I), b.own(J, I)) in ctl.landed)
  }

  lemma ForwardFacts(b: Blocks, ctl: S.State<Task, Message, Slot>, J: nat, I: nat)
    requires ValidBlocks(b) && Ready(b, ctl, Fuc(J, I)) && J != I
    ensures ForwardReady(b, ctl, J, I)
  {
    var t := Fuc(J, I);
    SolveGraph.TaskMembers(b, t);
    ColumnTasks(b, I, J);
    ColumnTasks(b, I, I);
    RunPred(b, ctl.log, t, Fuc(J, J));
    OffIsSource(b, t);
    LandedSource(b, ctl, Group(b.own(J, I), Fuc(J, J)), t);
    DiagInbox(b, ctl, t, Fuc(I, I));
  }

  lemma ForwardResult<V(!new)>(p: Problem<V>, s: DState<V>, J: nat, I: nat)
    requires Base(p, s) && S.Keyed(NetOf(p.b), s.ctl) && ForwardReady(p.b, s.ctl, J, I)
    ensures Has(p, s.ctl.Done() + {Fuc(J, I)}, Slot(p.b.own(J, I), J)) == Some(Result(p, s, Fuc(J, I)))
  {
    InputY(p, s, J, I);
    ForwardValue(p, s, J, I);
  }

  /** The slot of the diagonal rank, scaled: the scaled solution and the contributions made there. */
  lemma ScaledIs<V(!new)>(p: Problem<V>, s: DState<V>, I: nat)
    requires Base(p, s) && 1 <= I <= p.b.n && Fuc(I, I) in s.ctl.Done() && Buc(I, I) !in s.ctl.Done()
    ensures Scaled(p, s, I)
         == p.alg.add(p.alg.scale(I, Y(p, I)), Total(p.alg, Backward(p.b, s.ctl.Done(), p.b.own(I, I), I), XTerms(p, I)))
  {
    SlotIs(p, s, Slot(p.b.own(I, I), I));
    Zero(p.alg, p.alg.scale(I, Y(p, I)));
  }

  lemma BackwardSources(b: Blocks, done: set<Task>, r: nat, I: nat)
    requires ValidBlocks(b) && 1 <= I <= b.n
    ensures SourcesOf(b, Group(r, Buc(I, I))) * done == {} <==> Backward(b, done, r, I) == {}
  {
    forall K | K in Backward(b, done, r, I)
      ensures Buc(K, I) in SourcesOf(b, Group(r, Buc(I, I))) * done
    {
      SolveGraph.TaskMembers(b, Buc(K, I));
    }
    forall u | u in SourcesOf(b, Group(r, Buc(I, I))) * done
      ensures u.J in Backward(b, done, r, I)
    {
      SolveGraph.TaskMembers(b, u);
    }
  }

  /** The count of a coalesced backward message is zero as long as no task of the rank has run. */
  lemma CountIs(b: Blocks, ctl: S.State<Task, Message, Slot>, J: nat, I: nat)
    requires ValidBlocks(b) && S.Keyed(NetOf(b), ctl) && S.Messages(NetOf(b), ctl)
    requires IsCell(b, J, I) && J != I && b.own(I, I) != b.own(J, I)
    ensures var m := Group(b.own(J, I), Buc(I, I));
            m in ctl.count && (ctl.count[m] == 0 <==> Backward(b, ctl.Done(), b.own(J, I), I) == {})
  {
    var t, m := Buc(J, I), Group(b.own(J, I), Buc(I, I));
    ColumnTasks(b, I, J);
    ColumnTasks(b, I, I);
    assert Edge(b, t, Buc(I, I)) && m == MessageOf(b, t, Buc(I, I)) && m in MessagesOf(b);
    assert S.MessageInv(NetOf(b), ctl, m);
    BackwardSources(b, ctl.Done(), b.own(J, I), I);
  }

  lemma BackwardMore(b: Blocks, done: set<Task>, J: nat, I: nat)
    requires J in Below(b, I) && Buc(J, I) !in done
    ensures J !in Backward(b, done, b.own(J, I), I)
    ensures Backward(b, done + {Buc(J, I)}, b.own(J, I), I) == Backward(b, done, b.own(J, I), I) + {J}
  {
  }

  lemma OwnGrows<V(!new)>(p: Problem<V>, done: set<Task>, J: nat, I: nat)
    requires J in Below(p.b, I) && J != I && Buc(J, I) !in done && Buc(I, I) !in done && p.b.own(I, I) == p.b.own(J, I)
    ensures Backward(p.b, done, p.b.own(J, I), I) + {J} <= Below(p.b, I)
    ensures Has(p, done + {Buc(J, I)}, Slot(p.b.own(J, I), I))
         == Some(p.alg.add(p.alg.scale(I, Y(p, I)), Total(p.alg, Backward(p.b, done, p.b.own(J, I), I) + {J}, XTerms(p, I))))
  {
    BackwardMore(p.b, done, J, I);
  }

  lemma BackwardOwn<V(!new)>(p: Problem<V>, s: DState<V>, J: nat, I: nat)
    requires Base(p, s) && S.Keyed(NetOf(p.b), s.ctl) && 1 <= I && J in Below(p.b, I) && J != I && Buc(J, I) !in s.ctl.Done()
    requires Fuc(I, I) in s.ctl.Done() && Buc(I, I) !in s.ctl.Done() && Input(p, s, Buc(J, I), Buc(J, J)) == X(p, J)
    requires p.b.own(I, I) == p.b.own(J, I)
    ensures Has(p, s.ctl.Done() + {Buc(J, I)}, Slot(p.b.own(J, I), I)) == Some(Result(p, s, Buc(J, I)))
  {
    var k, y, x := Backward(p.b, s.ctl.Done(), p.b.own(J, I), I), p.alg.scale(I, Y(p, I)), p.alg.xterm(J, I, X(p, J));
    ScaledIs(p, s, I);
    assert Result(p, s, Buc(J, I)) == p.alg.add(Scaled(p, s, I), x);
    BackwardMore(p.b, s.ctl.Done(), J, I);
    Assoc(p.alg, y, Total(p.alg, k, XTerms(p, I)), x);
    TotalMore(p.alg, k, XTerms(p, I), J);
    OwnGrows(p, s.ctl.Done(), J, I);
  }

  lemma BackwardOther<V(!new)>(p: Problem<V>, s: DState<V>, J: nat, I: nat)
    requires Base(p, s) && S.Keyed(NetOf(p.b), s.ctl) && 1 <= I <= p.b.n && J in Below(p.b, I) && J != I && Buc(J, I) !in s.ctl.Done()
    requires Input(p, s, Buc(J, I), Buc(J, J)) == X(p, J) && p.b.own(I, I) != p.b.own(J, I)
    requires var m := Group(p.b.own(J, I), Buc(I, I));
             m !in s.ctl.landed && m in s.ctl.count
             && (s.ctl.count[m] == 0 <==> Backward(p.b, s.ctl.Done(), p.b.own(J, I), I) == {})
    ensures Has(p, s.ctl.Done() + {Buc(J, I)}, Slot(p.b.own(J, I), I)) == Some(Result(p, s, Buc(J, I)))
  {
    var done, r := s.ctl.Done(), p.b.own(J, I);
    var k := Backward(p.b, done, r, I);
    BackwardMore(p.b, done, J, I);
    TotalMore(p.alg, k, XTerms(p, I), J);
    if k != {} {
      SlotIs(p, s, Slot(r, I));
    }
  }

  lemma BackwardValue<V(!new)>(p: Problem<V>, s: DState<V>, J: nat, I: nat)
    requires Base(p, s) && S.Keyed(NetOf(p.b), s.ctl) && S.Messages(NetOf(p.b), s.ctl)
    requires IsCell(p.b, J, I) && J in Below(p.b, I) && 1 <= I < J <= p.b.n && Buc(J, I) !in s.ctl.Done() && Buc(I, I) !in s.ctl.Done()
    requires Fuc(I, I) in s.ctl.Done() && Group(p.b.own(J, I), Buc(I, I)) !in s.ctl.landed && Input(p, s, Buc(J, I), Buc(J, J)) == X(p, J)
    ensures Has(p, s.ctl.Done() + {Buc(J, I)}, Slot(p.b.own(J, I), I)) == Some(Result(p, s, Buc(J, I)))
  {
    if p.b.own(I, I) == p.b.own(J, I) {
      BackwardOwn(p, s, J, I);
    } else {
      CountIs(p.b, s.ctl, J, I);
      BackwardOther(p, s, J, I);
    }
  }

  ghost predicate BackwardReady(b: Blocks, ctl: S.State<Task, Message, Slot>, J: nat, I: nat) {
    && IsCell(b, J, I) && J in Below(b, I) && 1 <= I < J <= b.n && Buc(J, I) !in ctl.Done() && Buc(I, I) !in ctl.Done()
    && Buc(J, J) in ctl.Done() && Group(b.own(J, I), Buc(I, I)) !in ctl.landed
    && (b.own(J, J) != b.own(J, I) ==> Single(Buc(J, J), b.own(J, I)) in ctl.landed)
  }

  lemma BackwardFacts(b: Blocks, ctl: S.State<Task, Message, Slot>, J: nat, I: nat)
    requires ValidBlocks(b) && Ready(b, ctl, Buc(J, I)) && J != I
    ensures BackwardReady(b, ctl, J, I)
  {
    var t := Buc(J, I);
    SolveGraph.TaskMembers(b, t);
    ColumnTasks(b, I, J);
    ColumnTasks(b, I, I);
    RunPred(b, ctl.log, t, Buc(I, I));
    OffIsSource(b, t);
    LandedSource(b, ctl, Group(b.own(J, I), Buc(I, I)), t);
    DiagInbox(b, ctl, t, Buc(J, J));
  }

  lemma BackwardResult<V(!new)>(p: Problem<V>, s: DState<V>, J: nat, I: nat)
    requires Base(p, s) && S.Keyed(NetOf(p.b), s.ctl) && S.Messages(NetOf(p.b), s.ctl) && BackwardReady(p.b, s.ctl, J, I)
    ensures Has(p, s.ctl.Done() + {Buc(J, I)}, Slot(p.b.own(J, I), I)) == Some(Result(p, s, Buc(J, I)))
  {
    BackwardInput(p, s, J, I);
    BackwardValue(p, s, J, I);
  }

  lemma BackwardInput<V(!new)>(p: Problem<V>, s: DState<V>, J: nat, I: nat)
    requires Base(p, s) && IsCell(p.b, J, I) && J != I && J <= p.b.n && Buc(J, J) in s.ctl.Done()
    requires p.b.own(J, J) != p.b.own(J, I) ==> Single(Buc(J, J), p.b.own(J, I)) in s.ctl.landed
    ensures Fuc(I, I) in s.ctl.Done() && Input(p, s, Buc(J, I), Buc(J, J)) == X(p, J)
  {
    ColumnSolved(p.b, s.ctl.log, J, I);
    InputX(p, s, J, I);
  }

  /** When the row of a cell has been solved backward, its column has been solved forward. */
  lemma ColumnSolved(b: Blocks, log: seq<Task>, J: nat, I: nat)
    requires ValidBlocks(b) && FillClosed(b) && S.PredsFirst(NetOf(b), log) && IsCell(b, J, I) && J != I
    ensures Buc(J, J) in log ==> Fuc(I, I) in log
  {
    ColumnTasks(b, I, J);
    ColumnTasks(b, I, I);
    ForwardThrough(b, log, I, J, J);
    RunBefore(log, Fuc(J, I), Buc(J, J));
    RunPred(b, log, Fuc(I, I), Fuc(J, I));
  }

  // ---------------------------------------------------------------------------------------------
  // The diagonal tasks
  // ---------------------------------------------------------------------------------------------

  lemma {:induction false} AddAllTotal<V(!new)>(alg: Algebra<V>, base: V, ms: set<Message>, copies: map<Message, V>)
    requires Monoid(alg) && ms <= copies.Keys
    ensures AddAll(alg, base, ms, copies) == alg.add(base, Total(alg, ms, copies))
    decreases ms
  {
    if ms == {} {
      Zero(alg, base);
    } else {
      var m :| m in ms && AddAll(alg, base, ms, copies) == AddAll(alg, alg.add(base, Get(copies, m, alg.zero)), ms - {m}, copies);
      assert Get(copies, m, alg.zero) == copies[m];
      AddAllTotal(alg, alg.add(base, copies[m]), ms - {m}, copies);
      Assoc(alg, base, copies[m], Total(alg, ms - {m}, copies));
      TotalRemove(alg, ms, copies, m);
    }
  }

  /** The columns, or rows, that a coalesced message stands for. */
  ghost function PartOf(b: Blocks, t: Task): Message -> set<nat> {
    (m: Message) => if m.Group? then (if t.Fuc? then PartL(b, t.J, m.rank) else PartB(b, t.I, m.rank)) else {}
  }

  /** A diagonal task gets one coalesced message from every other rank that contributes to its row, or column. */
  lemma InboxOf(b: Blocks, t: Task, m: Message)
    requires ValidBlocks(b) && t in TasksOf(b) && Diagonal(t)
    ensures m in Inbox(b, t) <==> m.Group? && m.tgt == t && m.rank != RankOf(b, t) && PartOf(b, t)(m) != {}
  {
    SolveGraph.TaskMembers(b, t);
    if m in Inbox(b, t) {
      var u, v := MessageEdge(b, m);
      SolveGraph.TaskMembers(b, u);
      SolveGraph.TaskMembers(b, v);
      assert (if t.Fuc? then u.I else u.J) in PartOf(b, t)(m);
    }
    if m.Group? && m.tgt == t && m.rank != RankOf(b, t) && PartOf(b, t)(m) != {} {
      var i :| i in PartOf(b, t)(m);
      var u := if t.Fuc? then Fuc(t.J, i) else Buc(i, t.I);
      SolveGraph.TaskMembers(b, u);
      assert Edge(b, u, t) && m == MessageOf(b, u, t) && m in MessagesOf(b);
    }
  }

  /** The own part and the parts of the messages are the whole row, or column. */
  lemma PartsCover(b: Blocks, t: Task)
    requires ValidBlocks(b) && t in TasksOf(b) && Diagonal(t)
    ensures var all, own := if t.Fuc? then LeftOf(b, t.J) else Below(b, t.I), PartOf(b, t)(Group(RankOf(b, t), t));
            all == own + Union(Inbox(b, t), PartOf(b, t)) && own !! Union(Inbox(b, t), PartOf(b, t))
  {
    var all, own := if t.Fuc? then LeftOf(b, t.J) else Below(b, t.I), PartOf(b, t)(Group(RankOf(b, t), t));
    forall i
      ensures i in Union(Inbox(b, t), PartOf(b, t)) <==> i in all && i !in own
    {
      InUnion(b, t, i);
    }
  }

  lemma InUnion(b: Blocks, t: Task, i: nat)
    requires ValidBlocks(b) && t in TasksOf(b) && Diagonal(t)
    ensures i in Union(Inbox(b, t), PartOf(b, t)) <==>
            i in (if t.Fuc? then LeftOf(b, t.J) else Below(b, t.I)) && i !in PartOf(b, t)(Group(RankOf(b, t), t))
  {
    var all, own := if t.Fuc? then LeftOf(b, t.J) else Below(b, t.I), PartOf(b, t)(Group(RankOf(b, t), t));
    var m := Group(if t.Fuc? then b.own(t.J, i) else b.own(i, t.I), t);
    SolveGraph.TaskMembers(b, t);
    InboxOf(b, t, m);
    assert i in all ==> i in PartOf(b, t)(m) && (m.rank == RankOf(b, t) ==> i in own);
    assert i in all && i !in own ==> m in Inbox(b, t);
    forall k | k in Inbox(b, t) && i in PartOf(b, t)(k)
      ensures i in all && i !in own
    {
      InboxOf(b, t, k);
    }
  }

  /** Own contributions and messages together: the whole sum. */
  lemma WholeSum<V(!new)>(p: Problem<V>, t: Task, copies: map<Message, V>, terms: map<nat, V>)
    requires ValidBlocks(p.b) && Monoid(p.alg) && t in TasksOf(p.b) && Diagonal(t)
    requires terms.Keys == if t.Fuc? then LeftOf(p.b, t.J) else Below(p.b, t.I)
    requires forall m <- Inbox(p.b, t) :: m in copies && PartOf(p.b, t)(m) <= terms.Keys && copies[m] == Total(p.alg, PartOf(p.b, t)(m), terms)
    ensures PartOf(p.b, t)(Group(RankOf(p.b, t), t)) <= terms.Keys
    ensures p.alg.add(Total(p.alg, PartOf(p.b, t)(Group(RankOf(p.b, t), t)), terms), Total(p.alg, Inbox(p.b, t), copies))
         == Total(p.alg, terms.Keys, terms)
  {
    var own, ms, parts := PartOf(p.b, t)(Group(RankOf(p.b, t), t)), Inbox(p.b, t), PartOf(p.b, t);
    PartsCover(p.b, t);
    forall m, k | m in ms && k in ms && m != k
      ensures parts(m) !! parts(k)
    {
      InboxOf(p.b, t, m);
      InboxOf(p.b, t, k);
    }
    TotalParts(p.alg, ms, copies, parts, terms);
    TotalDisjoint(p.alg, own, Union(ms, parts), terms);
  }

  /** Every message for a diagonal task carries the total of its part. */
  lemma InboxCarries<V(!new)>(p: Problem<V>, s: DState<V>, t: Task)
    requires ValidBlocks(p.b) && CopiesOk(p, s) && t in TasksOf(p.b) && Diagonal(t) && forall m <- Inbox(p.b, t) :: m in s.ctl.landed
    ensures var terms := if t.Fuc? then YTerms(p, t.J) else XTerms(p, t.I);
            forall m <- Inbox(p.b, t) :: m in s.copies && PartOf(p.b, t)(m) <= terms.Keys && s.copies[m] == Total(p.alg, PartOf(p.b, t)(m), terms)
  {
    forall m | m in Inbox(p.b, t)
      ensures m.Group? && m.tgt == t && m in s.copies && s.copies[m] == Sent(p, m)
    {
      InboxOf(p.b, t, m);
    }
  }

  /** Forward: the own contributions, the right-hand side and the messages, in the order of the code. */
  lemma Regroup<V(!new)>(alg: Algebra<V>, own: V, rhs: V, rest: V, all: V)
    requires Monoid(alg) && alg.add(own, rest) == all
    ensures alg.add(alg.add(own, rhs), rest) == alg.add(rhs, all)
  {
    Comm(alg, own, rhs);
    Assoc(alg, rhs, own, rest);
  }

  lemma DiagonalForward<V(!new)>(p: Problem<V>, s: DState<V>, J: nat)
    requires Base(p, s) && S.Keyed(NetOf(p.b), s.ctl) && 1 <= J <= p.b.n && Fuc(J, J) in TasksOf(p.b) && Fuc(J, J) !in s.ctl.Done()
    requires Group(p.b.own(J, J), Fuc(J, J)) !in s.ctl.landed && (forall m <- Inbox(p.b, Fuc(J, J)) :: m in s.ctl.landed)
    requires forall I <- LeftOf(p.b, J) :: Fuc(J, I) in s.ctl.Done()
    ensures Result(p, s, Fuc(J, J)) == Y(p, J)
  {
    var t, r, done := Fuc(J, J), p.b.own(J, J), s.ctl.Done();
    assert Forward(p.b, done, r, J) == PartL(p.b, J, r) == PartOf(p.b, t)(Group(r, t));
    ForwardSlot(p, s, r, J);
    InboxCarries(p, s, t);
    WholeSum(p, t, s.copies, YTerms(p, J));
    var own := Total(p.alg, PartL(p.b, J, r), YTerms(p, J));
    Zero(p.alg, p.rhs(J));
    var base := p.alg.add(own, p.rhs(J));
    AddAllTotal(p.alg, base, Inbox(p.b, t), s.copies);
    Regroup(p.alg, own, p.rhs(J), Total(p.alg, Inbox(p.b, t), s.copies), Total(p.alg, LeftOf(p.b, J), YTerms(p, J)));
  }

  lemma DiagonalBackward<V(!new)>(p: Problem<V>, s: DState<V>, I: nat)
    requires Base(p, s) && S.Keyed(NetOf(p.b), s.ctl) && 1 <= I <= p.b.n && Buc(I, I) in TasksOf(p.b) && Buc(I, I) !in s.ctl.Done()
    requires Fuc(I, I) in s.ctl.Done() && (forall m <- Inbox(p.b, Buc(I, I)) :: m in s.ctl.landed)
    requires forall J <- Below(p.b, I) :: Buc(J, I) in s.ctl.Done()
    ensures Result(p, s, Buc(I, I)) == X(p, I)
  {
    var t, r, done := Buc(I, I), p.b.own(I, I), s.ctl.Done();
    assert Backward(p.b, done, r, I) == PartB(p.b, I, r) == PartOf(p.b, t)(Group(r, t));
    ScaledIs(p, s, I);
    InboxCarries(p, s, t);
    WholeSum(p, t, s.copies, XTerms(p, I));
    AddAllTotal(p.alg, Scaled(p, s, I), Inbox(p.b, t), s.copies);
    Assoc(p.alg, p.alg.scale(I, Y(p, I)), Total(p.alg, PartB(p.b, I, r), XTerms(p, I)), Total(p.alg, Inbox(p.b, t), s.copies));
  }

  // ---------------------------------------------------------------------------------------------
  // Every step keeps slots, copies and flags
  // ---------------------------------------------------------------------------------------------

  /** The slot of no other task changes its meaning when t runs. */
  lemma OtherSlot<V(!new)>(p: Problem<V>, done: set<Task>, landed: set<Message>, t: Task, slot: Slot)
    requires slot != SlotFor(p.b, t) && (t.Fuc? ==> t.J == t.I || t.I in LeftOf(p.b, t.J)) && (t.Buc? ==> t.J == t.I || t.J in Below(p.b, t.I))
    ensures Has(p, done + {t}, slot) == Has(p, done, slot)
    ensures Needed(p.b, done + {t}, landed, slot) == Needed(p.b, done, landed, slot)
  {
    var b, r, X0 := p.b, slot.rank, slot.snode;
    assert Forward(b, done + {t}, r, X0) == Forward(b, done, r, X0);
    assert Backward(b, done + {t}, r, X0) == Backward(b, done, r, X0);
    if r == b.own(X0, X0) {
      assert t != Fuc(X0, X0) && t != Buc(X0, X0);
    }
  }

  lemma TaskPlace(b: Blocks, t: Task)
    requires ValidBlocks(b) && t in TasksOf(b)
    ensures 1 <= SlotFor(b, t).snode <= b.n && 1 <= t.I <= t.J <= b.n
    ensures (t.Fuc? ==> t.J == t.I || t.I in LeftOf(b, t.J)) && (t.Buc? ==> t.J == t.I || t.J in Below(b, t.I))
  {
    SolveGraph.TaskMembers(b, t);
  }

  ghost predicate DiagonalReady(b: Blocks, ctl: S.State<Task, Message, Slot>, t: Task) {
    && 1 <= t.I == t.J <= b.n && t in TasksOf(b) && t !in ctl.Done() && (forall m <- Inbox(b, t) :: m in ctl.landed)
    && (t.Fuc? ==> Group(RankOf(b, t), t) !in ctl.landed && forall I <- LeftOf(b, t.J) :: Fuc(t.J, I) in ctl.Done())
    && (t.Buc? ==> Fuc(t.I, t.I) in ctl.Done() && forall J <- Below(b, t.I) :: Buc(J, t.I) in ctl.Done())
  }

  lemma DiagonalFacts(b: Blocks, ctl: S.State<Task, Message, Slot>, t: Task)
    requires ValidBlocks(b) && FillClosed(b) && Ready(b, ctl, t) && Diagonal(t)
    ensures DiagonalReady(b, ctl, t)
  {
    SolveGraph.TaskMembers(b, t);
    ReadyTask(b, ctl, t);
    OwnGroup(b, t);
    PartsRan(b, ctl.Done(), t);
    if t.Buc? {
      ForwardRan(b, ctl.log, t.I);
    }
  }

  lemma PartsRan(b: Blocks, done: set<Task>, t: Task)
    requires ValidBlocks(b) && t in TasksOf(b) && Diagonal(t) && forall u :: u in TasksOf(b) && Edge(b, u, t) ==> u in done
    ensures t.Fuc? ==> forall I <- LeftOf(b, t.J) :: Fuc(t.J, I) in done
    ensures t.Buc? ==> forall J <- Below(b, t.I) :: Buc(J, t.I) in done
  {
    SolveGraph.TaskMembers(b, t);
    forall i | i in (if t.Fuc? then LeftOf(b, t.J) else Below(b, t.I))
      ensures (if t.Fuc? then Fuc(t.J, i) else Buc(i, t.I)) in done
    {
      SolveGraph.TaskMembers(b, if t.Fuc? then Fuc(t.J, i) else Buc(i, t.I));
    }
  }

  /** No rank sends a message to a diagonal task of its own. */
  lemma OwnGroup(b: Blocks, t: Task)
    requires t in TasksOf(b) && Diagonal(t)
    ensures Group(RankOf(b, t), t) !in MessagesOf(b)
  {
    if Group(RankOf(b, t), t) in MessagesOf(b) {
      var u, v := MessageEdge(b, Group(RankOf(b, t), t));
    }
  }

  lemma ForwardRan(b: Blocks, log: seq<Task>, I: nat)
    requires ValidBlocks(b) && FillClosed(b) && S.PredsFirst(NetOf(b), log) && 1 <= I <= b.n
    requires forall u :: u in TasksOf(b) && Edge(b, u, Buc(I, I)) ==> u in log
    ensures Fuc(I, I) in log
  {
    ColumnTasks(b, I, I);
    if b.anc(I) != [] {
      var K := b.anc(I)[0];
      assert K in b.anc(I);
      ColumnTasks(b, I, K);
      RunForward(b, log, I, I, K);
    }
  }

  lemma DiagonalResult<V(!new)>(p: Problem<V>, s: DState<V>, t: Task)
    requires Base(p, s) && S.Keyed(NetOf(p.b), s.ctl) && DiagonalReady(p.b, s.ctl, t)
    ensures Has(p, s.ctl.Done() + {t}, SlotFor(p.b, t)) == Some(Result(p, s, t))
  {
    var done, r := s.ctl.Done(), RankOf(p.b, t);
    if t.Fuc? {
      DiagonalForward(p, s, t.J);
      NoBackwardYet(p.b, s.ctl.log, done, t.J, t.J);
      assert Backward(p.b, done + {t}, r, t.J) == Backward(p.b, done, r, t.J);
    } else {
      DiagonalBackward(p, s, t.I);
    }
  }

  /** Whatever task runs, its slot holds afterwards what its place in the substitution says. */
  lemma TaskResult<V(!new)>(p: Problem<V>, s: DState<V>, t: Task)
    requires Good(p, s) && Ready(p.b, s.ctl, t)
    ensures Has(p, s.ctl.Done() + {t}, SlotFor(p.b, t)) == Some(Result(p, s, t))
  {
    GoodBase(p, s);
    if Diagonal(t) {
      DiagonalFacts(p.b, s.ctl, t);
      DiagonalResult(p, s, t);
    } else {
      match t
      case Fuc(J, I) =>
        ForwardFacts(p.b, s.ctl, J, I);
        ForwardResult(p, s, J, I);
      case Buc(J, I) =>
        BackwardFacts(p.b, s.ctl, J, I);
        BackwardResult(p, s, J, I);
    }
  }

  lemma ExecuteSlots<V(!new)>(p: Problem<V>, s: DState<V>, s': DState<V>, t: Task)
    requires ValidBlocks(p.b) && SlotsOk(p, s) && t in TasksOf(p.b) && S.Keyed(NetOf(p.b), s.ctl)
    requires s'.ctl.Done() == s.ctl.Done() + {t} && s'.ctl.landed == s.ctl.landed && s'.bufs == s.bufs[SlotFor(p.b, t) := Result(p, s, t)]
    requires Has(p, s.ctl.Done() + {t}, SlotFor(p.b, t)) == Some(Result(p, s, t))
    ensures SlotsOk(p, s')
  {
    TaskPlace(p.b, t);
    forall slot: Slot {:trigger Has(p, s'.ctl.Done(), slot)} | 1 <= slot.snode <= p.b.n && Needed(p.b, s'.ctl.Done(), s'.ctl.landed, slot)
      ensures Lookup(s'.bufs, slot) == Has(p, s'.ctl.Done(), slot)
    {
      if slot != SlotFor(p.b, t) {
        OtherSlot(p, s.ctl.Done(), s.ctl.landed, t, slot);
        SlotIs(p, s, slot);
      }
    }
  }

  /** A block is scaled by the first backward task of its column on the rank of the diagonal. */
  lemma ExecuteScaled<V(!new)>(p: Problem<V>, s: DState<V>, s': DState<V>, t: Task)
    requires ValidBlocks(p.b) && ScaledOk(p, s) && t in TasksOf(p.b) && s'.ctl.Done() == s.ctl.Done() + {t}
    requires s'.scaled == if t.Buc? && RankOf(p.b, t) == p.b.own(t.I, t.I) then s.scaled + {t.I} else s.scaled
    ensures ScaledOk(p, s')
  {
    var done := s.ctl.Done();
    TaskPlace(p.b, t);
    forall I: nat | 1 <= I <= p.b.n
      ensures I in s'.scaled <==> Buc(I, I) in done + {t} || Backward(p.b, done + {t}, p.b.own(I, I), I) != {}
    {
      var r := p.b.own(I, I);
      if t.Buc? && t.I == I && t.J != I && RankOf(p.b, t) == r {
        assert t.J in Backward(p.b, done + {t}, r, I);
      } else {
        assert Backward(p.b, done + {t}, r, I) == Backward(p.b, done, r, I);
      }
    }
  }

  // ---------------------------------------------------------------------------------------------
  // What a get reads
  // ---------------------------------------------------------------------------------------------

  lemma FetchedBefore(b: Blocks, ctl: S.State<Task, Message, Slot>, J: nat, I: nat, m: Message)
    requires ValidBlocks(b) && FillClosed(b) && S.Inv(NetOf(b), ctl) && m in MessagesOf(b)
    requires IsCell(b, J, I) && ForwardFrom(m, Slot(b.own(J, I), I), b)
    ensures Buc(J, I) in ctl.Done() ==> m in ctl.landed
  {
    if Buc(J, I) in ctl.Done() {
      BackwardFindsQuiet(b, ctl, J, I, m);
    }
  }

  /** Until a forward message has been fetched no backward task has written into its slot. */
  lemma NothingAfter(b: Blocks, ctl: S.State<Task, Message, Slot>, m: Message, r: nat, I: nat)
    requires ValidBlocks(b) && FillClosed(b) && S.Inv(NetOf(b), ctl) && m in MessagesOf(b) && m !in ctl.landed
    requires 1 <= I <= b.n && ForwardFrom(m, Slot(r, I), b)
    ensures Backward(b, ctl.Done(), r, I) == {}
    ensures r == b.own(I, I) ==> Buc(I, I) !in ctl.Done()
  {
    forall J | J in Below(b, I) && b.own(J, I) == r
      ensures Buc(J, I) !in ctl.Done()
    {
      FetchedBefore(b, ctl, J, I, m);
    }
    if r == b.own(I, I) {
      FetchedBefore(b, ctl, I, I, m);
    }
  }

  lemma ArrivedSources(b: Blocks, ctl: S.State<Task, Message, Slot>, m: Message)
    requires S.Keyed(NetOf(b), ctl) && S.Messages(NetOf(b), ctl) && m in MessagesOf(b) && m in ctl.arrived
    ensures SourcesOf(b, m) <= ctl.Done()
  {
    assert S.MessageInv(NetOf(b), ctl, m);
  }

  /** The shape of a message: its slot, and what it stands for. */
  lemma MessageShape(b: Blocks, m: Message)
    requires ValidBlocks(b) && m in MessagesOf(b)
    ensures 1 <= SlotOf(b, m).snode <= b.n
    ensures m.Single? ==> Diagonal(m.src) && m.src in TasksOf(b) && SlotOf(b, m) == Slot(b.own(m.src.I, m.src.I), m.src.I)
    ensures m.Group? ==> Diagonal(m.tgt) && m.tgt in TasksOf(b) && m.rank != b.own(m.tgt.I, m.tgt.I) && SlotOf(b, m) == Slot(m.rank, m.tgt.I)
    ensures m.Group? ==> PartOf(b, m.tgt)(m) != {}
  {
    var u, v := MessageEdge(b, m);
    SolveGraph.TaskMembers(b, u);
    SolveGraph.TaskMembers(b, v);
    if m.Group? {
      assert (if v.Fuc? then u.I else u.J) in PartOf(b, v)(m);
    }
  }

  lemma GroupDone(b: Blocks, done: set<Task>, m: Message)
    requires ValidBlocks(b) && m in MessagesOf(b) && m.Group? && SourcesOf(b, m) <= done
    ensures m.tgt.Fuc? ==> Forward(b, done, m.rank, m.tgt.J) == PartL(b, m.tgt.J, m.rank)
    ensures m.tgt.Buc? ==> Backward(b, done, m.rank, m.tgt.I) == PartB(b, m.tgt.I, m.rank)
  {
    MessageShape(b, m);
    var t := m.tgt;
    SolveGraph.TaskMembers(b, t);
    forall i | i in PartOf(b, t)(m)
      ensures (if t.Fuc? then Fuc(t.J, i) else Buc(i, t.I)) in done
    {
      SolveGraph.TaskMembers(b, if t.Fuc? then Fuc(t.J, i) else Buc(i, t.I));
    }
  }

  ghost predicate LandReady(b: Blocks, ctl: S.State<Task, Message, Slot>, m: Message) {
    && m in MessagesOf(b) && m !in ctl.landed && SourcesOf(b, m) <= ctl.Done()
    && (ForwardFrom(m, SlotOf(b, m), b) ==>
          Backward(b, ctl.Done(), SlotOf(b, m).rank, SlotOf(b, m).snode) == {}
          && (SlotOf(b, m).rank == b.own(SlotOf(b, m).snode, SlotOf(b, m).snode) ==> Buc(SlotOf(b, m).snode, SlotOf(b, m).snode) !in ctl.Done()))
  }

  lemma LandFacts(b: Blocks, ctl: S.State<Task, Message, Slot>, m: Message)
    requires ValidBlocks(b) && FillClosed(b) && S.Inv(NetOf(b), ctl) && m in MessagesOf(b) && m in ctl.arrived && m !in ctl.landed
    ensures LandReady(b, ctl, m)
  {
    ArrivedSources(b, ctl, m);
    MessageShape(b, m);
    if ForwardFrom(m, SlotOf(b, m), b) {
      NothingAfter(b, ctl, m, SlotOf(b, m).rank, SlotOf(b, m).snode);
    }
  }

  /** A get that completes brings what the message stands for, whenever it completes. */
  lemma LandReads<V(!new)>(p: Problem<V>, s: DState<V>, m: Message)
    requires Base(p, s) && LandReady(p.b, s.ctl, m)
    ensures Get(s.bufs, SlotOf(p.b, m), p.alg.zero) == Sent(p, m)
  {
    MessageShape(p.b, m);
    match m
    case Single(u, _) =>
      assert u in SourcesOf(p.b, m);
      if u.Fuc? {
        OwnY(p, s, u.I);
      } else {
        OwnX(p, s, u.I);
      }
    case Group(r, t) =>
      GroupDone(p.b, s.ctl.Done(), m);
      SlotIs(p, s, Slot(r, t.I));
  }

  lemma LandSlots<V(!new)>(p: Problem<V>, s: DState<V>, s': DState<V>, m: Message)
    requires SlotsOk(p, s) && s'.ctl.Done() == s.ctl.Done() && s'.ctl.landed == s.ctl.landed + {m} && s'.bufs == s.bufs
    ensures SlotsOk(p, s')
  {
    forall slot: Slot {:trigger Has(p, s'.ctl.Done(), slot)} | 1 <= slot.snode <= p.b.n && Needed(p.b, s'.ctl.Done(), s'.ctl.landed, slot)
      ensures Lookup(s'.bufs, slot) == Has(p, s'.ctl.Done(), slot)
    {
      SlotIs(p, s, slot);
    }
  }

  lemma Unneeded(b: Blocks, done: set<Task>, landed: set<Message>, r: nat, I: nat)
    requires r != b.own(I, I)
    requires Backward(b, done, r, I) != {} ==> Group(r, Buc(I, I)) in landed
    requires Forward(b, done, r, I) != {} ==> Group(r, Fuc(I, I)) in landed
    ensures (Backward(b, done, r, I) == {} && Forward(b, done, r, I) == {}) || !Needed(b, done, landed, Slot(r, I))
  {
  }

  lemma HeldBackward(b: Blocks, ctl: S.State<Task, Message, Slot>, r: nat, I: nat, J: nat)
    requires ValidBlocks(b) && BuffersHeld(b, ctl) && 1 <= I <= b.n && r != b.own(I, I) && J in Backward(b, ctl.Done(), r, I)
    requires Slot(r, I) in ctl.outstanding && ctl.outstanding[Slot(r, I)] == 0
    ensures Group(r, Buc(I, I)) in ctl.landed
  {
    HeldGroup(b, ctl, Buc(J, I));
  }

  lemma HeldForward(b: Blocks, ctl: S.State<Task, Message, Slot>, r: nat, I: nat, J: nat)
    requires ValidBlocks(b) && BuffersHeld(b, ctl) && 1 <= I <= b.n && r != b.own(I, I) && J in Forward(b, ctl.Done(), r, I)
    requires Slot(r, I) in ctl.outstanding && ctl.outstanding[Slot(r, I)] == 0
    ensures Group(r, Fuc(I, I)) in ctl.landed
  {
    HeldGroup(b, ctl, Fuc(I, J));
  }

  /** The slot whose buffer is freed is not needed any more. */
  lemma FreedUnneeded(b: Blocks, ctl: S.State<Task, Message, Slot>, r: nat, I: nat)
    requires ValidBlocks(b) && BuffersHeld(b, ctl) && 1 <= I <= b.n && r != b.own(I, I)
    requires Slot(r, I) in ctl.outstanding && ctl.outstanding[Slot(r, I)] == 0
    ensures (Backward(b, ctl.Done(), r, I) == {} && Forward(b, ctl.Done(), r, I) == {})
            || !Needed(b, ctl.Done(), ctl.landed, Slot(r, I))
  {
    if J :| J in Backward(b, ctl.Done(), r, I) {
      HeldBackward(b, ctl, r, I, J);
    }
    if J :| J in Forward(b, ctl.Done(), r, I) {
      HeldForward(b, ctl, r, I, J);
    }
    Unneeded(b, ctl.Done(), ctl.landed, r, I);
  }

  function DiagOf(t: Task): Task { if t.Fuc? then Fuc(t.J, t.J) else Buc(t.I, t.I) }

  lemma GroupOf(b: Blocks, t: Task)
    requires ValidBlocks(b) && SolveGraph.IsTask(b, t) && !Diagonal(t) && RankOf(b, DiagOf(t)) != RankOf(b, t)
    ensures Group(RankOf(b, t), DiagOf(t)) in MessagesOf(b) && t in SourcesOf(b, Group(RankOf(b, t), DiagOf(t)))
  {
    SolveGraph.TaskMembers(b, t);
    ColumnTasks(b, t.I, t.J);
    ColumnTasks(b, t.I, t.I);
    assert Edge(b, t, DiagOf(t)) && Group(RankOf(b, t), DiagOf(t)) == MessageOf(b, t, DiagOf(t));
    OffIsSource(b, t);
  }

  lemma HeldGroup(b: Blocks, ctl: S.State<Task, Message, Slot>, t: Task)
    requires ValidBlocks(b) && BuffersHeld(b, ctl) && t in ctl.Done() && SolveGraph.IsTask(b, t) && !Diagonal(t)
    requires RankOf(b, DiagOf(t)) != RankOf(b, t)
    requires var slot := SlotOf(b, Group(RankOf(b, t), DiagOf(t))); slot in ctl.outstanding && ctl.outstanding[slot] == 0
    ensures Group(RankOf(b, t), DiagOf(t)) in ctl.landed
  {
    GroupOf(b, t);
    assert t in SourcesOf(b, Group(RankOf(b, t), DiagOf(t))) * ctl.Done();
  }

  lemma FreeSlots<V(!new)>(p: Problem<V>, s: DState<V>, s': DState<V>, freed: Slot)
    requires SlotsOk(p, s) && s'.ctl.Done() == s.ctl.Done() && s'.ctl.landed == s.ctl.landed && s'.bufs == s.bufs - {freed}
    requires freed.rank != p.b.own(freed.snode, freed.snode)
    requires (Backward(p.b, s.ctl.Done(), freed.rank, freed.snode) == {} && Forward(p.b, s.ctl.Done(), freed.rank, freed.snode) == {})
             || !Needed(p.b, s.ctl.Done(), s.ctl.landed, freed)
    ensures SlotsOk(p, s')
  {
    forall slot: Slot {:trigger Has(p, s'.ctl.Done(), slot)} | 1 <= slot.snode <= p.b.n && Needed(p.b, s'.ctl.Done(), s'.ctl.landed, slot)
      ensures Lookup(s'.bufs, slot) == Has(p, s'.ctl.Done(), slot)
    {
      SlotIs(p, s, slot);
    }
  }

  // ---------------------------------------------------------------------------------------------
  // Steps and runs
  // ---------------------------------------------------------------------------------------------

  ghost predicate DataOk<V(!new)>(p: Problem<V>, s: DState<V>) { SlotsOk(p, s) && CopiesOk(p, s) && ScaledOk(p, s) }

  /** What a step does to the history. */
  ghost predicate Follows(ctl: S.State<Task, Message, Slot>, ctl': S.State<Task, Message, Slot>, step: S.Step<Task, Message>) {
    && ctl'.Done() == ctl.Done() + (if step.Execute? then {step.t} else {})
    && ctl'.landed == ctl.landed + (if step.Land? then {step.m} else {})
  }

  lemma ExecuteKeeps<V(!new)>(p: Problem<V>, s: DState<V>, s': DState<V>, t: Task)
    requires ValidBlocks(p.b) && DataOk(p, s) && t in TasksOf(p.b) && S.Keyed(NetOf(p.b), s.ctl)
    requires s'.ctl.Done() == s.ctl.Done() + {t} && s'.ctl.landed == s.ctl.landed && s'.copies == s.copies
    requires s'.bufs == s.bufs[SlotFor(p.b, t) := Result(p, s, t)]
    requires s'.scaled == if t.Buc? && RankOf(p.b, t) == p.b.own(t.I, t.I) then s.scaled + {t.I} else s.scaled
    requires Has(p, s.ctl.Done() + {t}, SlotFor(p.b, t)) == Some(Result(p, s, t))
    ensures DataOk(p, s')
  {
    ExecuteSlots(p, s, s', t);
    ExecuteScaled(p, s, s', t);
  }

  lemma ExecuteData<V(!new)>(p: Problem<V>, s: DState<V>, s': DState<V>, t: Task)
    requires ValidBlocks(p.b) && DataOk(p, s) && t in TasksOf(p.b) && S.Keyed(NetOf(p.b), s.ctl)
    requires Has(p, s.ctl.Done() + {t}, SlotFor(p.b, t)) == Some(Result(p, s, t))
    requires Follows(s.ctl, s'.ctl, S.Execute(t)) && s' == NextData(p, s, s'.ctl, S.Execute(t))
    ensures DataOk(p, s')
  {
    ExecuteKeeps(p, s, s', t);
  }

  lemma LandData<V(!new)>(p: Problem<V>, s: DState<V>, s': DState<V>, m: Message)
    requires DataOk(p, s) && S.Keyed(NetOf(p.b), s.ctl) && Get(s.bufs, SlotOf(p.b, m), p.alg.zero) == Sent(p, m)
    requires Follows(s.ctl, s'.ctl, S.Land(m)) && s' == NextData(p, s, s'.ctl, S.Land(m))
    ensures DataOk(p, s')
  {
    LandSlots(p, s, s', m);
  }

  lemma NoticeIsGroup(b: Blocks, ctl: S.State<Task, Message, Slot>, m: Message)
    requires S.Keyed(NetOf(b), ctl) && S.Messages(NetOf(b), ctl) && m in MessagesOf(b) && m in ctl.deallocs
    ensures m.Group?
  {
    assert S.MessageInv(NetOf(b), ctl, m);
  }

  lemma NextDealloc<V(!new)>(p: Problem<V>, s: DState<V>, ctl: S.State<Task, Message, Slot>, m: Message)
    requires S.Keyed(NetOf(p.b), s.ctl)
    ensures var s', slot := NextData(p, s, ctl, S.Dealloc(m)), SlotOf(p.b, m);
            && s'.ctl == ctl && s'.copies == s.copies && s'.scaled == s.scaled
            && s'.bufs == if slot in ctl.outstanding && ctl.outstanding[slot] == 0 then s.bufs - {slot} else s.bufs
  {
  }

  lemma DeallocData<V(!new)>(p: Problem<V>, s: DState<V>, ctl: S.State<Task, Message, Slot>, m: Message)
    requires ValidBlocks(p.b) && DataOk(p, s) && S.Keyed(NetOf(p.b), s.ctl) && BuffersHeld(p.b, ctl) && Follows(s.ctl, ctl, S.Dealloc(m))
    requires var slot := SlotOf(p.b, m); 1 <= slot.snode <= p.b.n && slot.rank != p.b.own(slot.snode, slot.snode)
    ensures DataOk(p, NextData(p, s, ctl, S.Dealloc(m)))
  {
    NextDealloc(p, s, ctl, m);
    DeallocKeeps(p, s, NextData(p, s, ctl, S.Dealloc(m)), SlotOf(p.b, m));
  }

  lemma DeallocKeeps<V(!new)>(p: Problem<V>, s: DState<V>, s': DState<V>, slot: Slot)
    requires ValidBlocks(p.b) && DataOk(p, s) && BuffersHeld(p.b, s'.ctl) && 1 <= slot.snode <= p.b.n && slot.rank != p.b.own(slot.snode, slot.snode)
    requires s'.ctl.Done() == s.ctl.Done() && s'.ctl.landed == s.ctl.landed && s'.copies == s.copies && s'.scaled == s.scaled
    requires s'.bufs == if slot in s'.ctl.outstanding && s'.ctl.outstanding[slot] == 0 then s.bufs - {slot} else s.bufs
    ensures DataOk(p, s')
  {
    if slot in s'.ctl.outstanding && s'.ctl.outstanding[slot] == 0 {
      FreedUnneeded(p.b, s'.ctl, slot.rank, slot.snode);
      FreeSlots(p, s, s', slot);
    }
  }

  lemma ExecuteStep<V(!new)>(p: Problem<V>, s: DState<V>, s': DState<V>, t: Task)
    requires Good(p, s) && Ready(p.b, s.ctl, t) && Follows(s.ctl, s'.ctl, S.Execute(t)) && s' == NextData(p, s, s'.ctl, S.Execute(t))
    ensures DataOk(p, s')
  {
    TaskResult(p, s, t);
    ExecuteData(p, s, s', t);
  }

  lemma LandStep<V(!new)>(p: Problem<V>, s: DState<V>, s': DState<V>, m: Message)
    requires Good(p, s) && m in MessagesOf(p.b) && m in s.ctl.arrived && m !in s.ctl.landed
    requires Follows(s.ctl, s'.ctl, S.Land(m)) && s' == NextData(p, s, s'.ctl, S.Land(m))
    ensures DataOk(p, s')
  {
    LandFacts(p.b, s.ctl, m);
    LandReads(p, s, m);
    LandData(p, s, s', m);
  }

  lemma DeallocStep<V(!new)>(p: Problem<V>, s: DState<V>, s': DState<V>, m: Message)
    requires Good(p, s) && m in MessagesOf(p.b) && m in s.ctl.deallocs && BuffersHeld(p.b, s'.ctl)
    requires Follows(s.ctl, s'.ctl, S.Dealloc(m)) && s' == NextData(p, s, s'.ctl, S.Dealloc(m))
    ensures DataOk(p, s')
  {
    NoticeIsGroup(p.b, s.ctl, m);
    MessageShape(p.b, m);
    DeallocData(p, s, s'.ctl, m);
  }

  lemma QuietStep<V(!new)>(p: Problem<V>, s: DState<V>, s': DState<V>)
    requires DataOk(p, s) && s'.ctl.Done() == s.ctl.Done() && s'.ctl.landed == s.ctl.landed
    requires s'.bufs == s.bufs && s'.copies == s.copies && s'.scaled == s.scaled
    ensures DataOk(p, s')
  {
    forall slot: Slot {:trigger Has(p, s'.ctl.Done(), slot)} | 1 <= slot.snode <= p.b.n && Needed(p.b, s'.ctl.Done(), s'.ctl.landed, slot)
      ensures Lookup(s'.bufs, slot) == Has(p, s'.ctl.Done(), slot)
    {
      SlotIs(p, s, slot);
    }
  }

  lemma ControlStep<V(!new)>(p: Problem<V>, s: DState<V>, s': DState<V>, step: S.Step<Task, Message>)
    requires DataOk(p, s) && S.Keyed(NetOf(p.b), s.ctl) && Follows(s.ctl, s'.ctl, step)
    requires (step.Arrive? || step.Ask?) && s' == NextData(p, s, s'.ctl, step)
    ensures DataOk(p, s')
  {
    QuietStep(p, s, s');
  }

  lemma MessageStep<V(!new)>(p: Problem<V>, s: DState<V>, s': DState<V>, step: S.Step<Task, Message>)
    requires Good(p, s) && S.Enabled(NetOf(p.b), s.ctl, step) && Follows(s.ctl, s'.ctl, step) && BuffersHeld(p.b, s'.ctl)
    requires (step.Land? || step.Dealloc?) && s' == NextData(p, s, s'.ctl, step)
    ensures DataOk(p, s')
  {
    if step.Land? {
      LandStep(p, s, s', step.m);
    } else {
      DeallocStep(p, s, s', step.m);
    }
  }

  lemma StepData<V(!new)>(p: Problem<V>, s: DState<V>, s': DState<V>, step: S.Step<Task, Message>)
    requires Good(p, s) && S.Enabled(NetOf(p.b), s.ctl, step) && Follows(s.ctl, s'.ctl, step) && BuffersHeld(p.b, s'.ctl)
    requires s' == NextData(p, s, s'.ctl, step)
    ensures DataOk(p, s')
  {
    if step.Execute? {
      ExecuteStep(p, s, s', step.t);
    } else if step.Land? || step.Dealloc? {
      MessageStep(p, s, s', step);
    } else {
      ControlStep(p, s, s', step);
    }
  }

  /** Every step keeps slots, copies and flags as the substitution prescribes. */
  lemma StepKeepsGood<V(!new)>(p: Problem<V>, s: DState<V>, step: S.Step<Task, Message>)
    requires Good(p, s) && S.Enabled(NetOf(p.b), s.ctl, step)
    ensures Good(p, ApplyData(p, s, step))
  {
    var ctl := S.Apply(NetOf(p.b), s.ctl, step);
    S.StepKeepsInv(NetOf(p.b), s.ctl, step);
    S.StepHistory(NetOf(p.b), s.ctl, step);
    GroupsHeld(p.b, ctl);
    StepData(p, s, ApplyData(p, s, step), step);
  }

  ghost predicate RunData<V(!new)>(p: Problem<V>, s: DState<V>, steps: seq<S.Step<Task, Message>>, s': DState<V>)
    requires S.WellFormed(NetOf(p.b))
    decreases |steps|
  {
    if steps == [] then s' == s
    else S.Keyed(NetOf(p.b), s.ctl) && S.Enabled(NetOf(p.b), s.ctl, steps[0]) && RunData(p, ApplyData(p, s, steps[0]), steps[1..], s')
  }

  ghost function StartData<V>(p: Problem<V>): DState<V>
    requires S.WellFormed(NetOf(p.b))
  {
    DState(S.Init(NetOf(p.b)), map[], map[], {})
  }

  lemma StartGood<V(!new)>(p: Problem<V>)
    requires ValidBlocks(p.b) && FillClosed(p.b) && Monoid(p.alg) && S.WellFormed(NetOf(p.b))
    ensures Good(p, StartData(p))
  {
    S.InitInv(NetOf(p.b));
  }

  lemma {:induction false} RunKeepsGood<V(!new)>(p: Problem<V>, s: DState<V>, steps: seq<S.Step<Task, Message>>, s': DState<V>)
    requires Good(p, s) && RunData(p, s, steps, s')
    ensures Good(p, s') && S.Run(NetOf(p.b), s.ctl, steps, s'.ctl)
    decreases |steps|
  {
    if steps != [] {
      StepKeepsGood(p, s, steps[0]);
      RunKeepsGood(p, ApplyData(p, s, steps[0]), steps[1..], s');
    }
  }

  /** The steps with data lead from the state the solve phase starts in to `s`. */
  ghost predicate SolveRunData<V(!new)>(p: Problem<V>, steps: seq<S.Step<Task, Message>>, s: DState<V>)
    requires ValidBlocks(p.b)
  {
    NetWellFormed(p.b);
    RunData(p, StartData(p), steps, s)
  }

  /** In every run of the solve phase, on any distribution of the cells and with any order of tasks, messages and
      gets: a block that has been solved forward, and not yet touched backward, is that of forward substitution; a
      block that has been solved backward is that of backward substitution, for good; and a run that cannot go on
      has solved every block. */
  lemma EverySolveRunSolves<V(!new)>(p: Problem<V>, steps: seq<S.Step<Task, Message>>, s: DState<V>)
    requires ValidBlocks(p.b) && FillClosed(p.b) && Monoid(p.alg) && SolveRunData(p, steps, s)
    ensures S.WellFormed(NetOf(p.b)) && S.Inv(NetOf(p.b), s.ctl)
    ensures forall I: nat :: 1 <= I <= p.b.n && Buc(I, I) in s.ctl.log ==>
              Lookup(s.bufs, Slot(p.b.own(I, I), I)) == Some(X(p, I))
    ensures forall I: nat :: 1 <= I <= p.b.n && Fuc(I, I) in s.ctl.log && (forall J: nat :: Buc(J, I) !in s.ctl.log) ==>
              Lookup(s.bufs, Slot(p.b.own(I, I), I)) == Some(Y(p, I))
    ensures S.Stuck(NetOf(p.b), s.ctl) ==> forall I: nat :: 1 <= I <= p.b.n ==> Lookup(s.bufs, Slot(p.b.own(I, I), I)) == Some(X(p, I))
  {
    NetWellFormed(p.b);
    StartGood(p);
    RunKeepsGood(p, StartData(p), steps, s);
    EverySolveRun(p.b, steps, s.ctl);
    forall I: nat | 1 <= I <= p.b.n
      ensures Buc(I, I) in s.ctl.log ==> Lookup(s.bufs, Slot(p.b.own(I, I), I)) == Some(X(p, I))
      ensures Fuc(I, I) in s.ctl.log && (forall J: nat :: Buc(J, I) !in s.ctl.log) ==> Lookup(s.bufs, Slot(p.b.own(I, I), I)) == Some(Y(p, I))
      ensures Buc(I, I) in TasksOf(p.b)
    {
      ColumnTasks(p.b, I, I);
      SlotIs(p, s, Slot(p.b.own(I, I), I));
    }
  }

  // ---------------------------------------------------------------------------------------------
  // Blocks of one entry: the triangular systems are solved
  // ---------------------------------------------------------------------------------------------

  /** A factor of reals: l(J,I) below the diagonal and l(I,I) on it, d(I) of the LDL case. */
  ghost function Reals(l: (nat, nat) -> real, d: nat -> real): Algebra<real> {
    Algebra((x, y) => x + y, 0.0,
            (J, v) => if l(J, J) == 0.0 then v else v / l(J, J), (J, I, y) => -(l(J, I) * y),
            (I, v) => if d(I) == 0.0 then v else v / d(I),
            (J, I, x) => -(l(J, I) * x), (I, v) => if l(I, I) == 0.0 then v else v / l(I, I))
  }

  lemma RealsMonoid(l: (nat, nat) -> real, d: nat -> real)
    ensures Monoid(Reals(l, d))
  {
    var alg := Reals(l, d);
    forall x, y
      ensures CommAt(alg, x, y)
    {
    }
    forall x, y, z
      ensures AssocAt(alg, x, y, z)
    {
    }
  }

  ghost function RealProblem(b: Blocks, l: (nat, nat) -> real, d: nat -> real, rhs: nat -> real): Problem<real> { Problem(b, Reals(l, d), rhs) }

  /** Row J of L times y, and column I of L times x: the diagonal entry and the entries of the structure. */
  ghost function RowTimes(p: Problem<real>, l: (nat, nat) -> real, J: nat): real {
    l(J, J) * Y(p, J) - Total(p.alg, LeftOf(p.b, J), YTerms(p, J))
  }

  ghost function ColumnTimes(p: Problem<real>, l: (nat, nat) -> real, I: nat): real {
    l(I, I) * X(p, I) - Total(p.alg, Below(p.b, I), XTerms(p, I))
  }

  /** L y = b and D L' x = y. */
  lemma RealsSolve(b: Blocks, l: (nat, nat) -> real, d: nat -> real, rhs: nat -> real, I: nat)
    requires l(I, I) != 0.0 && d(I) != 0.0
    ensures var p := RealProblem(b, l, d, rhs); RowTimes(p, l, I) == rhs(I) && d(I) * ColumnTimes(p, l, I) == Y(p, I)
  {
    var p := RealProblem(b, l, d, rhs);
    Divided(l(I, I), rhs(I) + Total(p.alg, LeftOf(b, I), YTerms(p, I)));
    Divided(d(I), Y(p, I));
    Divided(l(I, I), Y(p, I) / d(I) + Total(p.alg, Below(b, I), XTerms(p, I)));
  }

  lemma Divided(d: real, v: real)
    requires d != 0.0
    ensures d * (v / d) == v
  {
  }

  lemma SolvedBlock<V(!new)>(p: Problem<V>, steps: seq<S.Step<Task, Message>>, s: DState<V>, I: nat)
    requires ValidBlocks(p.b) && FillClosed(p.b) && Monoid(p.alg) && SolveRunData(p, steps, s) && 1 <= I <= p.b.n
    requires S.Keyed(NetOf(p.b), s.ctl) && S.Stuck(NetOf(p.b), s.ctl)
    ensures Lookup(s.bufs, Slot(p.b.own(I, I), I)) == Some(X(p, I))
  {
    EverySolveRunSolves(p, steps, s);
  }

  /** With blocks of one entry: every run that cannot go on leaves x in the slots of the diagonal ranks, with
      L y = b and D L' x = y. */
  lemma EverySolveRunSolvesReals(b: Blocks, l: (nat, nat) -> real, d: nat -> real, rhs: nat -> real,
                                 steps: seq<S.Step<Task, Message>>, s: DState<real>, I: nat)
    requires ValidBlocks(b) && FillClosed(b) && SolveRunData(RealProblem(b, l, d, rhs), steps, s) && 1 <= I <= b.n
    requires S.Keyed(NetOf(b), s.ctl) && S.Stuck(NetOf(b), s.ctl)
    requires l(I, I) != 0.0 && d(I) != 0.0
    ensures var p := RealProblem(b, l, d, rhs);
            && Lookup(s.bufs, Slot(b.own(I, I), I)) == Some(X(p, I))
            && RowTimes(p, l, I) == rhs(I) && d(I) * ColumnTimes(p, l, I) == Y(p, I)
  {
    RealsMonoid(l, d);
    SolvedBlock(RealProblem(b, l, d, rhs), steps, s, I);
    RealsSolve(b, l, d, rhs, I);
  }
}
