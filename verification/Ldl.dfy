/** The dense LDL' kernels over the reals: unblocked and blocked, for either triangle.

    The branch for 'L' is the branch for 'U' on the transposed matrix, statement by statement; both are
    modelled by one method that looks at the array through a view.  Rows and columns are numbered from 0. */
module Ldl {

  /** A matrix as a function of row and column. */
  type Mat = (nat, nat) -> real

  // ---------------------------------------------------------------------------------------------
  // Products and quotients, by name: most proofs below only need equals for equals
  // ---------------------------------------------------------------------------------------------

  ghost function Mul(x: real, y: real): real { x * y }

  ghost function Quot(x: real, y: real): real
    requires y != 0.0
  {
    x / y
  }

  lemma MulIs(x: real, y: real)
    ensures Mul(x, y) == x * y
  {
  }

  lemma QuotIs(x: real, y: real)
    requires y != 0.0
    ensures Quot(x, y) == x / y
  {
  }

  lemma MulQuot(d: real, x: real)
    requires d != 0.0
    ensures Mul(d, Quot(x, d)) == x && Quot(Mul(d, x), d) == x
    ensures Mul(x, Quot(1.0, d)) == Quot(x, d) && Quot(d, d) == 1.0
  {
  }

  lemma MulAssoc(x: real, y: real, z: real)
    ensures Mul(x, Mul(y, z)) == Mul(Mul(x, y), z)
  {
  }

  lemma MulUndo(d: real, x: real)
    requires d != 0.0
    ensures Mul(Mul(d, x), Quot(1.0, d)) == x
  {
  }

  lemma MulOne(x: real)
    ensures Mul(1.0, x) == x
  {
  }

  // ---------------------------------------------------------------------------------------------
  // The factorization of the upper triangle of a symmetric matrix, starting at row lo
  // ---------------------------------------------------------------------------------------------

  /** The pivot k. */
  ghost function D(a: Mat, lo: nat, k: nat): real
    decreases k, 1
  {
    a(k, k) - S(a, lo, k, k, k)
  }

  /** The entry (k,j) of the unit triangular factor. */
  ghost function U(a: Mat, lo: nat, k: nat, j: nat): real
    decreases k, 2
  {
    if D(a, lo, k) == 0.0 then 0.0 else Quot(a(k, j) - S(a, lo, k, k, j), D(a, lo, k))
  }

  /** The terms lo..m-1 of the product U'DU in place (i,j). */
  ghost function S(a: Mat, lo: nat, m: nat, i: nat, j: nat): real
    decreases m, 0
  {
    if m <= lo then 0.0 else S(a, lo, m - 1, i, j) + Mul(Mul(U(a, lo, m - 1, i), D(a, lo, m - 1)), U(a, lo, m - 1, j))
  }

  ghost predicate PivotsNonZero(a: Mat, lo: nat, hi: nat) { forall k :: lo <= k < hi ==> D(a, lo, k) != 0.0 }

  /** What the factored triangle stores. */
  ghost function Final(a: Mat, lo: nat, i: nat, j: nat): real { if i == j then D(a, lo, i) else U(a, lo, i, j) }

  lemma LastTerm(a: Mat, lo: nat, k: nat, i: nat, j: nat)
    requires lo <= k
    ensures S(a, lo, k + 1, i, j) == S(a, lo, k, i, j) + Mul(Mul(U(a, lo, k, i), D(a, lo, k)), U(a, lo, k, j))
  {
  }

  lemma EntryTimesPivot(a: Mat, lo: nat, k: nat, j: nat)
    requires D(a, lo, k) != 0.0
    ensures Mul(D(a, lo, k), U(a, lo, k, j)) == a(k, j) - S(a, lo, k, k, j)
  {
    MulQuot(D(a, lo, k), a(k, j) - S(a, lo, k, k, j));
  }

  lemma UnitDiagonal(a: Mat, lo: nat, k: nat)
    requires D(a, lo, k) != 0.0
    ensures U(a, lo, k, k) == 1.0
  {
    MulQuot(D(a, lo, k), 0.0);
  }

  /** U has a unit diagonal and U'DU is the matrix. */
  lemma IsFactorization(a: Mat, n: nat, i: nat, j: nat)
    requires PivotsNonZero(a, 0, n) && i <= j && i < n
    ensures U(a, 0, i, i) == 1.0
    ensures a(i, j) == S(a, 0, i + 1, i, j)
  {
    UnitDiagonal(a, 0, i);
    LastTerm(a, 0, i, i, j);
    EntryTimesPivot(a, 0, i, j);
    MulOne(D(a, 0, i));
  }

  /** The first m terms of the product for any factor u with pivots d. */
  ghost function Product(u: Mat, d: nat -> real, m: nat, i: nat, j: nat): real {
    if m == 0 then 0.0 else Product(u, d, m - 1, i, j) + Mul(Mul(u(m - 1, i), d(m - 1)), u(m - 1, j))
  }

  ghost predicate Factors(a: Mat, n: nat, u: Mat, d: nat -> real) {
    && (forall k :: 0 <= k < n ==> d(k) != 0.0 && u(k, k) == 1.0)
    && (forall i: nat, j: nat :: i <= j < n ==> a(i, j) == Product(u, d, i + 1, i, j))
  }

  lemma LastFactor(u: Mat, d: nat -> real, k: nat, j: nat)
    requires u(k, k) == 1.0
    ensures Product(u, d, k + 1, k, j) == Product(u, d, k, k, j) + Mul(d(k), u(k, j))
  {
    MulOne(d(k));
  }

  lemma UniquePivot(a: Mat, n: nat, u: Mat, d: nat -> real, k: nat)
    requires Factors(a, n, u, d) && k < n && S(a, 0, k, k, k) == Product(u, d, k, k, k)
    ensures D(a, 0, k) == d(k)
  {
    LastFactor(u, d, k, k);
    assert a(k, k) == Product(u, d, k + 1, k, k);
    MulIs(d(k), 1.0);
  }

  lemma UniqueEntry(a: Mat, k: nat, j: nat, d: real, x: real)
    requires D(a, 0, k) == d != 0.0 && a(k, j) == S(a, 0, k, k, j) + Mul(d, x)
    ensures U(a, 0, k, j) == x
  {
    MulQuot(d, x);
  }

  /** The factorization is unique: any unit triangular u with nonzero pivots d and u'du = a is (U, D). */
  lemma {:induction false} FactorsUnique(a: Mat, n: nat, u: Mat, d: nat -> real, k: nat)
    requires Factors(a, n, u, d) && k < n
    ensures D(a, 0, k) == d(k) && forall j :: k <= j < n ==> U(a, 0, k, j) == u(k, j)
    decreases k
  {
    SameProduct(a, n, u, d, k, k, k);
    UniquePivot(a, n, u, d, k);
    forall j | k <= j < n
      ensures U(a, 0, k, j) == u(k, j)
    {
      SameProduct(a, n, u, d, k, k, j);
      LastFactor(u, d, k, j);
      assert a(k, j) == Product(u, d, k + 1, k, j);
      UniqueEntry(a, k, j, d(k), u(k, j));
    }
  }

  lemma {:induction false} SameProduct(a: Mat, n: nat, u: Mat, d: nat -> real, m: nat, i: nat, j: nat)
    requires Factors(a, n, u, d) && m <= i <= j < n
    ensures S(a, 0, m, i, j) == Product(u, d, m, i, j)
    decreases m, 0
  {
    if m > 0 {
      SameProduct(a, n, u, d, m - 1, i, j);
      FactorsUnique(a, n, u, d, m - 1);
    }
  }

  /** `left` is what is left of `a` in the upper triangle of rows and columns b..hi-1 after the pivots before b. */
  ghost predicate Schur(a: Mat, left: Mat, b: nat, hi: nat) {
    forall i: nat, j: nat {:trigger left(i, j)} :: b <= i <= j < hi ==> left(i, j) == a(i, j) - S(a, 0, b, i, j)
  }

  /** Factoring what is left continues the factorization. */
  lemma {:induction false} SchurPivot(a: Mat, left: Mat, b: nat, hi: nat, k: nat)
    requires Schur(a, left, b, hi) && b <= k < hi
    ensures D(left, b, k) == D(a, 0, k)
    decreases k, 1
  {
    SchurSum(a, left, b, hi, k, k, k);
  }

  lemma {:induction false} SchurEntry(a: Mat, left: Mat, b: nat, hi: nat, k: nat, j: nat)
    requires Schur(a, left, b, hi) && b <= k <= j < hi
    ensures U(left, b, k, j) == U(a, 0, k, j)
    decreases k, 2
  {
    SchurPivot(a, left, b, hi, k);
    SchurSum(a, left, b, hi, k, k, j);
  }

  lemma {:induction false} SchurSum(a: Mat, left: Mat, b: nat, hi: nat, m: nat, i: nat, j: nat)
    requires Schur(a, left, b, hi) && b <= m <= i <= j < hi
    ensures S(a, 0, m, i, j) == S(a, 0, b, i, j) + S(left, b, m, i, j)
    decreases m, 0
  {
    if m > b {
      SchurSum(a, left, b, hi, m - 1, i, j);
      SchurEntry(a, left, b, hi, m - 1, i);
      SchurEntry(a, left, b, hi, m - 1, j);
      SchurPivot(a, left, b, hi, m - 1);
      LastTerm(a, 0, m - 1, i, j);
      LastTerm(left, b, m - 1, i, j);
    }
  }

  // ---------------------------------------------------------------------------------------------
  // The array and its view
  // ---------------------------------------------------------------------------------------------

  predicate InView(A: array2<real>, up: bool, i: nat, j: nat) {
    if up then i < A.Length0 && j < A.Length1 else j < A.Length0 && i < A.Length1
  }

  /** Entry (i,j) of the matrix for 'U', of its transpose for 'L'. */
  function View(A: array2<real>, up: bool, i: nat, j: nat): real
    requires InView(A, up, i, j)
    reads A
  {
    if up then A[i, j] else A[j, i]
  }

  method SetView(A: array2<real>, up: bool, i: nat, j: nat, x: real, ghost m: Mat)
    requires InView(A, up, i, j) && Is(A, up, m)
    modifies A
    ensures Is(A, up, With(m, i, j, x))
  {
    if up {
      A[i, j] := x;
    } else {
      A[j, i] := x;
    }
  }

  ghost predicate Is(A: array2<real>, up: bool, m: Mat)
    reads A
  {
    forall i: nat, j: nat {:trigger m(i, j)} {:trigger InView(A, up, i, j)} :: InView(A, up, i, j) ==> View(A, up, i, j) == m(i, j)
  }

  ghost function With(m: Mat, r: nat, c: nat, x: real): Mat {
    (i: nat, j: nat) => if i == r && j == c then x else m(i, j)
  }

  ghost predicate SameMat(m: Mat, m': Mat) { forall i: nat, j: nat {:trigger m'(i, j)} :: m(i, j) == m'(i, j) }

  lemma IsSame(A: array2<real>, up: bool, m: Mat, m': Mat)
    requires Is(A, up, m) && SameMat(m, m')
    ensures Is(A, up, m')
  {
    forall i: nat, j: nat | InView(A, up, i, j)
      ensures View(A, up, i, j) == m'(i, j)
    {
      assert m(i, j) == m'(i, j);
    }
  }

  // ---------------------------------------------------------------------------------------------
  // BLAS, by what the calls compute
  // ---------------------------------------------------------------------------------------------

  /** The products of w with the entries lo..hi-1 of column c. */
  ghost function Sum(w: nat -> real, m: Mat, lo: nat, hi: nat, c: nat): real {
    if hi <= lo then 0.0 else Sum(w, m, lo, hi - 1, c) + Mul(w(hi - 1), m(hi - 1, c))
  }

  lemma {:induction false} SumSame(w: nat -> real, m: Mat, m': Mat, lo: nat, hi: nat, c: nat)
    requires forall l: nat :: lo <= l < hi ==> m(l, c) == m'(l, c)
    ensures Sum(w, m, lo, hi, c) == Sum(w, m', lo, hi, c)
  {
    if hi > lo {
      SumSame(w, m, m', lo, hi - 1, c);
    }
  }

  ghost predicate Holds(work: array<real>, lo: nat, hi: nat, w: nat -> real)
    reads work
  {
    HoldsPart(work, lo, lo, hi, w)
  }

  ghost predicate HoldsPart(work: array<real>, lo: nat, first: nat, hi: nat, w: nat -> real)
    requires lo <= first
    reads work
  {
    hi - lo <= work.Length && forall l: nat {:trigger w(l)} :: first <= l < hi ==> work[l - lo] == w(l)
  }

  /** The scalar product of WORK with the entries lo..hi-1 of column c. */
  method Dot(A: array2<real>, up: bool, work: array<real>, lo: nat, hi: nat, c: nat, ghost w: nat -> real, ghost m: Mat)
    returns (s: real)
    requires lo <= hi && Holds(work, lo, hi, w) && Is(A, up, m) && (lo < hi ==> InView(A, up, hi - 1, c))
    ensures s == Sum(w, m, lo, hi, c)
  {
    s := 0.0;
    for l := lo to hi
      invariant s == Sum(w, m, lo, l, c)
    {
      assert InView(A, up, l, c) && work[l - lo] == w(l);
      MulIs(w(l), m(l, c));
      s := s + work[l - lo] * View(A, up, l, c);
    }
  }

  ghost function RowMinus(m: Mat, w: nat -> real, lo: nat, row: nat, c0: nat, c1: nat): Mat {
    (i: nat, j: nat) => if i == row && c0 <= j < c1 then m(i, j) - Sum(w, m, lo, row, j) else m(i, j)
  }

  ghost function RowScaled(m: Mat, x: real, row: nat, c0: nat, c1: nat): Mat {
    (i: nat, j: nat) => if i == row && c0 <= j < c1 then Mul(m(i, j), x) else m(i, j)
  }

  lemma RowMinusNext(m: Mat, w: nat -> real, lo: nat, row: nat, c0: nat, c: nat)
    requires c0 <= c
    ensures SameMat(m, RowMinus(m, w, lo, row, c0, c0))
    ensures SameMat(With(RowMinus(m, w, lo, row, c0, c), row, c, m(row, c) - Sum(w, m, lo, row, c)), RowMinus(m, w, lo, row, c0, c + 1))
  {
  }

  lemma RowScaledNext(m: Mat, x: real, row: nat, c0: nat, c: nat)
    requires c0 <= c
    ensures SameMat(m, RowScaled(m, x, row, c0, c0))
    ensures SameMat(With(RowScaled(m, x, row, c0, c), row, c, Mul(m(row, c), x)), RowScaled(m, x, row, c0, c + 1))
  {
  }

  /** From the entries c0..c1-1 of a row subtract the products of WORK with the rows lo..row-1. */
  method Gemv(A: array2<real>, up: bool, work: array<real>, lo: nat, row: nat, c0: nat, c1: nat,
              ghost w: nat -> real, ghost m: Mat)
    requires lo <= row && Holds(work, lo, row, w) && Is(A, up, m) && c0 < c1 && InView(A, up, row, c1 - 1)
    requires A as object != work
    modifies A
    ensures Is(A, up, RowMinus(m, w, lo, row, c0, c1))
  {
    RowMinusNext(m, w, lo, row, c0, c0);
    IsSame(A, up, m, RowMinus(m, w, lo, row, c0, c0));
    for c := c0 to c1
      invariant Is(A, up, RowMinus(m, w, lo, row, c0, c))
    {
      ghost var mc := RowMinus(m, w, lo, row, c0, c);
      assert InView(A, up, row, c) && mc(row, c) == m(row, c);
      var s := Dot(A, up, work, lo, row, c, w, mc);
      SumSame(w, m, mc, lo, row, c);
      SetView(A, up, row, c, View(A, up, row, c) - s, mc);
      RowMinusNext(m, w, lo, row, c0, c);
      IsSame(A, up, With(mc, row, c, m(row, c) - s), RowMinus(m, w, lo, row, c0, c + 1));
    }
  }

  method Scal(A: array2<real>, up: bool, row: nat, c0: nat, c1: nat, x: real, ghost m: Mat)
    requires Is(A, up, m) && c0 < c1 && InView(A, up, row, c1 - 1)
    modifies A
    ensures Is(A, up, RowScaled(m, x, row, c0, c1))
  {
    RowScaledNext(m, x, row, c0, c0);
    IsSame(A, up, m, RowScaled(m, x, row, c0, c0));
    for c := c0 to c1
      invariant Is(A, up, RowScaled(m, x, row, c0, c))
    {
      ghost var mc := RowScaled(m, x, row, c0, c);
      assert InView(A, up, row, c) && mc(row, c) == m(row, c);
      MulIs(m(row, c), x);
      SetView(A, up, row, c, View(A, up, row, c) * x, mc);
      RowScaledNext(m, x, row, c0, c);
      IsSame(A, up, With(mc, row, c, Mul(m(row, c), x)), RowScaled(m, x, row, c0, c + 1));
    }
  }

  // ---------------------------------------------------------------------------------------------
  // The unblocked kernel on rows and columns lo..hi-1
  // ---------------------------------------------------------------------------------------------

  /** The rows before k are factored. */
  ghost function Factored(m: Mat, lo: nat, hi: nat, k: nat): Mat {
    (i: nat, j: nat) => if lo <= i <= j < hi && i < k then Final(m, lo, i, j) else m(i, j)
  }

  /** The state after the pivot k was found to be zero. */
  ghost function Stopped(m: Mat, lo: nat, hi: nat, k: nat): Mat {
    With(Factored(m, lo, hi, k), k, k, 0.0)
  }

  lemma FactoredEntry(m: Mat, lo: nat, hi: nat, k: nat, i: nat, j: nat)
    requires lo <= i <= j < hi && i < k
    ensures Factored(m, lo, hi, k)(i, j) == if i == j then D(m, lo, i) else U(m, lo, i, j)
  {
    assert Factored(m, lo, hi, k)(i, j) == Final(m, lo, i, j);
  }

  ghost function WorkOf(a: Mat, lo: nat, k: nat): nat -> real { (l: nat) => Mul(U(a, lo, l, k), D(a, lo, l)) }

  lemma {:induction false} SumIsS(m: Mat, lo: nat, hi: nat, k: nat, c: nat, l: nat)
    requires l <= k <= c < hi
    ensures Sum(WorkOf(m, lo, k), Factored(m, lo, hi, k), lo, l, c) == S(m, lo, l, k, c)
  {
    if l > lo {
      SumIsS(m, lo, hi, k, c, l - 1);
      FactoredEntry(m, lo, hi, k, l - 1, c);
    }
  }

  /** WORK becomes column k times the pivots. */
  method LoadWork(A: array2<real>, up: bool, work: array<real>, lo: nat, hi: nat, k: nat, ghost m: Mat)
    requires lo <= k < hi && hi - lo <= work.Length && InView(A, up, hi - 1, hi - 1)
    requires Is(A, up, Factored(m, lo, hi, k)) && A as object != work
    modifies work
    ensures Holds(work, lo, k, WorkOf(m, lo, k))
  {
    ghost var mk := Factored(m, lo, hi, k);
    ghost var column: nat -> real := (l: nat) => U(m, lo, l, k);
    for l := lo to k
      invariant HoldsPart(work, lo, lo, l, column)
    {
      FactoredEntry(m, lo, hi, k, l, k);
      assert InView(A, up, l, k) && mk(l, k) == column(l);
      work[l - lo] := View(A, up, l, k);
    }
    for l := lo to k
      invariant HoldsPart(work, lo, lo, l, WorkOf(m, lo, k)) && HoldsPart(work, lo, l, k, column)
    {
      FactoredEntry(m, lo, hi, k, l, l);
      assert InView(A, up, l, l) && mk(l, l) == D(m, lo, l) && work[l - lo] == column(l);
      MulIs(U(m, lo, l, k), D(m, lo, l));
      work[l - lo] := work[l - lo] * View(A, up, l, l);
      assert work[l - lo] == WorkOf(m, lo, k)(l);
    }
  }

  /** Row k after the pivot was stored, the products subtracted and the row divided by the pivot. */
  ghost function NewRow(m: Mat, lo: nat, hi: nat, k: nat): Mat
    requires D(m, lo, k) != 0.0
  {
    var m1 := With(Factored(m, lo, hi, k), k, k, D(m, lo, k));
    if k + 1 < hi
    then RowScaled(RowMinus(m1, WorkOf(m, lo, k), lo, k, k + 1, hi), Quot(1.0, D(m, lo, k)), k, k + 1, hi)
    else m1
  }

  lemma NewRowIs(m: Mat, lo: nat, hi: nat, k: nat, i: nat, j: nat)
    requires lo <= k < hi && D(m, lo, k) != 0.0
    ensures NewRow(m, lo, hi, k)(i, j) == Factored(m, lo, hi, k + 1)(i, j)
  {
    if i == k && k < j < hi {
      var mk := Factored(m, lo, hi, k);
      var m1 := With(mk, k, k, D(m, lo, k));
      SumSame(WorkOf(m, lo, k), mk, m1, lo, k, j);
      SumIsS(m, lo, hi, k, j, k);
      MulQuot(D(m, lo, k), m(k, j) - S(m, lo, k, k, j));
    }
  }

  lemma NewRowFactored(m: Mat, lo: nat, hi: nat, k: nat)
    requires lo <= k < hi && D(m, lo, k) != 0.0
    ensures SameMat(NewRow(m, lo, hi, k), Factored(m, lo, hi, k + 1))
  {
    forall i: nat, j: nat
      ensures NewRow(m, lo, hi, k)(i, j) == Factored(m, lo, hi, k + 1)(i, j)
    {
      NewRowIs(m, lo, hi, k, i, j);
    }
  }

  /** The pivot of row k. */
  method Pivot(A: array2<real>, up: bool, work: array<real>, lo: nat, hi: nat, k: nat, ghost m: Mat) returns (ajj: real)
    requires lo <= k < hi && hi - lo <= work.Length && InView(A, up, hi - 1, hi - 1)
    requires Is(A, up, Factored(m, lo, hi, k)) && A as object != work
    modifies work
    ensures Holds(work, lo, k, WorkOf(m, lo, k)) && ajj == D(m, lo, k)
  {
    ghost var mk := Factored(m, lo, hi, k);
    LoadWork(A, up, work, lo, hi, k, m);
    var s := Dot(A, up, work, lo, k, k, WorkOf(m, lo, k), mk);
    SumIsS(m, lo, hi, k, k, k);
    assert InView(A, up, k, k) && mk(k, k) == m(k, k);
    ajj := View(A, up, k, k) - s;
  }

  /** One pass of the loop: row k. */
  method FactorRow(A: array2<real>, up: bool, work: array<real>, lo: nat, hi: nat, k: nat, ghost m: Mat) returns (ok: bool)
    requires lo <= k < hi && hi - lo <= work.Length && InView(A, up, hi - 1, hi - 1)
    requires Is(A, up, Factored(m, lo, hi, k)) && A as object != work
    modifies A, work
    ensures ok <==> D(m, lo, k) != 0.0
    ensures Is(A, up, if ok then Factored(m, lo, hi, k + 1) else Stopped(m, lo, hi, k))
  {
    var ajj := Pivot(A, up, work, lo, hi, k, m);
    ghost var mk := Factored(m, lo, hi, k);
    SetView(A, up, k, k, ajj, mk);
    ok := ajj != 0.0;
    if ok {
      if k + 1 < hi {
        ghost var m1 := With(mk, k, k, ajj);
        Gemv(A, up, work, lo, k, k + 1, hi, WorkOf(m, lo, k), m1);
        QuotIs(1.0, ajj);
        Scal(A, up, k, k + 1, hi, 1.0 / ajj, RowMinus(m1, WorkOf(m, lo, k), lo, k, k + 1, hi));
      }
      NewRowFactored(m, lo, hi, k);
      IsSame(A, up, NewRow(m, lo, hi, k), Factored(m, lo, hi, k + 1));
    }
  }

  lemma NothingFactored(m: Mat, lo: nat, hi: nat)
    ensures SameMat(m, Factored(m, lo, hi, lo))
  {
  }

  /** The loop of Potf2_LDL: all rows, or the rows before the first zero pivot. */
  method FactorRows(A: array2<real>, up: bool, work: array<real>, lo: nat, hi: nat, ghost m: Mat) returns (info: nat)
    requires lo < hi && hi - lo <= work.Length && InView(A, up, hi - 1, hi - 1) && Is(A, up, m) && A as object != work
    modifies A, work
    ensures info <= hi - lo
    ensures info == 0 ==> PivotsNonZero(m, lo, hi) && Is(A, up, Factored(m, lo, hi, hi))
    ensures info > 0 ==> PivotsNonZero(m, lo, lo + info - 1) && D(m, lo, lo + info - 1) == 0.0
    ensures info > 0 ==> Is(A, up, Stopped(m, lo, hi, lo + info - 1))
  {
    NothingFactored(m, lo, hi);
    IsSame(A, up, m, Factored(m, lo, hi, lo));
    for k := lo to hi
      invariant PivotsNonZero(m, lo, k) && Is(A, up, Factored(m, lo, hi, k))
    {
      var ok := FactorRow(A, up, work, lo, hi, k, m);
      if !ok {
        return k - lo + 1;
      }
    }
    info := 0;
  }

  // ---------------------------------------------------------------------------------------------
  // The blocked kernel
  // ---------------------------------------------------------------------------------------------

  const NB: nat := 64

  function BlockStart(i: nat): nat { i / NB * NB }

  /** Rows and columns before b are done.  The triangle that is not referenced is changed only inside the
      diagonal blocks, where the update of the whole block reaches it. */
  ghost function Blocked(a: Mat, n: nat, b: nat): Mat {
    (i: nat, j: nat) =>
      if i <= j < n && i < b then Final(a, 0, i, j)
      else if j < i < n && i < b && BlockStart(i) == BlockStart(j) then a(i, j) - S(a, 0, BlockStart(i), i, j)
      else a(i, j)
  }

  lemma BlockedEntry(a: Mat, n: nat, b: nat, i: nat, j: nat)
    requires i <= j < n && i < b
    ensures Blocked(a, n, b)(i, j) == if i == j then D(a, 0, i) else U(a, 0, i, j)
  {
    assert Blocked(a, n, b)(i, j) == Final(a, 0, i, j);
  }

  /** The diagonal block b..e-1 after the products of the earlier rows were subtracted from all of it. */
  ghost function Updated(a: Mat, n: nat, b: nat, e: nat): Mat {
    (i: nat, j: nat) => if b <= i < e && b <= j < e then a(i, j) - S(a, 0, b, i, j) else Blocked(a, n, b)(i, j)
  }

  /** The block row: its first s rows are final, the next ones up to k lack the division by the pivot, in the
      others only the products of the earlier rows were subtracted. */
  ghost function Panel(a: Mat, n: nat, b: nat, e: nat, k: nat, s: nat): Mat {
    (i: nat, j: nat) =>
      if b <= i < e && e <= j < n then
        if i < s then U(a, 0, i, j) else if i < k then Mul(D(a, 0, i), U(a, 0, i, j)) else a(i, j) - S(a, 0, b, i, j)
      else Done(a, n, b, e, e)(i, j)
  }

  /** The diagonal block with the rows before k factored, the block row still untouched. */
  ghost function Done(a: Mat, n: nat, b: nat, e: nat, k: nat): Mat {
    (i: nat, j: nat) =>
      if b <= i < e && b <= j < e then if i <= j && i < k then Final(a, 0, i, j) else a(i, j) - S(a, 0, b, i, j)
      else Blocked(a, n, b)(i, j)
  }

  lemma DoneEntry(a: Mat, n: nat, b: nat, e: nat, k: nat, i: nat, j: nat)
    requires b <= i <= j < e && i < k
    ensures Done(a, n, b, e, k)(i, j) == if i == j then D(a, 0, i) else U(a, 0, i, j)
  {
    assert Done(a, n, b, e, k)(i, j) == Final(a, 0, i, j);
  }

  lemma DoneOutside(a: Mat, n: nat, b: nat, e: nat, k: nat, i: nat, j: nat)
    requires !(b <= i < e && b <= j < e)
    ensures Done(a, n, b, e, k)(i, j) == Blocked(a, n, b)(i, j)
  {
  }

  ghost function BlockMinus(m: Mat, a: Mat, b: nat, r0: nat, r1: nat, c0: nat, c1: nat): Mat {
    (i: nat, j: nat) => if r0 <= i < r1 && c0 <= j < c1 then m(i, j) - Sum(WorkOf(a, 0, i), m, 0, b, j) else m(i, j)
  }

  ghost predicate HoldsBlock(work: array2<real>, b: nat, e: nat, a: Mat)
    reads work
  {
    && work.Length0 >= e - b && work.Length1 >= b
    && forall r: nat, l: nat {:trigger U(a, 0, l, r)} :: b <= r < e && l < b ==> work[r - b, l] == Mul(U(a, 0, l, r), D(a, 0, l))
  }

  lemma {:induction false} BlockSumIsS(a: Mat, m: Mat, n: nat, b: nat, i: nat, j: nat, l: nat)
    requires l <= b && j < n && forall r: nat :: r < b ==> m(r, j) == U(a, 0, r, j)
    ensures Sum(WorkOf(a, 0, i), m, 0, l, j) == S(a, 0, l, i, j)
  {
    if l > 0 {
      BlockSumIsS(a, m, n, b, i, j, l - 1);
    }
  }

  /** WORK becomes the block of columns b..e-1 above row b, each row times its pivot, transposed. */
  method LoadBlock(A: array2<real>, up: bool, work: array2<real>, n: nat, b: nat, e: nat, ghost a: Mat)
    requires b <= e <= n && work.Length0 >= e - b && work.Length1 >= b && n > 0 && InView(A, up, n - 1, n - 1)
    requires Is(A, up, Blocked(a, n, b)) && A != work
    modifies work
    ensures HoldsBlock(work, b, e, a)
  {
    for l := 0 to b
      invariant forall r: nat, k: nat {:trigger U(a, 0, k, r)} :: b <= r < e && k < l ==> work[r - b, k] == Mul(U(a, 0, k, r), D(a, 0, k))
    {
      BlockedEntry(a, n, b, l, l);
      assert InView(A, up, l, l) && Blocked(a, n, b)(l, l) == D(a, 0, l);
      for r := b to e
        invariant forall r': nat, k: nat {:trigger U(a, 0, k, r')} :: b <= r' < e && k < l ==> work[r' - b, k] == Mul(U(a, 0, k, r'), D(a, 0, k))
        invariant forall r': nat {:trigger U(a, 0, l, r')} :: b <= r' < r ==> work[r' - b, l] == Mul(U(a, 0, l, r'), D(a, 0, l))
      {
        BlockedEntry(a, n, b, l, r);
        assert InView(A, up, l, r) && Blocked(a, n, b)(l, r) == U(a, 0, l, r);
        MulIs(U(a, 0, l, r), D(a, 0, l));
        work[r - b, l] := View(A, up, l, r) * View(A, up, l, l);
      }
    }
  }

  /** The scalar product of a row of WORK with the entries 0..b-1 of column c. */
  method DotBlock(A: array2<real>, up: bool, work: array2<real>, b: nat, e: nat, r: nat, c: nat, ghost a: Mat, ghost m: Mat)
    returns (s: real)
    requires b <= r < e && HoldsBlock(work, b, e, a) && Is(A, up, m) && (b > 0 ==> InView(A, up, b - 1, c))
    ensures s == Sum(WorkOf(a, 0, r), m, 0, b, c)
  {
    s := 0.0;
    for l := 0 to b
      invariant s == Sum(WorkOf(a, 0, r), m, 0, l, c)
    {
      assert InView(A, up, l, c) && work[r - b, l] == Mul(U(a, 0, l, r), D(a, 0, l));
      MulIs(work[r - b, l], m(l, c));
      s := s + work[r - b, l] * View(A, up, l, c);
    }
  }

  lemma BlockMinusNext(m: Mat, a: Mat, b: nat, r0: nat, r: nat, c0: nat, c1: nat, c: nat, m': Mat)
    requires r0 <= r && c0 <= c < c1
    requires m' == With(Mixed(m, a, b, r0, r, c0, c1, c), r, c, m(r, c) - Sum(WorkOf(a, 0, r), m, 0, b, c))
    ensures SameMat(m', Mixed(m, a, b, r0, r, c0, c1, c + 1))
  {
  }

  /** Rows r0..r-1 are done, row r up to column c. */
  ghost function Mixed(m: Mat, a: Mat, b: nat, r0: nat, r: nat, c0: nat, c1: nat, c: nat): Mat {
    (i: nat, j: nat) =>
      if (r0 <= i < r && c0 <= j < c1) || (i == r && c0 <= j < c) then m(i, j) - Sum(WorkOf(a, 0, i), m, 0, b, j) else m(i, j)
  }

  lemma MixedEnds(m: Mat, a: Mat, b: nat, r0: nat, r: nat, c0: nat, c1: nat)
    requires r0 <= r && c0 <= c1
    ensures SameMat(BlockMinus(m, a, b, r0, r, c0, c1), Mixed(m, a, b, r0, r, c0, c1, c0))
    ensures SameMat(Mixed(m, a, b, r0, r, c0, c1, c1), BlockMinus(m, a, b, r0, r + 1, c0, c1))
    ensures SameMat(m, BlockMinus(m, a, b, r0, r0, c0, c1))
  {
  }

  /** From rows b..e-1 in columns c0..c1-1 subtract WORK times the rows before b. */
  method Gemm(A: array2<real>, up: bool, work: array2<real>, b: nat, e: nat, c0: nat, c1: nat, ghost a: Mat, ghost m: Mat)
    requires b < e && HoldsBlock(work, b, e, a) && c0 < c1 && InView(A, up, e - 1, c1 - 1) && Is(A, up, m) && A != work
    modifies A
    ensures Is(A, up, BlockMinus(m, a, b, b, e, c0, c1))
  {
    MixedEnds(m, a, b, b, b, c0, c1);
    IsSame(A, up, m, BlockMinus(m, a, b, b, b, c0, c1));
    for r := b to e
      invariant Is(A, up, BlockMinus(m, a, b, b, r, c0, c1))
    {
      MixedEnds(m, a, b, b, r, c0, c1);
      IsSame(A, up, BlockMinus(m, a, b, b, r, c0, c1), Mixed(m, a, b, b, r, c0, c1, c0));
      for c := c0 to c1
        invariant Is(A, up, Mixed(m, a, b, b, r, c0, c1, c))
      {
        GemmEntry(A, up, work, b, e, c0, c1, r, c, a, m);
      }
      IsSame(A, up, Mixed(m, a, b, b, r, c0, c1, c1), BlockMinus(m, a, b, b, r + 1, c0, c1));
    }
  }

  method GemmEntry(A: array2<real>, up: bool, work: array2<real>, b: nat, e: nat, c0: nat, c1: nat, r: nat, c: nat,
                   ghost a: Mat, ghost m: Mat)
    requires b <= r < e && HoldsBlock(work, b, e, a) && c0 <= c < c1 && InView(A, up, e - 1, c1 - 1) && A != work
    requires Is(A, up, Mixed(m, a, b, b, r, c0, c1, c))
    modifies A
    ensures Is(A, up, Mixed(m, a, b, b, r, c0, c1, c + 1))
  {
    ghost var mc := Mixed(m, a, b, b, r, c0, c1, c);
    assert InView(A, up, r, c) && mc(r, c) == m(r, c);
    var s := DotBlock(A, up, work, b, e, r, c, a, mc);
    SumSame(WorkOf(a, 0, r), m, mc, 0, b, c);
    SetView(A, up, r, c, View(A, up, r, c) - s, mc);
    ghost var m' := With(mc, r, c, m(r, c) - s);
    BlockMinusNext(m, a, b, b, r, c0, c1, c, m');
    IsSame(A, up, m', Mixed(m, a, b, b, r, c0, c1, c + 1));
  }

  // ---------------------------------------------------------------------------------------------
  // The diagonal block
  // ---------------------------------------------------------------------------------------------

  lemma UpdatedIs(a: Mat, n: nat, b: nat, e: nat)
    requires b <= e <= n
    ensures SameMat(BlockMinus(Blocked(a, n, b), a, b, b, e, b, e), Updated(a, n, b, e))
  {
    var m := Blocked(a, n, b);
    forall i: nat, j: nat
      ensures BlockMinus(m, a, b, b, e, b, e)(i, j) == Updated(a, n, b, e)(i, j)
    {
      if b <= i < e && b <= j < e {
        forall r: nat | r < b
          ensures m(r, j) == U(a, 0, r, j)
        {
          BlockedEntry(a, n, b, r, j);
        }
        BlockSumIsS(a, m, n, b, i, j, b);
      }
    }
  }

  lemma UpdatedSchur(a: Mat, n: nat, b: nat, e: nat)
    ensures Schur(a, Updated(a, n, b, e), b, e)
  {
  }

  /** Factoring the updated block gives the rows of the whole factorization. */
  lemma DoneIs(a: Mat, n: nat, b: nat, e: nat, k: nat)
    requires b <= k <= e <= n
    ensures SameMat(Factored(Updated(a, n, b, e), b, e, k), Done(a, n, b, e, k))
  {
    var m := Updated(a, n, b, e);
    UpdatedSchur(a, n, b, e);
    forall i: nat, j: nat
      ensures Factored(m, b, e, k)(i, j) == Done(a, n, b, e, k)(i, j)
    {
      if b <= i <= j < e && i < k {
        SchurPivot(a, m, b, e, i);
        SchurEntry(a, m, b, e, i, j);
        FactoredEntry(m, b, e, k, i, j);
        DoneEntry(a, n, b, e, k, i, j);
      }
    }
  }

  lemma BlockPivots(a: Mat, n: nat, b: nat, e: nat, k: nat)
    requires b <= k <= e <= n && PivotsNonZero(a, 0, b) && PivotsNonZero(Updated(a, n, b, e), b, k)
    ensures PivotsNonZero(a, 0, k)
    ensures k < e ==> D(Updated(a, n, b, e), b, k) == D(a, 0, k)
  {
    var m := Updated(a, n, b, e);
    UpdatedSchur(a, n, b, e);
    forall i | b <= i < k
      ensures D(a, 0, i) != 0.0
    {
      SchurPivot(a, m, b, e, i);
    }
    if k < e {
      SchurPivot(a, m, b, e, k);
    }
  }

  /** What is left when the pivot p of the block b..e-1 is zero. */
  ghost function BlockStopped(a: Mat, n: nat, b: nat, e: nat, p: nat): Mat {
    With(Done(a, n, b, e, p), p, p, 0.0)
  }

  lemma BlockStoppedIs(a: Mat, n: nat, b: nat, e: nat, p: nat)
    requires b <= p < e <= n
    ensures SameMat(Stopped(Updated(a, n, b, e), b, e, p), BlockStopped(a, n, b, e, p))
  {
    DoneIs(a, n, b, e, p);
    var m, m' := Factored(Updated(a, n, b, e), b, e, p), Done(a, n, b, e, p);
    forall i: nat, j: nat
      ensures With(m, p, p, 0.0)(i, j) == With(m', p, p, 0.0)(i, j)
    {
      assert m(i, j) == m'(i, j);
    }
  }

  method UpdateBlock(A: array2<real>, up: bool, work: array2<real>, n: nat, b: nat, e: nat, ghost a: Mat)
    requires b < e <= n && InView(A, up, n - 1, n - 1) && A != work && HoldsBlock(work, b, e, a)
    requires Is(A, up, Blocked(a, n, b))
    modifies A
    ensures Is(A, up, Updated(a, n, b, e))
  {
    ghost var m := Blocked(a, n, b);
    Gemm(A, up, work, b, e, b, e, a, m);
    UpdatedIs(a, n, b, e);
    IsSame(A, up, BlockMinus(m, a, b, b, e, b, e), Updated(a, n, b, e));
  }

  lemma BlockInfo(A: array2<real>, up: bool, a: Mat, n: nat, b: nat, e: nat, info: nat)
    requires b < e <= n && info <= e - b && PivotsNonZero(a, 0, b)
    requires var m := Updated(a, n, b, e);
             if info == 0 then PivotsNonZero(m, b, e) && Is(A, up, Factored(m, b, e, e))
             else PivotsNonZero(m, b, b + info - 1) && D(m, b, b + info - 1) == 0.0 && Is(A, up, Stopped(m, b, e, b + info - 1))
    ensures if info == 0 then PivotsNonZero(a, 0, e) && Is(A, up, Done(a, n, b, e, e))
            else PivotsNonZero(a, 0, b + info - 1) && D(a, 0, b + info - 1) == 0.0 && Is(A, up, BlockStopped(a, n, b, e, b + info - 1))
  {
    if info == 0 {
      BlockPivots(a, n, b, e, e);
      DoneIs(a, n, b, e, e);
      IsSame(A, up, Factored(Updated(a, n, b, e), b, e, e), Done(a, n, b, e, e));
    } else {
      BlockPivots(a, n, b, e, b + info - 1);
      BlockStoppedIs(a, n, b, e, b + info - 1);
      IsSame(A, up, Stopped(Updated(a, n, b, e), b, e, b + info - 1), BlockStopped(a, n, b, e, b + info - 1));
    }
  }

  /** Update and factor the diagonal block. */
  method FactorBlock(A: array2<real>, up: bool, work: array2<real>, n: nat, b: nat, e: nat, ghost a: Mat) returns (info: nat)
    requires b < e <= n && InView(A, up, n - 1, n - 1) && A != work && HoldsBlock(work, b, e, a)
    requires Is(A, up, Blocked(a, n, b)) && PivotsNonZero(a, 0, b)
    modifies A
    ensures info <= e - b
    ensures if info == 0 then PivotsNonZero(a, 0, e) && Is(A, up, Done(a, n, b, e, e))
            else PivotsNonZero(a, 0, b + info - 1) && D(a, 0, b + info - 1) == 0.0 && Is(A, up, BlockStopped(a, n, b, e, b + info - 1))
  {
    UpdateBlock(A, up, work, n, b, e, a);
    var vector := new real[e - b];
    info := FactorRows(A, up, vector, b, e, Updated(a, n, b, e));
    BlockInfo(A, up, a, n, b, e, info);
  }

  // ---------------------------------------------------------------------------------------------
  // The block row
  // ---------------------------------------------------------------------------------------------

  lemma PanelStart(a: Mat, n: nat, b: nat, e: nat)
    requires b <= e <= n
    ensures SameMat(BlockMinus(Done(a, n, b, e, e), a, b, b, e, e, n), Panel(a, n, b, e, b, b))
  {
    var m := Done(a, n, b, e, e);
    forall i: nat, j: nat
      ensures BlockMinus(m, a, b, b, e, e, n)(i, j) == Panel(a, n, b, e, b, b)(i, j)
    {
      if b <= i < e && e <= j < n {
        forall r: nat | r < b
          ensures m(r, j) == U(a, 0, r, j)
        {
          DoneOutside(a, n, b, e, e, r, j);
          BlockedEntry(a, n, b, r, j);
        }
        BlockSumIsS(a, m, n, b, i, j, b);
        assert m(i, j) == a(i, j);
        assert Panel(a, n, b, e, b, b)(i, j) == a(i, j) - S(a, 0, b, i, j);
      }
    }
  }

  /** The products of column r of the diagonal block with the solved rows of column c. */
  ghost function SolvedSum(m: Mat, b: nat, hi: nat, r: nat, c: nat): real {
    if hi <= b then 0.0 else SolvedSum(m, b, hi - 1, r, c) + Mul(m(hi - 1, r), m(hi - 1, c))
  }

  lemma {:induction false} SolvedSumIsS(a: Mat, m: Mat, n: nat, b: nat, e: nat, r: nat, c: nat, hi: nat)
    requires b <= hi <= r < e <= c < n
    requires forall l: nat :: b <= l < r ==> m(l, r) == U(a, 0, l, r) && m(l, c) == Mul(D(a, 0, l), U(a, 0, l, c))
    ensures SolvedSum(m, b, hi, r, c) == S(a, 0, hi, r, c) - S(a, 0, b, r, c)
  {
    if hi > b {
      SolvedSumIsS(a, m, n, b, e, r, c, hi - 1);
      LastTerm(a, 0, hi - 1, r, c);
      MulAssoc(U(a, 0, hi - 1, r), D(a, 0, hi - 1), U(a, 0, hi - 1, c));
    }
  }

  /** One entry of the triangular solve with the transposed unit triangular block. */
  method TrsmEntry(A: array2<real>, up: bool, n: nat, b: nat, e: nat, r: nat, c: nat, ghost m: Mat)
    requires b <= r < e <= c < n && InView(A, up, n - 1, n - 1) && Is(A, up, m)
    modifies A
    ensures Is(A, up, With(m, r, c, m(r, c) - SolvedSum(m, b, r, r, c)))
  {
    var s := 0.0;
    for l := b to r
      invariant s == SolvedSum(m, b, l, r, c) && Is(A, up, m)
    {
      assert InView(A, up, l, r) && InView(A, up, l, c);
      assert SolvedSum(m, b, l + 1, r, c) == SolvedSum(m, b, l, r, c) + Mul(m(l, r), m(l, c));
      MulIs(m(l, r), m(l, c));
      s := s + View(A, up, l, r) * View(A, up, l, c);
    }
    assert InView(A, up, r, c);
    SetView(A, up, r, c, View(A, up, r, c) - s, m);
  }

  /** Rows b..k-1 of the block row are solved, row k up to column c. */
  ghost function Solving(a: Mat, n: nat, b: nat, e: nat, k: nat, c: nat): Mat {
    (i: nat, j: nat) => if i == k && e <= j < c then Mul(D(a, 0, i), U(a, 0, i, j)) else Panel(a, n, b, e, k, b)(i, j)
  }

  lemma SolvingEnds(a: Mat, n: nat, b: nat, e: nat, k: nat)
    requires b <= k < e < n
    ensures SameMat(Panel(a, n, b, e, k, b), Solving(a, n, b, e, k, e))
    ensures SameMat(Solving(a, n, b, e, k, n), Panel(a, n, b, e, k + 1, b))
  {
  }

  lemma SolvedValue(a: Mat, n: nat, b: nat, e: nat, k: nat, c: nat)
    requires b <= k < e <= c < n && D(a, 0, k) != 0.0
    ensures var m := Solving(a, n, b, e, k, c); m(k, c) - SolvedSum(m, b, k, k, c) == Mul(D(a, 0, k), U(a, 0, k, c))
  {
    var m := Solving(a, n, b, e, k, c);
    forall l: nat | b <= l < k
      ensures m(l, k) == U(a, 0, l, k) && m(l, c) == Mul(D(a, 0, l), U(a, 0, l, c))
    {
      assert Panel(a, n, b, e, k, b)(l, k) == Done(a, n, b, e, e)(l, k);
      DoneEntry(a, n, b, e, e, l, k);
      assert Panel(a, n, b, e, k, b)(l, c) == Mul(D(a, 0, l), U(a, 0, l, c));
    }
    SolvedSumIsS(a, m, n, b, e, k, c, k);
    assert m(k, c) == Panel(a, n, b, e, k, b)(k, c);
    EntryTimesPivot(a, 0, k, c);
  }

  lemma SolvingNext(a: Mat, n: nat, b: nat, e: nat, k: nat, c: nat, x: real)
    requires b <= k < e <= c < n && x == Mul(D(a, 0, k), U(a, 0, k, c))
    ensures SameMat(With(Solving(a, n, b, e, k, c), k, c, x), Solving(a, n, b, e, k, c + 1))
  {
  }

  /** The triangular solve on the block row. */
  method Trsm(A: array2<real>, up: bool, n: nat, b: nat, e: nat, ghost a: Mat)
    requires b < e < n && InView(A, up, n - 1, n - 1) && Is(A, up, Panel(a, n, b, e, b, b)) && PivotsNonZero(a, 0, e)
    modifies A
    ensures Is(A, up, Panel(a, n, b, e, e, b))
  {
    for k := b to e
      invariant Is(A, up, Panel(a, n, b, e, k, b))
    {
      SolvingEnds(a, n, b, e, k);
      IsSame(A, up, Panel(a, n, b, e, k, b), Solving(a, n, b, e, k, e));
      for c := e to n
        invariant Is(A, up, Solving(a, n, b, e, k, c))
      {
        ghost var m := Solving(a, n, b, e, k, c);
        TrsmEntry(A, up, n, b, e, k, c, m);
        SolvedValue(a, n, b, e, k, c);
        SolvingNext(a, n, b, e, k, c, m(k, c) - SolvedSum(m, b, k, k, c));
        IsSame(A, up, With(m, k, c, m(k, c) - SolvedSum(m, b, k, k, c)), Solving(a, n, b, e, k, c + 1));
      }
      IsSame(A, up, Solving(a, n, b, e, k, n), Panel(a, n, b, e, k + 1, b));
    }
  }

  lemma PanelScaled(a: Mat, n: nat, b: nat, e: nat, s: nat)
    requires b <= s < e < n && D(a, 0, s) != 0.0
    ensures SameMat(RowScaled(Panel(a, n, b, e, e, s), Quot(1.0, D(a, 0, s)), s, e, n), Panel(a, n, b, e, e, s + 1))
  {
    var x, scaled := Quot(1.0, D(a, 0, s)), Panel(a, n, b, e, e, s + 1);
    forall i: nat, j: nat
      ensures RowScaled(Panel(a, n, b, e, e, s), x, s, e, n)(i, j) == scaled(i, j)
    {
      if i == s && e <= j < n {
        MulUndo(D(a, 0, s), U(a, 0, s, j));
      }
    }
  }

  /** Every row of the block row is divided by its pivot. */
  method ScalePanel(A: array2<real>, up: bool, n: nat, b: nat, e: nat, ghost a: Mat)
    requires b < e < n && InView(A, up, n - 1, n - 1) && Is(A, up, Panel(a, n, b, e, e, b)) && PivotsNonZero(a, 0, e)
    modifies A
    ensures Is(A, up, Panel(a, n, b, e, e, e))
  {
    for s := b to e
      invariant Is(A, up, Panel(a, n, b, e, e, s))
    {
      ghost var m := Panel(a, n, b, e, e, s);
      assert InView(A, up, s, s) && m(s, s) == D(a, 0, s);
      var d := View(A, up, s, s);
      QuotIs(1.0, d);
      Scal(A, up, s, e, n, 1.0 / d, m);
      PanelScaled(a, n, b, e, s);
      IsSame(A, up, RowScaled(m, Quot(1.0, d), s, e, n), Panel(a, n, b, e, e, s + 1));
    }
  }

  lemma SameBlock(b: nat, e: nat, i: nat)
    requires b % NB == 0 && b <= i < e <= b + NB
    ensures BlockStart(i) == b
  {
  }

  lemma BlockCompleteAt(a: Mat, n: nat, b: nat, e: nat, i: nat, j: nat)
    requires b % NB == 0 && b <= e <= b + NB && e <= n && (e < n ==> e == b + NB)
    ensures Panel(a, n, b, e, e, e)(i, j) == Blocked(a, n, e)(i, j)
  {
    if b <= i < e {
      SameBlock(b, e, i);
      if b <= j < e {
        SameBlock(b, e, j);
        assert Panel(a, n, b, e, e, e)(i, j) == Done(a, n, b, e, e)(i, j);
      } else if j < b {
        assert BlockStart(j) <= j;
        assert Panel(a, n, b, e, e, e)(i, j) == Done(a, n, b, e, e)(i, j) == Blocked(a, n, b)(i, j);
      } else if j < n {
        assert Panel(a, n, b, e, e, e)(i, j) == U(a, 0, i, j);
      } else {
        assert Panel(a, n, b, e, e, e)(i, j) == Done(a, n, b, e, e)(i, j) == Blocked(a, n, b)(i, j);
      }
    } else {
      assert Panel(a, n, b, e, e, e)(i, j) == Done(a, n, b, e, e)(i, j) == Blocked(a, n, b)(i, j);
    }
  }

  lemma BlockComplete(a: Mat, n: nat, b: nat, e: nat)
    requires b % NB == 0 && b <= e <= b + NB && e <= n && (e < n ==> e == b + NB)
    ensures SameMat(Panel(a, n, b, e, e, e), Blocked(a, n, e))
  {
    forall i: nat, j: nat
      ensures Panel(a, n, b, e, e, e)(i, j) == Blocked(a, n, e)(i, j)
    {
      BlockCompleteAt(a, n, b, e, i, j);
    }
  }

  lemma DoneComplete(a: Mat, n: nat, b: nat)
    requires b % NB == 0 && b <= n <= b + NB
    ensures SameMat(Done(a, n, b, n, n), Blocked(a, n, n))
  {
    BlockComplete(a, n, b, n);
    forall i: nat, j: nat
      ensures Done(a, n, b, n, n)(i, j) == Blocked(a, n, n)(i, j)
    {
      assert Panel(a, n, b, n, n, n)(i, j) == Blocked(a, n, n)(i, j);
    }
  }

  /** One pass of the loop: the block b..e-1. */
  method BlockStep(A: array2<real>, up: bool, work: array2<real>, n: nat, b: nat, e: nat, ghost a: Mat) returns (info: nat)
    requires b < e <= n && InView(A, up, n - 1, n - 1) && A != work && work.Length0 >= e - b && work.Length1 >= b
    requires b % NB == 0 && e <= b + NB && (e < n ==> e == b + NB)
    requires Is(A, up, Blocked(a, n, b)) && PivotsNonZero(a, 0, b)
    modifies A, work
    ensures info <= e - b
    ensures info == 0 ==> PivotsNonZero(a, 0, e) && Is(A, up, Blocked(a, n, e))
    ensures info > 0 ==> PivotsNonZero(a, 0, b + info - 1) && D(a, 0, b + info - 1) == 0.0
    ensures info > 0 ==> Is(A, up, BlockStopped(a, n, b, e, b + info - 1))
  {
    LoadBlock(A, up, work, n, b, e, a);
    info := FactorBlock(A, up, work, n, b, e, a);
    if info != 0 {
      return;
    }
    if e < n {
      Gemm(A, up, work, b, e, e, n, a, Done(a, n, b, e, e));
      PanelStart(a, n, b, e);
      IsSame(A, up, BlockMinus(Done(a, n, b, e, e), a, b, b, e, e, n), Panel(a, n, b, e, b, b));
      Trsm(A, up, n, b, e, a);
      ScalePanel(A, up, n, b, e, a);
      BlockComplete(a, n, b, e);
      IsSame(A, up, Panel(a, n, b, e, e, e), Blocked(a, n, e));
    } else {
      DoneComplete(a, n, b);
      IsSame(A, up, Done(a, n, b, e, e), Blocked(a, n, e));
    }
  }

  function Min(x: nat, y: nat): nat { if x < y then x else y }

  function BlockEnd(n: nat, i: nat): nat { Min(BlockStart(i) + NB, n) }

  /** Blocks start at multiples of NB; only the last one may be shorter. */
  ghost predicate Boundary(n: nat, b: nat) { b <= n && (b % NB == 0 || b == n) }

  lemma NextBoundary(n: nat, b: nat)
    requires Boundary(n, b) && b < n
    ensures var e := Min(b + NB, n);
            b % NB == 0 && b < e <= n && e <= b + NB && (e < n ==> e == b + NB) && Boundary(n, e)
    ensures forall p: nat :: b <= p < Min(b + NB, n) ==> BlockStart(p) == b && BlockEnd(n, p) == Min(b + NB, n)
  {
    forall p: nat | b <= p < Min(b + NB, n)
      ensures BlockStart(p) == b
    {
      SameBlock(b, Min(b + NB, n), p);
    }
  }

  lemma NothingBlocked(a: Mat, n: nat)
    ensures SameMat(a, Blocked(a, n, 0))
  {
  }

  /** The loop over the blocks. */
  method FactorBlocks(A: array2<real>, up: bool, n: nat, ghost a: Mat) returns (info: nat)
    requires n > 0 && InView(A, up, n - 1, n - 1) && Is(A, up, a)
    modifies A
    ensures info <= n
    ensures info == 0 ==> PivotsNonZero(a, 0, n) && Is(A, up, Blocked(a, n, n))
    ensures info > 0 ==> PivotsNonZero(a, 0, info - 1) && D(a, 0, info - 1) == 0.0
    ensures info > 0 ==> Is(A, up, BlockStopped(a, n, BlockStart(info - 1), BlockEnd(n, info - 1), info - 1))
  {
    var work := new real[NB, n];
    NothingBlocked(a, n);
    IsSame(A, up, a, Blocked(a, n, 0));
    var b: nat := 0;
    while b < n
      invariant Boundary(n, b)
      invariant PivotsNonZero(a, 0, b) && Is(A, up, Blocked(a, n, b))
    {
      var e := Min(b + NB, n);
      NextBoundary(n, b);
      info := BlockStep(A, up, work, n, b, e, a);
      if info != 0 {
        return info + b;
      }
      b := e;
    }
    info := 0;
  }

  // ---------------------------------------------------------------------------------------------
  // The two routines
  // ---------------------------------------------------------------------------------------------

  ghost function Rows(A: array2<real>): (s: seq<seq<real>>)
    reads A
    ensures |s| == A.Length0 && forall i :: 0 <= i < |s| ==> |s[i]| == A.Length1 && forall j :: 0 <= j < A.Length1 ==> s[i][j] == A[i, j]
  {
    seq(A.Length0, i requires 0 <= i < A.Length0 reads A => seq(A.Length1, j requires 0 <= j < A.Length1 reads A => A[i, j]))
  }

  ghost function Contents(s: seq<seq<real>>, up: bool): Mat {
    (i: nat, j: nat) =>
      var r, c := if up then i else j, if up then j else i;
      if r < |s| && c < |s[r]| then s[r][c] else 0.0
  }

  lemma ContentsIs(A: array2<real>, up: bool)
    ensures Is(A, up, Contents(Rows(A), up))
  {
    forall i: nat, j: nat | InView(A, up, i, j)
      ensures View(A, up, i, j) == Contents(Rows(A), up)(i, j)
    {
    }
  }

  /** INFO: the number of the first zero pivot from k on, 0 if there is none. */
  ghost function FirstZeroPivot(a: Mat, k: nat, n: nat): nat
    decreases n - k
  {
    if k >= n then 0 else if D(a, 0, k) == 0.0 then k + 1 else FirstZeroPivot(a, k + 1, n)
  }

  lemma {:induction false} FirstZeroPivotIs(a: Mat, k: nat, n: nat, info: nat)
    requires k <= n && info <= n && (info == 0 ==> PivotsNonZero(a, 0, n))
    requires info > 0 ==> k < info && PivotsNonZero(a, 0, info - 1) && D(a, 0, info - 1) == 0.0
    ensures FirstZeroPivot(a, k, n) == info
    decreases n - k
  {
    if k < n && D(a, 0, k) != 0.0 {
      FirstZeroPivotIs(a, k + 1, n, info);
    }
  }

  /** The code for an illegal argument, 0 if all are legal. */
  function ArgumentInfo(uplo: char, n: nat, lda: nat): int {
    if uplo != 'U' && uplo != 'L' then -1
    else if n > 0x7FFFFFFF then -2
    else if lda < (if n > 1 then n else 1) then -4
    else 0
  }

  /** What the unblocked routine leaves. */
  ghost function Unblocked(a: Mat, n: nat, info: nat): Mat {
    if info == 0 then Factored(a, 0, n, n) else Stopped(a, 0, n, info - 1)
  }

  /** What the blocked loop leaves. */
  ghost function BlockedResult(a: Mat, n: nat, info: nat): Mat {
    if info == 0 then Blocked(a, n, n) else BlockStopped(a, n, BlockStart(info - 1), BlockEnd(n, info - 1), info - 1)
  }

  method Potf2_LDL(uplo: char, n: nat, A: array2<real>, work: array<real>) returns (info: int)
    requires A.Length1 >= n && work.Length >= n && A as object != work
    modifies A, work
    ensures ArgumentInfo(uplo, n, A.Length0) != 0 ==> info == ArgumentInfo(uplo, n, A.Length0) && Rows(A) == old(Rows(A))
    ensures ArgumentInfo(uplo, n, A.Length0) == 0 ==>
              var a := Contents(old(Rows(A)), uplo == 'U');
              && info == FirstZeroPivot(a, 0, n) && Is(A, uplo == 'U', Unblocked(a, n, info))
  {
    info := ArgumentInfo(uplo, n, A.Length0);
    if info != 0 {
      return;
    }
    var up := uplo == 'U';
    ghost var a := Contents(Rows(A), up);
    ContentsIs(A, up);
    if n == 0 {
      NothingFactored(a, 0, 0);
      IsSame(A, up, a, Factored(a, 0, 0, 0));
      return;
    }
    var k := FactorRows(A, up, work, 0, n, a);
    FirstZeroPivotIs(a, 0, n, k);
    info := k;
  }

  method Potrf_LDL(uplo: char, n: nat, A: array2<real>) returns (info: int)
    requires A.Length1 >= n
    modifies A
    ensures ArgumentInfo(uplo, n, A.Length0) != 0 ==> info == ArgumentInfo(uplo, n, A.Length0) && Rows(A) == old(Rows(A))
    ensures ArgumentInfo(uplo, n, A.Length0) == 0 ==>
              var a := Contents(old(Rows(A)), uplo == 'U');
              && info == FirstZeroPivot(a, 0, n)
              && Is(A, uplo == 'U', if NB >= n then Unblocked(a, n, info) else BlockedResult(a, n, info))
  {
    info := ArgumentInfo(uplo, n, A.Length0);
    if info != 0 {
      return;
    }
    var up := uplo == 'U';
    ghost var a := Contents(Rows(A), up);
    if n == 0 {
      ContentsIs(A, up);
      NothingFactored(a, 0, 0);
      IsSame(A, up, a, Factored(a, 0, 0, 0));
    } else if NB >= n {
      var work := new real[n];
      info := Potf2_LDL(uplo, n, A, work);
    } else {
      ContentsIs(A, up);
      var k := FactorBlocks(A, up, n, a);
      FirstZeroPivotIs(a, 0, n, k);
      info := k;
    }
  }

  // ---------------------------------------------------------------------------------------------
  // Blocked and unblocked
  // ---------------------------------------------------------------------------------------------

  /** Where a zero pivot p, in the block b..e-1, lets the two routines part: right of the block in the rows
      before p of the block, which only the unblocked routine has divided already, and inside the block from
      row p on, where only the blocked routine has subtracted the products of the rows before the block. */
  ghost predicate Parts(a: Mat, b: nat, p: nat, e: nat, i: nat, j: nat) {
    || (b <= i < p && e <= j && U(a, 0, i, j) != a(i, j))
    || (p <= i < e && j < e && (i, j) != (p, p) && S(a, 0, b, i, j) != 0.0)
  }

  /** Both routines leave the same referenced triangle when no pivot is zero.  Otherwise they leave the same
      value in a place exactly if they do not part there; on every row before the block of the zero pivot and
      every column up to that pivot they agree on the factor. */
  lemma BlockedRefinesUnblocked(a: Mat, n: nat, i: nat, j: nat)
    requires i <= j < n
    ensures var info := FirstZeroPivot(a, 0, n);
            (BlockedResult(a, n, info)(i, j) == Unblocked(a, n, info)(i, j)
             <==> (info == 0 || !Parts(a, BlockStart(info - 1), info - 1, BlockEnd(n, info - 1), i, j)))
    ensures var info := FirstZeroPivot(a, 0, n);
            info > 0 && (i < BlockStart(info - 1) || j < info) ==> !Parts(a, BlockStart(info - 1), info - 1, BlockEnd(n, info - 1), i, j)
    ensures var info := FirstZeroPivot(a, 0, n);
            (info == 0 || j < info) ==> Unblocked(a, n, info)(i, j) == Final(a, 0, i, j)
  {
    FirstZeroPivotFound(a, 0, n);
    var info := FirstZeroPivot(a, 0, n);
    if info > 0 {
      RefinesAt(a, n, info - 1, i, j);
    }
  }

  lemma {:induction false} FirstZeroPivotFound(a: Mat, k: nat, n: nat)
    ensures var info := FirstZeroPivot(a, k, n); info > 0 ==> k < info <= n && D(a, 0, info - 1) == 0.0
    decreases n - k
  {
    if k < n && D(a, 0, k) != 0.0 {
      FirstZeroPivotFound(a, k + 1, n);
    }
  }

  lemma RefinesAt(a: Mat, n: nat, p: nat, i: nat, j: nat)
    requires p < n && D(a, 0, p) == 0.0 && i <= j < n
    ensures BlockStopped(a, n, BlockStart(p), BlockEnd(n, p), p)(i, j) == Stopped(a, 0, n, p)(i, j)
       <==> !Parts(a, BlockStart(p), p, BlockEnd(n, p), i, j)
    ensures j <= p ==> Stopped(a, 0, n, p)(i, j) == Final(a, 0, i, j)
  {
    var b, e := BlockStart(p), BlockEnd(n, p);
    assert b <= p < e;
    if b <= i < e && j < e {
      assert (i, j) != (p, p) ==> BlockStopped(a, n, b, e, p)(i, j) == if i < p then Final(a, 0, i, j) else a(i, j) - S(a, 0, b, i, j);
    } else {
      DoneOutside(a, n, b, e, p, i, j);
      assert BlockStopped(a, n, b, e, p)(i, j) == if i < b then Final(a, 0, i, j) else a(i, j);
    }
    assert (i, j) != (p, p) ==> Stopped(a, 0, n, p)(i, j) == if i < p then Final(a, 0, i, j) else a(i, j);
  }

  /** Both routines leave the same referenced triangle. */
  ghost predicate SameTriangle(a: Mat, n: nat) {
    var info := FirstZeroPivot(a, 0, n);
    forall i: nat, j: nat :: i <= j < n ==> BlockedResult(a, n, info)(i, j) == Unblocked(a, n, info)(i, j)
  }

  /** Whether the first zero pivot p is where no matrix can tell the routines apart: no rows of its block come
      before it or no columns after the block, and no rows come before the block or no columns of the block
      after it. */
  predicate HarmlessPivot(n: nat, p: nat) {
    (BlockStart(p) == p || BlockEnd(n, p) == n) && (BlockStart(p) == 0 || BlockEnd(n, p) == p + 1)
  }

  /** The matrices whose first zero pivot is p all leave the same triangle behind both routines exactly when the
      place of p is harmless, which p and the order alone decide; and so do all matrices without zero pivot. */
  lemma SameTriangleIff(n: nat, p: nat)
    requires p < n
    ensures (forall a: Mat :: FirstZeroPivot(a, 0, n) == p + 1 ==> SameTriangle(a, n)) <==> HarmlessPivot(n, p)
    ensures forall a: Mat :: FirstZeroPivot(a, 0, n) == 0 ==> SameTriangle(a, n)
  {
    forall a: Mat | FirstZeroPivot(a, 0, n) == 0 || (HarmlessPivot(n, p) && FirstZeroPivot(a, 0, n) == p + 1)
      ensures SameTriangle(a, n)
    {
      NoParting(a, n, p);
    }
    if BlockStart(p) != p && BlockEnd(n, p) != n {
      var a := RowParting(n, p);
    } else if BlockStart(p) != 0 && BlockEnd(n, p) != p + 1 {
      var a := BlockParting(n, p);
    }
  }

  lemma NoParting(a: Mat, n: nat, p: nat)
    requires FirstZeroPivot(a, 0, n) == 0 || (HarmlessPivot(n, p) && FirstZeroPivot(a, 0, n) == p + 1)
    ensures SameTriangle(a, n)
  {
    var info := FirstZeroPivot(a, 0, n);
    forall i: nat, j: nat | i <= j < n
      ensures BlockedResult(a, n, info)(i, j) == Unblocked(a, n, info)(i, j)
    {
      BlockedRefinesUnblocked(a, n, i, j);
    }
  }

  /** Diagonal 2 before p, and off the diagonal only row r, from column p on. */
  ghost predicate OneRow(a: Mat, p: nat, r: nat) {
    forall i: nat, j: nat {:trigger a(i, j)} :: i < p && i <= j ==>
      a(i, j) == if i == j then 2.0 else if i == r && j >= p then a(i, j) else 0.0
  }

  lemma {:induction false} OneRowFactor(a: Mat, p: nat, r: nat, k: nat, j: nat)
    requires OneRow(a, p, r) && k < p && k <= j
    ensures D(a, 0, k) == 2.0 && U(a, 0, k, j) == Quot(a(k, j), 2.0)
    decreases k, 1
  {
    OneRowSum(a, p, r, k, k, k);
    OneRowSum(a, p, r, k, k, j);
  }

  lemma {:induction false} OneRowSum(a: Mat, p: nat, r: nat, m: nat, i: nat, j: nat)
    requires OneRow(a, p, r) && m <= i < p && i <= j
    ensures S(a, 0, m, i, j) == 0.0
    decreases m, 0
  {
    if m > 0 {
      OneRowSum(a, p, r, m - 1, i, j);
      OneRowFactor(a, p, r, m - 1, i);
      assert a(m - 1, i) == 0.0;
    }
  }

  /** Only row r enters the sums in row p. */
  lemma {:induction false} OneRowAt(a: Mat, p: nat, r: nat, m: nat, j: nat)
    requires OneRow(a, p, r) && r < p && m <= p <= j
    ensures S(a, 0, m, p, j) == if r < m then Mul(Mul(Quot(a(r, p), 2.0), 2.0), Quot(a(r, j), 2.0)) else 0.0
    decreases m
  {
    if m > 0 {
      OneRowAt(a, p, r, m - 1, j);
      OneRowFactor(a, p, r, m - 1, p);
      OneRowFactor(a, p, r, m - 1, j);
      if m - 1 != r {
        assert a(m - 1, p) == 0.0;
      }
    }
  }

  lemma OneRowInfo(a: Mat, n: nat, p: nat, r: nat)
    requires OneRow(a, p, r) && p < n && D(a, 0, p) == 0.0
    ensures FirstZeroPivot(a, 0, n) == p + 1
  {
    forall k | 0 <= k < p
      ensures D(a, 0, k) != 0.0
    {
      OneRowFactor(a, p, r, k, k);
    }
    FirstZeroPivotIs(a, 0, n, p + 1);
  }

  /** A row of the block before p and a column after the block: the unblocked routine has divided the entry. */
  lemma RowParting(n: nat, p: nat) returns (a: Mat)
    requires p < n && BlockStart(p) != p && BlockEnd(n, p) != n
    ensures FirstZeroPivot(a, 0, n) == p + 1 && !SameTriangle(a, n)
  {
    var e := BlockEnd(n, p);
    a := (i: nat, j: nat) => if i == j && i < p then 2.0 else if i + 1 == p && j == e then 2.0 else 0.0;
    OneRowAt(a, p, p - 1, p, p);
    OneRowInfo(a, n, p, p - 1);
    OneRowFactor(a, p, p - 1, p - 1, e);
    assert Parts(a, BlockStart(p), p, e, p - 1, e);
    BlockedRefinesUnblocked(a, n, p - 1, e);
  }

  /** A row before the block and a column of the block after p: the blocked routine has subtracted a product. */
  lemma BlockParting(n: nat, p: nat) returns (a: Mat)
    requires p < n && BlockStart(p) != 0 && BlockEnd(n, p) != p + 1
    ensures FirstZeroPivot(a, 0, n) == p + 1 && !SameTriangle(a, n)
  {
    a := (i: nat, j: nat) => if i == j && i <= p then 2.0 else if i == 0 && p <= j <= p + 1 then 2.0 else 0.0;
    OneRowAt(a, p, 0, p, p);
    OneRowInfo(a, n, p, 0);
    OneRowAt(a, p, 0, BlockStart(p), p + 1);
    assert Parts(a, BlockStart(p), p, BlockEnd(n, p), p, p + 1);
    BlockedRefinesUnblocked(a, n, p, p + 1);
  }

  /** With a zero pivot the rest of the triangle may differ: with 2 in the first row, 2 in place (1,1) and 65
      columns the pivot 1 is zero; the unblocked routine has divided the whole first row by its pivot, the
      blocked one only the part inside the first block. */
  lemma FailureDiffers(a: Mat)
    requires a == ((i: nat, j: nat) => if i == 0 || (i == 1 && j == 1) then 2.0 else 0.0)
    ensures FirstZeroPivot(a, 0, 65) == 2
    ensures Unblocked(a, 65, 2)(0, 64) == 1.0 && BlockedResult(a, 65, 2)(0, 64) == 2.0
  {
    assert D(a, 0, 0) == 2.0 && U(a, 0, 0, 1) == 1.0 && U(a, 0, 0, 64) == 1.0;
    assert S(a, 0, 1, 1, 1) == 2.0;
    assert FirstZeroPivot(a, 1, 65) == 2;
    assert Factored(a, 0, 65, 1)(0, 64) == 1.0;
    assert Done(a, 65, 0, 64, 1)(0, 64) == Blocked(a, 65, 0)(0, 64) == 2.0;
  }
}
