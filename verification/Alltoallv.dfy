/** The all-to-all exchange that, when counts are too large for an int, fuses elements into blocks as large as
    the counts of all ranks allow.  Counts are as wide as the caller's type; what is handed to MPI is an int of
    32 bits, and a larger value wraps. */
module Alltoallv {
  import opened Segments

  const INT_MAX: nat := 0x7fff_ffff

  // ---------------------------------------------------------------------------------------------
  // Greatest common divisors
  // ---------------------------------------------------------------------------------------------

  ghost predicate Divides(d: nat, n: nat) { exists k: nat :: n == d * k }

  lemma DividesSum(d: nat, a: nat, b: nat)
    requires Divides(d, a) && Divides(d, b)
    ensures Divides(d, a + b)
  {
    var i: nat :| a == d * i;
    var j: nat :| b == d * j;
    assert a + b == d * (i + j);
  }

  lemma DividesMultiple(d: nat, a: nat, k: nat)
    requires Divides(d, a)
    ensures Divides(d, a * k)
  {
    var i: nat :| a == d * i;
    assert a * k == d * (i * k);
  }

  lemma FactorOrder(d: nat, j: nat, i: nat)
    requires d > 0 && d * j <= d * i
    ensures j <= i
  {
  }

  lemma DividesDifference(d: nat, a: nat, b: nat)
    requires Divides(d, a) && Divides(d, b) && b <= a
    ensures Divides(d, a - b)
  {
    var i: nat :| a == d * i;
    var j: nat :| b == d * j;
    if d == 0 {
      assert a - b == d * 0;
    } else {
      FactorOrder(d, j, i);
      assert a - b == d * (i - j);
    }
  }

  lemma DividesMod(d: nat, a: nat, b: nat)
    requires a > 0 && Divides(d, a)
    ensures Divides(d, b % a) <==> Divides(d, b)
  {
    DividesMultiple(d, a, b / a);
    assert b == a * (b / a) + b % a;
    if Divides(d, b % a) {
      DividesSum(d, a * (b / a), b % a);
    }
    if Divides(d, b) {
      assert a * (b / a) <= b;
      DividesDifference(d, b, a * (b / a));
    }
  }

  function Gcd(a: nat, b: nat): nat
    decreases a
  {
    if a == 0 then b else Gcd(b % a, a)
  }

  /** Gcd divides both numbers, and every common divisor divides it. */
  lemma {:induction false} GcdDivides(a: nat, b: nat, d: nat)
    ensures Divides(d, Gcd(a, b)) <==> Divides(d, a) && Divides(d, b)
    decreases a
  {
    if a == 0 {
      assert 0 == d * 0;
    } else {
      GcdDivides(b % a, a, d);
      if Divides(d, a) {
        DividesMod(d, a, b);
      }
    }
  }

  /** g is the greatest common divisor of s: exactly the divisors of g divide all of s. */
  ghost predicate IsGcd(g: nat, s: seq<nat>) {
    forall d: nat :: Divides(d, g) <==> forall i :: 0 <= i < |s| ==> Divides(d, s[i])
  }

  lemma GcdNext(g: nat, s: seq<nat>, x: nat)
    requires IsGcd(g, s)
    ensures IsGcd(Gcd(x, g), s + [x])
  {
    forall d: nat
      ensures Divides(d, Gcd(x, g)) <==> forall i :: 0 <= i < |s + [x]| ==> Divides(d, (s + [x])[i])
    {
      GcdDivides(x, g, d);
      assert (s + [x])[|s|] == x;
      if forall i :: 0 <= i < |s + [x]| ==> Divides(d, (s + [x])[i]) {
        forall i | 0 <= i < |s|
          ensures Divides(d, s[i])
        {
          assert (s + [x])[i] == s[i];
        }
      }
    }
  }

  method FindGCD(arr: seq<nat>) returns (result: nat)
    requires |arr| > 0
    ensures IsGcd(result, arr)
  {
    result := arr[0];
    assert IsGcd(result, arr[..1]);
    for i := 1 to |arr|
      invariant IsGcd(result, arr[..i])
    {
      GcdNext(result, arr[..i], arr[i]);
      assert arr[..i] + [arr[i]] == arr[..i + 1];
      result := Gcd(arr[i], result);
    }
    assert arr[..|arr|] == arr;
  }

  /** The greatest common divisor of the ranks' divisors is that of all counts. */
  ghost predicate DividesAll(d: nat, counts: seq<seq<nat>>) {
    forall r, p {:trigger counts[r][p]} :: 0 <= r < |counts| && 0 <= p < |counts[r]| ==> Divides(d, counts[r][p])
  }

  lemma GcdOfGcds(g: nat, gcds: seq<nat>, counts: seq<seq<nat>>)
    requires |gcds| == |counts| && IsGcd(g, gcds)
    requires forall r {:trigger gcds[r]} :: 0 <= r < |counts| ==> IsGcd(gcds[r], counts[r])
    ensures forall d: nat :: Divides(d, g) <==> DividesAll(d, counts)
  {
    forall d: nat
      ensures Divides(d, g) <==> DividesAll(d, counts)
    {
      if Divides(d, g) {
        forall r, p {:trigger counts[r][p]} | 0 <= r < |counts| && 0 <= p < |counts[r]|
          ensures Divides(d, counts[r][p])
        {
          assert IsGcd(gcds[r], counts[r]);
        }
      }
      if DividesAll(d, counts) {
        forall r | 0 <= r < |gcds|
          ensures Divides(d, gcds[r])
        {
          assert IsGcd(gcds[r], counts[r]);
          assert forall p :: 0 <= p < |counts[r]| ==> Divides(d, counts[r][p]);
        }
      }
    }
  }

  // ---------------------------------------------------------------------------------------------
  // Which block size fits
  // ---------------------------------------------------------------------------------------------

  /** The counts in blocks of d elements. */
  function Scaled(counts: seq<nat>, d: nat): (s: seq<nat>)
    requires d > 0
    ensures |s| == |counts|
  {
    seq<nat>(|counts|, i requires 0 <= i < |counts| => counts[i] / d)
  }

  lemma SmallMultiple(d: nat, m: int)
    requires d > 0 && 0 <= d * m < d
    ensures m == 0
  {
  }

  lemma Quotient(d: nat, n: nat)
    requires d > 0 && Divides(d, n)
    ensures n / d * d == n
  {
    var k: nat :| n == d * k;
    assert n == d * (n / d) + n % d;
    assert d * (k - n / d) == n % d;
    SmallMultiple(d, k - n / d);
  }

  lemma {:induction false} TotalScaled(counts: seq<nat>, d: nat, i: nat)
    requires d > 0 && i <= |counts| && forall k :: 0 <= k < |counts| ==> Divides(d, counts[k])
    ensures Total(Scaled(counts, d), i) * d == Total(counts, i)
  {
    if i > 0 {
      TotalScaled(counts, d, i - 1);
      Quotient(d, counts[i - 1]);
      assert Total(Scaled(counts, d), i) == Total(Scaled(counts, d), i - 1) + counts[i - 1] / d;
    }
  }

  /** The two tests of the code, on single counts and on their partial sums, amount to one on the total. */
  method NeedSplit(sizes: seq<nat>) returns (need: bool)
    ensures need <==> Total(sizes, |sizes|) >= INT_MAX
  {
    need := false;
    for i := 0 to |sizes|
      invariant need ==> Total(sizes, |sizes|) >= INT_MAX
    {
      TotalMonotone(sizes, i + 1, |sizes|);
      if sizes[i] > INT_MAX {
        need := true;
      }
    }
    if !need {
      var sums := PartialSums(sizes, 0);
      for i := 0 to |sums|
        invariant need ==> Total(sizes, |sizes|) >= INT_MAX
        invariant !need ==> forall k :: 0 <= k < i ==> Total(sizes, k) < INT_MAX
      {
        TotalMonotone(sizes, i, |sizes|);
        if sums[i] / INT_MAX > 0 {
          need := true;
        }
      }
    }
  }

  ghost predicate Fits(counts: seq<seq<nat>>, d: nat) {
    && d > 0 && DividesAll(d, counts)
    && forall r {:trigger counts[r]} :: 0 <= r < |counts| ==> Total(Scaled(counts[r], d), |counts[r]|) < INT_MAX
  }

  lemma ScaledOrder(a: nat, d: nat, b: nat, g: nat)
    requires 0 < d <= g && b * g == a * d
    ensures b <= a
  {
    assert d * b <= g * b;
    FactorOrder(d, b, a);
  }

  lemma DivisorOrder(d: nat, g: nat)
    requires g > 0 && Divides(d, g)
    ensures 0 < d <= g
  {
    var k: nat :| g == d * k;
    assert k > 0 && d > 0;
    assert d * k >= d;
  }

  lemma RankDivides(counts: seq<seq<nat>>, d: nat, r: nat)
    requires DividesAll(d, counts) && r < |counts|
    ensures forall p :: 0 <= p < |counts[r]| ==> Divides(d, counts[r][p])
  {
  }

  /** The greatest common divisor fits whenever any common divisor does. */
  lemma BestUnit(counts: seq<seq<nat>>, g: nat, d: nat)
    requires g > 0 && (forall e: nat :: Divides(e, g) <==> DividesAll(e, counts)) && Fits(counts, d)
    ensures Fits(counts, g)
  {
    assert Divides(d, g);
    assert g == g * 1;
    assert Divides(g, g);
    DivisorOrder(d, g);
    forall r {:trigger counts[r]} | 0 <= r < |counts|
      ensures Total(Scaled(counts[r], g), |counts[r]|) < INT_MAX
    {
      var n := |counts[r]|;
      RankDivides(counts, g, r);
      RankDivides(counts, d, r);
      TotalScaled(counts[r], g, n);
      TotalScaled(counts[r], d, n);
      ScaledOrder(Total(Scaled(counts[r], d), n), d, Total(Scaled(counts[r], g), n), g);
    }
  }

  lemma OneFits(counts: seq<seq<nat>>)
    requires forall r {:trigger counts[r]} :: 0 <= r < |counts| ==> Total(counts[r], |counts[r]|) < INT_MAX
    ensures Fits(counts, 1)
  {
    forall r, p {:trigger counts[r][p]} | 0 <= r < |counts| && 0 <= p < |counts[r]|
      ensures Divides(1, counts[r][p])
    {
      assert counts[r][p] == 1 * counts[r][p];
    }
    forall r {:trigger counts[r]} | 0 <= r < |counts|
      ensures Total(Scaled(counts[r], 1), |counts[r]|) < INT_MAX
    {
      assert Scaled(counts[r], 1) == counts[r];
    }
  }

  lemma {:induction false} ZeroTotal(counts: seq<nat>, i: nat)
    requires i <= |counts| && forall p :: 0 <= p < |counts| ==> counts[p] == 0
    ensures Total(counts, i) == 0
  {
    if i > 0 {
      ZeroTotal(counts, i - 1);
    }
  }

  /** If some rank has too much to send, not all counts are 0, so the divisor is not 0 either. */
  lemma UnitPositive(counts: seq<seq<nat>>, g: nat, r: nat)
    requires forall e: nat :: Divides(e, g) <==> DividesAll(e, counts)
    requires r < |counts| && Total(counts[r], |counts[r]|) >= INT_MAX
    ensures g > 0
  {
    if g == 0 {
      assert 0 == 0 * 0;
      assert Divides(0, 0);
      RankDivides(counts, 0, r);
      forall p | 0 <= p < |counts[r]|
        ensures counts[r][p] == 0
      {
        var k: nat :| counts[r][p] == 0 * k;
      }
      ZeroTotal(counts[r], |counts[r]|);
      assert false;
    }
  }

  /** Every rank tests, and the flags are gathered. */
  method AnyNeedSplit(counts: seq<seq<nat>>, unit: nat) returns (need: bool, ghost who: nat)
    requires unit > 0
    ensures need ==> who < |counts| && Total(Scaled(counts[who], unit), |counts[who]|) >= INT_MAX
    ensures !need ==> forall r {:trigger counts[r]} :: 0 <= r < |counts| ==> Total(Scaled(counts[r], unit), |counts[r]|) < INT_MAX
  {
    need, who := false, 0;
    for r := 0 to |counts|
      invariant need ==> who < |counts| && Total(Scaled(counts[who], unit), |counts[who]|) >= INT_MAX
      invariant !need ==> forall q {:trigger counts[q]} :: 0 <= q < r ==> Total(Scaled(counts[q], unit), |counts[q]|) < INT_MAX
    {
      var mine := NeedSplit(Scaled(counts[r], unit));
      if mine {
        need, who := true, r;
      }
    }
  }

  method CommonUnit(counts: seq<seq<nat>>) returns (g: nat)
    requires |counts| > 0 && forall r :: 0 <= r < |counts| ==> |counts[r]| > 0
    ensures forall e: nat :: Divides(e, g) <==> DividesAll(e, counts)
  {
    var gcds := [];
    for r := 0 to |counts|
      invariant |gcds| == r && forall q {:trigger gcds[q]} :: 0 <= q < r ==> IsGcd(gcds[q], counts[q])
    {
      var mine := FindGCD(counts[r]);
      gcds := gcds + [mine];
    }
    g := FindGCD(gcds);
    GcdOfGcds(g, gcds, counts);
  }

  lemma NoUnit(counts: seq<seq<nat>>, g: nat, who: nat)
    requires g > 0 && (forall e: nat :: Divides(e, g) <==> DividesAll(e, counts))
    requires who < |counts| && Total(Scaled(counts[who], g), |counts[who]|) >= INT_MAX
    ensures forall d :: !Fits(counts, d)
  {
    forall d
      ensures !Fits(counts, d)
    {
      if Fits(counts, d) {
        BestUnit(counts, g, d);
      }
    }
  }

  lemma UnitFits(counts: seq<seq<nat>>, g: nat)
    requires g > 0 && (forall e: nat :: Divides(e, g) <==> DividesAll(e, counts))
    requires forall r {:trigger counts[r]} :: 0 <= r < |counts| ==> Total(Scaled(counts[r], g), |counts[r]|) < INT_MAX
    ensures Fits(counts, g)
  {
    assert g == g * 1;
    assert Divides(g, g);
  }

  lemma ScaledByOne(counts: seq<seq<nat>>, r: nat)
    requires r < |counts|
    ensures Scaled(counts[r], 1) == counts[r]
  {
  }

  method FusedUnit(counts: seq<seq<nat>>, ghost r: nat) returns (unit: nat, stuck: bool)
    requires |counts| > 0 && forall r :: 0 <= r < |counts| ==> |counts[r]| > 0
    requires r < |counts| && Total(counts[r], |counts[r]|) >= INT_MAX
    ensures if stuck then forall d :: !Fits(counts, d) else Fits(counts, unit)
    ensures forall e: nat :: Divides(e, unit) <==> DividesAll(e, counts)
  {
    unit := CommonUnit(counts);
    UnitPositive(counts, unit, r);
    ghost var who;
    stuck, who := AnyNeedSplit(counts, unit);
    if stuck {
      NoUnit(counts, unit, who);
    } else {
      UnitFits(counts, unit);
    }
  }

  lemma AllFit(counts: seq<seq<nat>>)
    requires forall r {:trigger counts[r]} :: 0 <= r < |counts| ==> Total(Scaled(counts[r], 1), |counts[r]|) < INT_MAX
    ensures Fits(counts, 1)
  {
    forall r {:trigger counts[r]} | 0 <= r < |counts|
      ensures Total(counts[r], |counts[r]|) < INT_MAX
    {
      ScaledByOne(counts, r);
    }
    OneFits(counts);
  }

  /** Some rank has more to send than fits into an int. */
  ghost predicate SendsTooMuch(counts: seq<seq<nat>>) {
    exists r {:trigger counts[r]} :: 0 <= r < |counts| && Total(counts[r], |counts[r]|) >= INT_MAX
  }

  /** The block size the ranks agree on.  They get stuck exactly when no common block size would fit. */
  method ChooseUnit(counts: seq<seq<nat>>) returns (unit: nat, stuck: bool)
    requires |counts| > 0 && forall r :: 0 <= r < |counts| ==> |counts[r]| > 0
    ensures if stuck then forall d :: !Fits(counts, d) else Fits(counts, unit)
    ensures Fits(counts, 1) ==> unit == 1
    ensures !Fits(counts, 1) ==> (forall e: nat :: Divides(e, unit) <==> DividesAll(e, counts)) && SendsTooMuch(counts)
  {
    ghost var who;
    unit := 1;
    stuck, who := AnyNeedSplit(counts, 1);
    if stuck {
      ScaledByOne(counts, who);
      unit, stuck := FusedUnit(counts, who);
    } else {
      AllFit(counts);
    }
  }

  // ---------------------------------------------------------------------------------------------
  // Ints
  // ---------------------------------------------------------------------------------------------

  /** The value of n in an int. */
  function IntOf(n: int): (r: int)
    ensures -0x8000_0000 <= r <= INT_MAX
    ensures 0 <= n ==> (r == n <==> n <= INT_MAX)
  {
    (n + INT_MAX + 1) % 0x1_0000_0000 - INT_MAX - 1
  }

  lemma WrapTwice(a: int, b: int)
    ensures IntOf(IntOf(a) + b) == IntOf(a + b)
  {
    var q := (a + INT_MAX + 1) / 0x1_0000_0000;
    assert IntOf(a) == a - q * 0x1_0000_0000;
  }

  lemma NextSum(sizes: seq<nat>, i: nat)
    requires i < |sizes|
    ensures IntOf(IntOf(Total(sizes, i)) + sizes[i]) == IntOf(Total(sizes, i + 1))
  {
    WrapTwice(Total(sizes, i), sizes[i]);
  }

  /** std::partial_sum over ints. */
  method IntSums(sizes: seq<nat>) returns (sums: seq<int>)
    ensures |sums| == |sizes| + 1 && forall i :: 0 <= i <= |sizes| ==> sums[i] == IntOf(Total(sizes, i))
  {
    sums := [0];
    for i := 0 to |sizes|
      invariant |sums| == i + 1 && forall k :: 0 <= k <= i ==> sums[k] == IntOf(Total(sizes, k))
    {
      NextSum(sizes, i);
      sums := sums + [IntOf(sums[i] + sizes[i])];
    }
  }

  /** No partial sum wraps exactly if the last one does not. */
  lemma SumsFit(sizes: seq<nat>)
    ensures (forall i :: 0 <= i <= |sizes| ==> IntOf(Total(sizes, i)) == Total(sizes, i)) <==> Total(sizes, |sizes|) <= INT_MAX
  {
    forall i | 0 <= i <= |sizes|
      ensures Total(sizes, i) <= Total(sizes, |sizes|)
    {
      TotalMonotone(sizes, i, |sizes|);
    }
  }

  // ---------------------------------------------------------------------------------------------
  // The exchange in blocks
  // ---------------------------------------------------------------------------------------------

  /** What rank r hands in. */
  datatype Request<T> = Request(buf: seq<T>, counts: seq<int>, displs: seq<int>)

  datatype Outcome<T> =
    | Invalid
    | Stuck
    | Wrapped(calls: seq<Call>)
    | Delivered(recvbufs: seq<seq<T>>, rcounts: seq<seq<nat>>, rdispls: seq<seq<int>>)

  ghost predicate NonNegative<T>(q: Request<T>) {
    (forall p :: 0 <= p < |q.counts| ==> q.counts[p] >= 0) && (forall p :: 0 <= p < |q.displs| ==> q.displs[p] >= 0)
  }

  function Counts(s: seq<int>): (c: seq<nat>)
    requires forall p :: 0 <= p < |s| ==> s[p] >= 0
    ensures |c| == |s| && forall p :: 0 <= p < |s| ==> c[p] == s[p]
  {
    seq<nat>(|s|, p requires 0 <= p < |s| => s[p])
  }

  /** The counts of all ranks, as many as there are ranks, and what every rank sends is in its buffer. */
  ghost predicate Square<T>(bufs: seq<seq<T>>, counts: seq<seq<nat>>) {
    && |bufs| == |counts| > 0
    && forall r {:trigger counts[r]} :: 0 <= r < |counts| ==> |counts[r]| == |counts| && Total(counts[r], |counts[r]|) <= |bufs[r]|
  }

  /** MPI_Alltoallv with a type of `unit` elements: the block range [at, at + n) of a buffer. */
  function Blocks<T>(buf: seq<T>, unit: nat, at: nat, n: nat): (s: seq<T>)
    requires unit * (at + n) <= |buf|
    ensures |s| == unit * n
  {
    assert unit * at + unit * n == unit * (at + n);
    buf[unit * at..unit * at + unit * n]
  }

  lemma Turn(a: nat, b: nat, unit: nat)
    ensures unit * a == a * unit && unit * b == b * unit && unit * (a + b) == a * unit + b * unit
  {
  }

  /** Block counts and block displacements times the block size are the element counts and displacements. */
  lemma BlockPlace(counts: seq<nat>, unit: nat, p: nat)
    requires unit > 0 && p < |counts| && forall k :: 0 <= k < |counts| ==> Divides(unit, counts[k])
    ensures unit * Total(Scaled(counts, unit), p) == Total(counts, p)
    ensures unit * Scaled(counts, unit)[p] == counts[p]
    ensures unit * (Total(Scaled(counts, unit), p) + Scaled(counts, unit)[p]) == Total(counts, p) + counts[p]
    ensures Total(counts, p) + counts[p] <= Total(counts, |counts|)
  {
    TotalScaled(counts, unit, p);
    TotalMonotone(counts, p + 1, |counts|);
    Quotient(unit, counts[p]);
    Turn(Total(Scaled(counts, unit), p), Scaled(counts, unit)[p], unit);
  }

  lemma BlockPart<T>(buf: seq<T>, counts: seq<nat>, unit: nat, p: nat)
    requires unit > 0 && p < |counts| && Total(counts, |counts|) <= |buf| && forall k :: 0 <= k < |counts| ==> Divides(unit, counts[k])
    ensures unit * (Total(Scaled(counts, unit), p) + Scaled(counts, unit)[p]) <= |buf|
    ensures Blocks(buf, unit, Total(Scaled(counts, unit), p), Scaled(counts, unit)[p]) == Slot(buf, counts, p)
  {
    BlockPlace(counts, unit, p);
  }

  /** The elements for p in a packed buffer. */
  function Slot<T>(buf: seq<T>, counts: seq<nat>, p: nat): (s: seq<T>)
    requires p < |counts| && Total(counts, |counts|) <= |buf|
    ensures |s| == counts[p]
  {
    TotalMonotone(counts, p + 1, |counts|);
    buf[Total(counts, p)..Total(counts, p) + counts[p]]
  }

  /** Element-wise delivery: what the packed buffers of the first r ranks hold for p, in rank order. */
  ghost function Gathered<T>(bufs: seq<seq<T>>, counts: seq<seq<nat>>, p: nat, r: nat): (s: seq<T>)
    requires Square(bufs, counts) && p < |counts| && r <= |counts|
  {
    if r == 0 then []
    else
      assert |counts[r - 1]| == |counts|;
      Gathered(bufs, counts, p, r - 1) + Slot(bufs[r - 1], counts[r - 1], p)
  }

  ghost predicate Wide(counts: seq<seq<nat>>, p: nat) {
    forall r {:trigger counts[r]} :: 0 <= r < |counts| ==> p < |counts[r]|
  }

  /** What p receives from each rank: the transpose of what the ranks send. */
  ghost function FromRanks(counts: seq<seq<nat>>, p: nat): (s: seq<nat>)
    requires Wide(counts, p)
    ensures |s| == |counts|
  {
    seq<nat>(|counts|, r requires 0 <= r < |counts| => counts[r][p])
  }

  /** MPI_Alltoall of the counts. */
  method ExchangeCounts(ssizes: seq<seq<nat>>, p: nat) returns (rsizes: seq<nat>)
    requires Wide(ssizes, p)
    ensures rsizes == FromRanks(ssizes, p)
  {
    rsizes := [];
    for r := 0 to |ssizes|
      invariant |rsizes| == r && forall q :: 0 <= q < r ==> rsizes[q] == FromRanks(ssizes, p)[q]
    {
      rsizes := rsizes + [ssizes[r][p]];
    }
  }

  function ScaledAll(counts: seq<seq<nat>>, unit: nat): (s: seq<seq<nat>>)
    requires unit > 0
    ensures |s| == |counts|
  {
    seq(|counts|, r requires 0 <= r < |counts| => Scaled(counts[r], unit))
  }

  /** One rank's receive buffer, filled block by block from the places the block counts add up to. */
  method ReceiveBlocks<T>(bufs: seq<seq<T>>, counts: seq<seq<nat>>, unit: nat, p: nat) returns (recvbuf: seq<T>)
    requires Square(bufs, counts) && p < |counts| && unit > 0 && DividesAll(unit, counts)
    ensures recvbuf == Gathered(bufs, counts, p, |counts|)
  {
    recvbuf := [];
    for r := 0 to |bufs|
      invariant recvbuf == Gathered(bufs, counts, p, r)
    {
      assert |counts[r]| == |counts|;
      RankDivides(counts, unit, r);
      BlockPart(bufs[r], counts[r], unit, p);
      var ssizes2 := Scaled(counts[r], unit);
      var sdispls2 := PartialSums(ssizes2, 0);
      recvbuf := recvbuf + Blocks(bufs[r], unit, sdispls2[p], ssizes2[p]);
    }
  }

  lemma {:induction false} ColumnScaled(counts: seq<seq<nat>>, unit: nat, p: nat, r: nat)
    requires unit > 0 && DividesAll(unit, counts) && r <= |counts| && Wide(counts, p)
    ensures Wide(ScaledAll(counts, unit), p)
    ensures Total(FromRanks(ScaledAll(counts, unit), p), r) * unit == Total(FromRanks(counts, p), r)
    ensures r < |counts| ==> FromRanks(ScaledAll(counts, unit), p)[r] * unit == counts[r][p]
  {
    if r < |counts| {
      Quotient(unit, counts[r][p]);
      assert FromRanks(ScaledAll(counts, unit), p)[r] == counts[r][p] / unit;
    }
    if r > 0 {
      ColumnScaled(counts, unit, p, r - 1);
      DistributeUnit(Total(FromRanks(ScaledAll(counts, unit), p), r - 1), FromRanks(ScaledAll(counts, unit), p)[r - 1], unit);
    }
  }

  lemma DistributeUnit(a: nat, b: nat, unit: nat)
    ensures (a + b) * unit == a * unit + b * unit
  {
  }

  /** Conversion to size_t. */
  function SizeT(n: int): nat { n % 0x1_0000_0000_0000_0000 }

  /** A displacement in elements again. */
  function Back(d: int, unit: nat): nat { SizeT(SizeT(d) * unit) }

  /** What rank p hands to MPI_Alltoallv: the bytes of the fused type, and counts and displacements in blocks. */
  datatype Call = Call(bytes: int, ssizes: seq<nat>, sdispls: seq<int>, rsizes: seq<nat>, rdispls: seq<int>)

  ghost predicate IsCall(counts: seq<seq<nat>>, unit: nat, bytes: nat, p: nat, c: Call)
    requires unit > 0 && p < |counts| && Wide(ScaledAll(counts, unit), p)
  {
    && c.bytes == IntOf(bytes)
    && c.ssizes == Scaled(counts[p], unit) && c.rsizes == FromRanks(ScaledAll(counts, unit), p)
    && |c.sdispls| == |counts[p]| + 1 && (forall q :: 0 <= q <= |counts[p]| ==> c.sdispls[q] == IntOf(Total(c.ssizes, q)))
    && |c.rdispls| == |counts| + 1 && (forall r :: 0 <= r <= |counts| ==> c.rdispls[r] == IntOf(Total(c.rsizes, r)))
  }

  lemma WideScaled(counts: seq<seq<nat>>, unit: nat, p: nat)
    requires unit > 0 && Wide(counts, p)
    ensures Wide(ScaledAll(counts, unit), p)
  {
  }

  /** The arguments of the call as they are computed. */
  method MakeCall(counts: seq<seq<nat>>, unit: nat, bytes: nat, p: nat) returns (c: Call)
    requires unit > 0 && p < |counts| && Wide(counts, p)
    ensures Wide(ScaledAll(counts, unit), p) && IsCall(counts, unit, bytes, p, c)
  {
    WideScaled(counts, unit, p);
    var ssizes2 := Scaled(counts[p], unit);
    var sdispls2 := IntSums(ssizes2);
    var rsizes2 := ExchangeCounts(ScaledAll(counts, unit), p);
    var rdispls2 := IntSums(rsizes2);
    c := Call(IntOf(bytes), ssizes2, sdispls2, rsizes2, rdispls2);
  }

  /** What rank p receives fits into an int when counted in blocks. */
  ghost predicate ArrivalsFit(counts: seq<seq<nat>>, unit: nat, p: nat)
    requires unit > 0 && Wide(counts, p)
  {
    WideScaled(counts, unit, p);
    Total(FromRanks(ScaledAll(counts, unit), p), |counts|) <= INT_MAX
  }

  lemma Scale(bytes: int, t: nat, u: nat, a: int, n: nat)
    requires bytes == t * u && a * u == n
    ensures bytes * a == t * n
  {
    assert t * u * a == t * (a * u);
  }

  lemma SameFactor(x: int, a: int, b: int)
    requires x != 0 && x * a == x * b
    ensures a == b
  {
    assert x * (a - b) == x * a - x * b;
    if a != b {
      Distinct(x, a - b);
    }
  }

  lemma Distinct(x: int, d: int)
    requires x != 0 && d != 0
    ensures x * d != 0
  {
  }

  lemma FirstTotal(counts: seq<nat>, unit: nat, q: nat)
    requires unit > 0 && q <= |counts| && (forall k :: 0 <= k < |counts| ==> Divides(unit, counts[k]))
    requires Total(Scaled(counts, unit), |counts|) <= INT_MAX
    ensures IntOf(Total(Scaled(counts, unit), q)) * unit == Total(counts, q)
    ensures q < |counts| ==> Scaled(counts, unit)[q] * unit == counts[q]
  {
    SumsFit(Scaled(counts, unit));
    TotalMonotone(Scaled(counts, unit), q, |counts|);
    TotalScaled(counts, unit, q);
    if q < |counts| {
      Quotient(unit, counts[q]);
    }
  }

  predicate Same(bytes: int, blocks: int, typesize: nat, n: nat) { bytes * blocks == typesize * n }

  /** Bytes times blocks are the bytes and the places of the elements, one after the other. */
  ghost predicate ExactSide(counts: seq<nat>, typesize: nat, bytes: int, sizes: seq<nat>, displs: seq<int>) {
    && |sizes| == |counts| && |displs| == |counts| + 1
    && (forall q :: 0 <= q < |counts| ==> Same(bytes, sizes[q], typesize, counts[q]))
    && (forall q :: 0 <= q <= |counts| ==> Same(bytes, displs[q], typesize, Total(counts, q)))
  }

  /** The call moves the bytes of an element-wise exchange of packed buffers between the same places. */
  ghost predicate Exact(counts: seq<seq<nat>>, typesize: nat, p: nat, c: Call)
    requires p < |counts| && Wide(counts, p)
  {
    && ExactSide(counts[p], typesize, c.bytes, c.ssizes, c.sdispls)
    && ExactSide(FromRanks(counts, p), typesize, c.bytes, c.rsizes, c.rdispls)
  }

  lemma ColumnDivides(counts: seq<seq<nat>>, unit: nat, p: nat)
    requires DividesAll(unit, counts) && Wide(counts, p)
    ensures forall r :: 0 <= r < |counts| ==> Divides(unit, FromRanks(counts, p)[r])
  {
    forall r | 0 <= r < |counts|
      ensures Divides(unit, FromRanks(counts, p)[r])
    {
      RankDivides(counts, unit, r);
    }
  }

  lemma ColumnIsScaled(counts: seq<seq<nat>>, unit: nat, p: nat)
    requires unit > 0 && Wide(counts, p)
    ensures Wide(ScaledAll(counts, unit), p) && FromRanks(ScaledAll(counts, unit), p) == Scaled(FromRanks(counts, p), unit)
  {
  }

  lemma SideAt(bytes: nat, typesize: nat, unit: nat, blocks: int, n: nat)
    requires bytes == typesize * unit && blocks * unit == n
    ensures Same(bytes, blocks, typesize, n)
  {
    Scale(bytes, typesize, unit, blocks, n);
  }

  lemma SideExact(counts: seq<nat>, unit: nat, typesize: nat, bytes: nat, displs: seq<int>)
    requires unit > 0 && (forall k :: 0 <= k < |counts| ==> Divides(unit, counts[k])) && Total(Scaled(counts, unit), |counts|) <= INT_MAX
    requires |displs| == |counts| + 1 && forall q :: 0 <= q <= |counts| ==> displs[q] == IntOf(Total(Scaled(counts, unit), q))
    requires bytes == typesize * unit
    ensures ExactSide(counts, typesize, bytes, Scaled(counts, unit), displs)
  {
    forall q | 0 <= q <= |counts|
      ensures Same(bytes, displs[q], typesize, Total(counts, q))
      ensures q < |counts| ==> Same(bytes, Scaled(counts, unit)[q], typesize, counts[q])
    {
      FirstTotal(counts, unit, q);
      SideAt(bytes, typesize, unit, displs[q], Total(counts, q));
      if q < |counts| {
        SideAt(bytes, typesize, unit, Scaled(counts, unit)[q], counts[q]);
      }
    }
  }

  /** The counts that rank p gets back, blocks multiplied out again. */
  method ReceiveCounts(counts: seq<seq<nat>>, unit: nat, p: nat, rsizes2: seq<nat>) returns (rcounts: seq<nat>)
    requires unit > 0 && DividesAll(unit, counts) && Wide(counts, p) && Wide(ScaledAll(counts, unit), p)
    requires rsizes2 == FromRanks(ScaledAll(counts, unit), p)
    ensures rcounts == FromRanks(counts, p)
  {
    rcounts := [];
    for r := 0 to |counts|
      invariant |rcounts| == r && forall q :: 0 <= q < r ==> rcounts[q] == FromRanks(counts, p)[q]
    {
      ColumnScaled(counts, unit, p, r);
      rcounts := rcounts + [rsizes2[r] * unit];
    }
  }

  /** The displacements that rank p gets back: the partial sums of the counts, if no sum of blocks wraps. */
  method ReceiveDispls(counts: seq<seq<nat>>, unit: nat, p: nat, rdispls2: seq<int>, ghost typesize: nat) returns (rdispls: seq<int>)
    requires unit > 0 && DividesAll(unit, counts) && Wide(counts, p) && Wide(ScaledAll(counts, unit), p)
    requires |rdispls2| == |counts| + 1
    requires forall r :: 0 <= r <= |counts| ==> rdispls2[r] == IntOf(Total(FromRanks(ScaledAll(counts, unit), p), r))
    requires 0 < typesize && typesize * unit <= INT_MAX && ArrivalsFit(counts, unit, p)
    ensures |rdispls| == |counts| + 1 && forall r :: 0 <= r <= |counts| ==> rdispls[r] == Total(FromRanks(counts, p), r)
  {
    rdispls := [];
    for r := 0 to |counts| + 1
      invariant |rdispls| == r && forall q :: 0 <= q < r ==> rdispls[q] == Back(rdispls2[q], unit)
    {
      rdispls := rdispls + [Back(rdispls2[r], unit)];
    }
    forall r | 0 <= r <= |counts|
      ensures rdispls[r] == Total(FromRanks(counts, p), r)
    {
      DisplBack(counts, unit, p, r, rdispls2[r], typesize);
    }
  }

  lemma DisplBack(counts: seq<seq<nat>>, unit: nat, p: nat, r: nat, d: int, typesize: nat)
    requires unit > 0 && DividesAll(unit, counts) && Wide(counts, p) && Wide(ScaledAll(counts, unit), p) && r <= |counts|
    requires d == IntOf(Total(FromRanks(ScaledAll(counts, unit), p), r))
    requires 0 < typesize && typesize * unit <= INT_MAX && ArrivalsFit(counts, unit, p)
    ensures Back(d, unit) == Total(FromRanks(counts, p), r)
  {
    SumsFit(FromRanks(ScaledAll(counts, unit), p));
    ColumnScaled(counts, unit, p, r);
    SmallProduct(d, unit, typesize);
  }

  lemma SmallProduct(a: int, u: nat, t: nat)
    requires 0 <= a <= INT_MAX && 0 < t && t * u <= INT_MAX
    ensures SizeT(SizeT(a) * u) == a * u
  {
    AtMost(u, t);
    ProductBound(a, u);
    SmallSize(a);
    SmallSize(a * u);
  }

  lemma AtMost(u: nat, t: nat)
    requires 0 < t
    ensures u <= t * u
  {
  }

  lemma SmallSize(n: int)
    requires 0 <= n <= INT_MAX * INT_MAX
    ensures SizeT(n) == n
  {
  }

  lemma ProductBound(a: nat, u: nat)
    requires a <= INT_MAX && u <= INT_MAX
    ensures a * u <= INT_MAX * INT_MAX
  {
    assert a * u <= INT_MAX * u;
    assert u * INT_MAX <= INT_MAX * INT_MAX;
  }

  /** The ints that are handed to MPI hold what they should: the bytes of a block, and the blocks that each rank
      receives.  Both can be computed from the counts before the exchange. */
  ghost predicate IntsFit(counts: seq<seq<nat>>, unit: nat, bytes: nat)
    requires unit > 0 && forall p :: 0 <= p < |counts| ==> Wide(counts, p)
  {
    bytes <= INT_MAX && forall p :: 0 <= p < |counts| ==> ArrivalsFit(counts, unit, p)
  }

  lemma SomethingSent(counts: seq<nat>) returns (q: nat)
    requires Total(counts, |counts|) > 0
    ensures q < |counts| && counts[q] > 0
  {
    if q' :| 0 <= q' < |counts| && counts[q'] > 0 {
      q := q';
    } else {
      ZeroTotal(counts, |counts|);
      assert false;
    }
  }

  /** A block whose size has wrapped does not hold what is sent in it. */
  lemma BytesWrapped(counts: seq<seq<nat>>, unit: nat, typesize: nat, bytes: nat, r: nat, c: Call)
    requires Fits(counts, unit) && r < |counts| && Wide(counts, r) && |counts[r]| == |counts| && Total(counts[r], |counts[r]|) >= INT_MAX
    requires RanksCall(counts, unit, bytes, r, c) && bytes == typesize * unit && bytes > INT_MAX
    ensures !Exact(counts, typesize, r, c)
  {
    var q := SomethingSent(counts[r]);
    RankDivides(counts, unit, r);
    Quotient(unit, counts[r][q]);
    WrongBytes(c.bytes, bytes, typesize, unit, c.ssizes[q], counts[r][q]);
  }

  lemma WrongBytes(b: int, bytes: nat, typesize: nat, unit: nat, blocks: nat, n: nat)
    requires bytes == typesize * unit && blocks * unit == n && n > 0 && b != bytes
    ensures !Same(b, blocks, typesize, n)
  {
    Scale(bytes, typesize, unit, blocks, n);
    if b * blocks == bytes * blocks {
      SameFactor(blocks, b, bytes);
    }
  }

  /** A displacement that has wrapped is not where the elements belong. */
  lemma ArrivalsWrapped(counts: seq<seq<nat>>, unit: nat, typesize: nat, bytes: nat, p: nat, c: Call)
    requires Fits(counts, unit) && p < |counts| && Wide(counts, p) && RanksCall(counts, unit, bytes, p, c)
    requires bytes == typesize * unit && 0 < bytes <= INT_MAX && !ArrivalsFit(counts, unit, p)
    ensures !Exact(counts, typesize, p, c)
  {
    var n := |counts|;
    ColumnScaled(counts, unit, p, n);
    WrongPlace(bytes, typesize, unit, c.rdispls[n], Total(c.rsizes, n), Total(FromRanks(counts, p), n));
  }

  lemma WrongPlace(bytes: nat, typesize: nat, unit: nat, d: int, blocks: nat, n: nat)
    requires bytes == typesize * unit && bytes > 0 && blocks * unit == n && d != blocks
    ensures !Same(bytes, d, typesize, n)
  {
    Scale(bytes, typesize, unit, blocks, n);
    if bytes * d == bytes * blocks {
      SameFactor(bytes, d, blocks);
    }
  }

  lemma SendExact(counts: seq<seq<nat>>, unit: nat, typesize: nat, bytes: nat, p: nat, c: Call)
    requires Fits(counts, unit) && p < |counts| && Wide(counts, p) && RanksCall(counts, unit, bytes, p, c)
    requires bytes == typesize * unit && bytes <= INT_MAX
    ensures ExactSide(counts[p], typesize, c.bytes, c.ssizes, c.sdispls)
  {
    RankDivides(counts, unit, p);
    SideExact(counts[p], unit, typesize, bytes, c.sdispls);
  }

  lemma RecvExact(counts: seq<seq<nat>>, unit: nat, typesize: nat, bytes: nat, p: nat, c: Call)
    requires Fits(counts, unit) && p < |counts| && Wide(counts, p) && RanksCall(counts, unit, bytes, p, c)
    requires bytes == typesize * unit && bytes <= INT_MAX && ArrivalsFit(counts, unit, p)
    ensures ExactSide(FromRanks(counts, p), typesize, c.bytes, c.rsizes, c.rdispls)
  {
    ColumnDivides(counts, unit, p);
    ColumnIsScaled(counts, unit, p);
    SideExact(FromRanks(counts, p), unit, typesize, bytes, c.rdispls);
  }

  ghost predicate AreCalls(counts: seq<seq<nat>>, unit: nat, bytes: nat, calls: seq<Call>, n: nat)
    requires unit > 0 && n <= |counts| && forall p :: 0 <= p < |counts| ==> Wide(counts, p)
  {
    |calls| == n && forall p :: 0 <= p < n ==> RanksCall(counts, unit, bytes, p, calls[p])
  }

  ghost predicate RanksCall(counts: seq<seq<nat>>, unit: nat, bytes: nat, p: nat, c: Call)
    requires unit > 0 && p < |counts| && Wide(counts, p)
  {
    WideScaled(counts, unit, p);
    IsCall(counts, unit, bytes, p, c)
  }

  ghost predicate AllExact(counts: seq<seq<nat>>, typesize: nat, calls: seq<Call>)
    requires |calls| == |counts| && forall p :: 0 <= p < |counts| ==> Wide(counts, p)
  {
    forall p {:trigger calls[p]} :: 0 <= p < |counts| ==> Exact(counts, typesize, p, calls[p])
  }

  /** With the block size that the ranks choose, every rank hands the right places and sizes to MPI exactly when
      the bytes of a block and the blocks that arrive at each rank fit into an int. */
  lemma ExactIff(counts: seq<seq<nat>>, unit: nat, typesize: nat, bytes: nat, calls: seq<Call>)
    requires (forall p :: 0 <= p < |counts| ==> Wide(counts, p) && |counts[p]| == |counts|) && 0 < typesize <= INT_MAX
    requires Fits(counts, unit) && (unit == 1 || SendsTooMuch(counts))
    requires bytes == typesize * unit && AreCalls(counts, unit, bytes, calls, |counts|)
    ensures AllExact(counts, typesize, calls) <==> IntsFit(counts, unit, bytes)
  {
    if bytes > INT_MAX {
      assert unit != 1;
      var r :| 0 <= r < |counts| && Total(counts[r], |counts[r]|) >= INT_MAX;
      BytesWrapped(counts, unit, typesize, bytes, r, calls[r]);
    } else if p: nat :| 0 <= p < |counts| && !ArrivalsFit(counts, unit, p) {
      Positive(typesize, unit);
      ArrivalsWrapped(counts, unit, typesize, bytes, p, calls[p]);
    } else {
      forall p {:trigger calls[p]} | 0 <= p < |counts|
        ensures Exact(counts, typesize, p, calls[p])
      {
        SendExact(counts, unit, typesize, bytes, p, calls[p]);
        RecvExact(counts, unit, typesize, bytes, p, calls[p]);
      }
    }
  }

  lemma Positive(t: nat, u: nat)
    requires t > 0 && u > 0
    ensures t * u > 0
  {
  }

  /** Three ranks that each send 2^30 elements to the first one: single elements fit on every sender, and the
      displacements of the receiver wrap. */
  lemma ArrivalsOverflow()
    ensures var counts := [[0x4000_0000, 0, 0], [0x4000_0000, 0, 0], [0x4000_0000, 0, 0]];
            Fits(counts, 1) && Wide(counts, 0) && !ArrivalsFit(counts, 1, 0)
            && IntOf(Total(FromRanks(counts, 0), 3)) == -0x4000_0000
  {
    var row: seq<nat> := [0x4000_0000, 0, 0];
    var counts := [row, row, row];
    assert Total(row, 3) == 0x4000_0000;
    OneFits(counts);
    var col := FromRanks(counts, 0);
    assert Total(col, 3) == Total(col, 2) + col[2] && Total(col, 2) == Total(col, 1) + col[1] && Total(col, 1) == Total(col, 0) + col[0];
    WideScaled(counts, 1, 0);
    ColumnScaled(counts, 1, 0, 3);
  }

  /** One rank that sends itself 2^32 bytes in one block: the block fits, and its size wraps to no bytes. */
  lemma BlockOverflows()
    ensures var counts := [[0x1_0000_0000]];
            Fits(counts, 0x1_0000_0000) && !Fits(counts, 1) && IntOf(1 * 0x1_0000_0000) == 0
  {
    var unit: nat := 0x1_0000_0000;
    var counts: seq<seq<nat>> := [[unit]];
    assert unit == unit * 1;
    assert Divides(unit, counts[0][0]);
    assert Total(Scaled(counts[0], unit), 1) == Scaled(counts[0], unit)[0] == 1;
    assert Total(Scaled(counts[0], 1), 1) == Scaled(counts[0], 1)[0] == unit;
  }

  // ---------------------------------------------------------------------------------------------
  // The whole exchange
  // ---------------------------------------------------------------------------------------------

  /** Every rank hands in one count and one displacement per rank, and no more than its buffer holds. */
  ghost predicate WellFormed<T>(send: seq<Request<T>>) {
    && |send| > 0
    && forall r {:trigger send[r]} :: 0 <= r < |send| ==>
         && |send[r].counts| == |send| == |send[r].displs|
         && (NonNegative(send[r]) ==> Total(Counts(send[r].counts), |send|) <= |send[r].buf|)
  }

  ghost predicate AllNonNegative<T>(send: seq<Request<T>>) {
    forall r {:trigger send[r]} :: 0 <= r < |send| ==> NonNegative(send[r])
  }

  function Buffers<T>(send: seq<Request<T>>): (b: seq<seq<T>>)
    ensures |b| == |send|
  {
    seq(|send|, r requires 0 <= r < |send| => send[r].buf)
  }

  ghost function AllCounts<T>(send: seq<Request<T>>): (c: seq<seq<nat>>)
    requires AllNonNegative(send)
    ensures |c| == |send|
  {
    seq(|send|, r requires 0 <= r < |send| => Counts(send[r].counts))
  }

  lemma AllSquare<T>(send: seq<Request<T>>)
    requires WellFormed(send) && AllNonNegative(send)
    ensures Square(Buffers(send), AllCounts(send))
    ensures forall p :: 0 <= p < |send| ==> Wide(AllCounts(send), p)
  {
    var c := AllCounts(send);
    forall r {:trigger c[r]} | 0 <= r < |send|
      ensures |c[r]| == |send| && Total(c[r], |send|) <= |Buffers(send)[r]|
    {
      assert NonNegative(send[r]);
    }
  }

  /** The first check of every rank. */
  method AnyNegative<T>(q: Request<T>) returns (bad: bool)
    requires |q.counts| == |q.displs|
    ensures bad <==> !NonNegative(q)
  {
    bad := false;
    for p := 0 to |q.counts|
      invariant bad ==> !NonNegative(q)
      invariant !bad ==> forall k :: 0 <= k < p ==> q.counts[k] >= 0 && q.displs[k] >= 0
    {
      if q.counts[p] < 0 || q.displs[p] < 0 {
        bad := true;
      }
    }
  }

  method CheckAll<T>(send: seq<Request<T>>) returns (bad: bool)
    requires WellFormed(send)
    ensures bad <==> !AllNonNegative(send)
  {
    bad := false;
    for r := 0 to |send|
      invariant bad ==> !AllNonNegative(send)
      invariant !bad ==> forall q {:trigger send[q]} :: 0 <= q < r ==> NonNegative(send[q])
    {
      var mine := AnyNegative(send[r]);
      bad := bad || mine;
    }
  }

  method TakeCounts<T>(send: seq<Request<T>>) returns (counts: seq<seq<nat>>)
    requires AllNonNegative(send)
    ensures counts == AllCounts(send)
  {
    counts := [];
    for r := 0 to |send|
      invariant |counts| == r && forall q :: 0 <= q < r ==> counts[q] == AllCounts(send)[q]
    {
      assert NonNegative(send[r]);
      counts := counts + [Counts(send[r].counts)];
    }
  }

  /** Rank p got the elements meant for it, in rank order, with the transposed counts and their partial sums. */
  ghost predicate Served<T>(bufs: seq<seq<T>>, counts: seq<seq<nat>>, p: nat, recvbuf: seq<T>, rcounts: seq<nat>, rdispls: seq<int>)
    requires Square(bufs, counts) && p < |counts| && Wide(counts, p)
  {
    && recvbuf == Gathered(bufs, counts, p, |counts|) && rcounts == FromRanks(counts, p)
    && |rdispls| == |counts| + 1 && forall r :: 0 <= r <= |counts| ==> rdispls[r] == Total(FromRanks(counts, p), r)
  }

  ghost predicate AllServed<T>(bufs: seq<seq<T>>, counts: seq<seq<nat>>, out: Outcome<T>, n: nat)
    requires Square(bufs, counts) && n <= |counts| && (forall p :: 0 <= p < |counts| ==> Wide(counts, p)) && out.Delivered?
  {
    && |out.recvbufs| == |out.rcounts| == |out.rdispls| == n
    && forall p {:trigger out.recvbufs[p]} :: 0 <= p < n ==> Served(bufs, counts, p, out.recvbufs[p], out.rcounts[p], out.rdispls[p])
  }

  lemma ServeNext<T>(bufs: seq<seq<T>>, counts: seq<seq<nat>>, a: seq<seq<T>>, b: seq<seq<nat>>, c: seq<seq<int>>,
                     recvbuf: seq<T>, rcounts: seq<nat>, rdispls: seq<int>, p: nat)
    requires Square(bufs, counts) && p < |counts| && (forall q :: 0 <= q < |counts| ==> Wide(counts, q))
    requires AllServed(bufs, counts, Delivered(a, b, c), p) && Served(bufs, counts, p, recvbuf, rcounts, rdispls)
    ensures AllServed(bufs, counts, Delivered(a + [recvbuf], b + [rcounts], c + [rdispls]), p + 1)
  {
    var out := Delivered(a + [recvbuf], b + [rcounts], c + [rdispls]);
    forall q {:trigger out.recvbufs[q]} | 0 <= q < p + 1
      ensures Served(bufs, counts, q, out.recvbufs[q], out.rcounts[q], out.rdispls[q])
    {
      if q < p {
        assert out.recvbufs[q] == a[q];
      }
    }
  }

  method MakeCalls(counts: seq<seq<nat>>, unit: nat, bytes: nat) returns (calls: seq<Call>)
    requires unit > 0 && forall p :: 0 <= p < |counts| ==> Wide(counts, p)
    ensures AreCalls(counts, unit, bytes, calls, |counts|)
  {
    calls := [];
    for p := 0 to |counts|
      invariant AreCalls(counts, unit, bytes, calls, p)
    {
      var c := MakeCall(counts, unit, bytes, p);
      assert RanksCall(counts, unit, bytes, p, c);
      calls := calls + [c];
    }
  }

  /** Whether the ints of a call hold what they should. */
  method CheckCall(counts: seq<seq<nat>>, unit: nat, bytes: nat, p: nat, c: Call) returns (ok: bool)
    requires unit > 0 && p < |counts| && Wide(counts, p) && Wide(ScaledAll(counts, unit), p) && IsCall(counts, unit, bytes, p, c)
    ensures ok <==> bytes <= INT_MAX && ArrivalsFit(counts, unit, p)
  {
    var sums := PartialSums(c.rsizes, 0);
    ok := c.bytes == bytes && c.rdispls[|counts|] == sums[|counts|];
  }

  method CheckCalls(counts: seq<seq<nat>>, unit: nat, bytes: nat, calls: seq<Call>) returns (ok: bool)
    requires |counts| > 0 && unit > 0 && (forall p :: 0 <= p < |counts| ==> Wide(counts, p)) && AreCalls(counts, unit, bytes, calls, |counts|)
    ensures ok <==> IntsFit(counts, unit, bytes)
  {
    ok := true;
    for p := 0 to |counts|
      invariant ok ==> forall q :: 0 <= q < p ==> ArrivalsFit(counts, unit, q)
      invariant ok && p > 0 ==> bytes <= INT_MAX
      invariant !ok ==> !IntsFit(counts, unit, bytes)
    {
      assert RanksCall(counts, unit, bytes, p, calls[p]);
      var mine := CheckCall(counts, unit, bytes, p, calls[p]);
      ok := ok && mine;
    }
  }

  /** The exchange proper, with a block size that fits. */
  method ExchangeBlocks<T>(bufs: seq<seq<T>>, counts: seq<seq<nat>>, unit: nat, bytes: nat, calls: seq<Call>,
                            ghost typesize: nat) returns (out: Outcome<T>)
    requires Square(bufs, counts) && (forall p :: 0 <= p < |counts| ==> Wide(counts, p)) && Fits(counts, unit)
    requires AreCalls(counts, unit, bytes, calls, |counts|) && 0 < typesize && bytes == typesize * unit && IntsFit(counts, unit, bytes)
    ensures out.Delivered? && AllServed(bufs, counts, out, |counts|)
  {
    var a, b, c := [], [], [];
    for p := 0 to |counts|
      invariant AllServed(bufs, counts, Delivered(a, b, c), p)
    {
      assert RanksCall(counts, unit, bytes, p, calls[p]) && |counts[p]| == |counts|;
      var recvbuf := ReceiveBlocks(bufs, counts, unit, p);
      var rcounts := ReceiveCounts(counts, unit, p, calls[p].rsizes);
      var rdispls := ReceiveDispls(counts, unit, p, calls[p].rdispls, typesize);
      ServeNext(bufs, counts, a, b, c, recvbuf, rcounts, rdispls, p);
      a, b, c := a + [recvbuf], b + [rcounts], c + [rdispls];
    }
    out := Delivered(a, b, c);
  }

  /** The block size that the ranks agree on. */
  ghost predicate ChosenUnit(counts: seq<seq<nat>>, unit: nat) {
    && Fits(counts, unit) && (Fits(counts, 1) ==> unit == 1)
    && (!Fits(counts, 1) ==> SendsTooMuch(counts) && forall e: nat :: Divides(e, unit) <==> DividesAll(e, counts))
  }

  /** The exchange on all ranks, for elements of `typesize` bytes.  It fails exactly if a count or displacement is
      negative and gets stuck exactly if no common block size fits; otherwise an int wraps and MPI is handed
      wrong places or sizes, or it delivers what an element-wise exchange of the packed buffers delivers, exactly
      when the block size and what each rank receives fit into an int. */
  method Exchange<T>(send: seq<Request<T>>, typesize: nat) returns (out: Outcome<T>, unit: nat)
    requires WellFormed(send) && 0 < typesize <= INT_MAX
    ensures out.Invalid? <==> !AllNonNegative(send)
    ensures out.Stuck? <==> AllNonNegative(send) && forall d :: !Fits(AllCounts(send), d)
    ensures out.Wrapped? || out.Delivered? ==>
              Square(Buffers(send), AllCounts(send)) && (forall p :: 0 <= p < |send| ==> Wide(AllCounts(send), p))
              && ChosenUnit(AllCounts(send), unit) && (out.Delivered? <==> IntsFit(AllCounts(send), unit, typesize * unit))
    ensures out.Wrapped? ==> |out.calls| == |send| && !AllExact(AllCounts(send), typesize, out.calls)
    ensures out.Delivered? ==> AllServed(Buffers(send), AllCounts(send), out, |send|)
  {
    unit := 1;
    var bad := CheckAll(send);
    if bad {
      return Invalid, unit;
    }
    var counts := TakeCounts(send);
    AllSquare(send);
    var stuck;
    unit, stuck := ChooseUnit(counts);
    if stuck {
      return Outcome.Stuck, unit;
    }
    var bytes := typesize * unit;
    var calls := MakeCalls(counts, unit, bytes);
    var ok := CheckCalls(counts, unit, bytes, calls);
    ExactIff(counts, unit, typesize, bytes, calls);
    if !ok {
      return Wrapped(calls), unit;
    }
    out := ExchangeBlocks(Buffers(send), counts, unit, bytes, calls, typesize);
  }

  /** With buffers that hold just what is sent, that is the plain exchange of one element at a time. */
  lemma {:induction false} GatheredFirst<T>(bufs: seq<seq<T>>, counts: seq<seq<nat>>, p: nat, r: nat)
    requires Square(bufs, counts) && p < |counts| && r <= |counts|
    requires forall q {:trigger bufs[q]} :: 0 <= q < |bufs| ==> p < |counts[q]| && |bufs[q]| == Total(counts[q], |counts[q]|)
    ensures Flat(seq(|bufs|, q requires 0 <= q < |bufs| => Segments.Part(bufs[q], counts[q], p))[..r]) == Gathered(bufs, counts, p, r)
  {
    var parts := seq(|bufs|, q requires 0 <= q < |bufs| => Segments.Part(bufs[q], counts[q], p));
    if r > 0 {
      GatheredFirst(bufs, counts, p, r - 1);
      FlatOne(parts, r - 1);
      assert |bufs[r - 1]| == Total(counts[r - 1], |counts[r - 1]|);
    }
  }

  lemma GatheredIsExchange<T>(bufs: seq<seq<T>>, counts: seq<seq<nat>>, p: nat)
    requires Square(bufs, counts) && p < |counts|
    requires forall q {:trigger bufs[q]} :: 0 <= q < |bufs| ==> p < |counts[q]| && |bufs[q]| == Total(counts[q], |counts[q]|)
    ensures Gathered(bufs, counts, p, |counts|) == Segments.Exchange(bufs, counts, p)
  {
    GatheredFirst(bufs, counts, p, |counts|);
    var parts := seq(|bufs|, q requires 0 <= q < |bufs| => Segments.Part(bufs[q], counts[q], p));
    assert parts[..|counts|] == parts;
  }

  // ---------------------------------------------------------------------------------------------
  // Packed buffers
  // ---------------------------------------------------------------------------------------------

  function Identity(n: nat): (s: seq<int>)
    ensures |s| == n
  {
    seq(n, i requires 0 <= i < n => i)
  }

  /** The displacements the caller hands in are only checked for sign: what is sent to p starts at the partial
      sum of the counts.  It is what the caller pointed at, whatever the buffer holds, exactly if nothing goes
      to p or the displacement is that partial sum. */
  lemma PackedExactly(counts: seq<nat>, displs: seq<nat>, p: nat, n: nat)
    requires p < |counts| == |displs| && Total(counts, |counts|) <= n && displs[p] + counts[p] <= n
    ensures (forall buf: seq<int> :: |buf| == n ==> Slot(buf, counts, p) == buf[displs[p]..displs[p] + counts[p]])
       <==> counts[p] == 0 || displs[p] == Total(counts, p)
  {
    TotalMonotone(counts, p + 1, |counts|);
    if counts[p] > 0 && displs[p] != Total(counts, p) {
      var buf := Identity(n);
      assert Slot(buf, counts, p)[0] == Total(counts, p);
      assert buf[displs[p]..displs[p] + counts[p]][0] == displs[p];
      assert |buf| == n;
    }
  }

  /** Two elements, one for each rank, that the caller wants sent in the opposite order: rank 0 gets the first one
      all the same. */
  lemma DisplsIgnored()
    ensures var buf: seq<int>, counts, displs := [10, 20], [1, 1], [1, 0];
            Total(counts, 2) == 2 && Slot(buf, counts, 0) == [10] && buf[displs[0]..displs[0] + counts[0]] == [20]
  {
    var counts: seq<nat> := [1, 1];
    assert Total(counts, 2) == Total(counts, 1) + 1 && Total(counts, 1) == Total(counts, 0) + 1;
  }
}
