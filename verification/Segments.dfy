/** Consecutive segments of a buffer: prefix sums, counting sort by destination, and the exchange of one
    segment from every rank to every rank. */
module Segments {

  /** Where segment i begins when the segments are laid out one after the other. */
  function Start<T>(g: seq<seq<T>>, i: nat): nat
    requires i <= |g|
  {
    if i == 0 then 0 else Start(g, i - 1) + |g[i - 1]|
  }

  function Flat<T>(g: seq<seq<T>>): seq<T> {
    if g == [] then [] else Flat(g[..|g| - 1]) + g[|g| - 1]
  }

  lemma {:induction false} StartPrefix<T>(g: seq<seq<T>>, h: seq<seq<T>>, i: nat)
    requires i <= |g| && i <= |h| && g[..i] == h[..i]
    ensures Start(g, i) == Start(h, i)
  {
    if i > 0 {
      assert g[..i][..i - 1] == g[..i - 1] && h[..i][..i - 1] == h[..i - 1];
      assert g[i - 1] == g[..i][i - 1] == h[i - 1];
      StartPrefix(g, h, i - 1);
    }
  }

  lemma {:induction false} StartMonotone<T>(g: seq<seq<T>>, i: nat, j: nat)
    requires i < j <= |g|
    ensures Start(g, i) + |g[i]| <= Start(g, j)
    decreases j
  {
    if i < j - 1 {
      StartMonotone(g, i, j - 1);
    }
  }

  lemma {:induction false} FlatLength<T>(g: seq<seq<T>>)
    ensures |Flat(g)| == Start(g, |g|)
  {
    if g != [] {
      FlatLength(g[..|g| - 1]);
      StartPrefix(g, g[..|g| - 1], |g| - 1);
    }
  }

  /** The buffer s holds the segment x from position `at` on. */
  ghost predicate Holds<T>(s: seq<T>, at: nat, x: seq<T>) {
    at + |x| <= |s| && s[at..at + |x|] == x
  }

  lemma HoldsElsewhere<T>(s: seq<T>, at: nat, x: seq<T>, i: nat, v: T)
    requires Holds(s, at, x) && i < |s| && (i < at || at + |x| <= i)
    ensures Holds(s[i := v], at, x)
  {
  }

  lemma HoldsAppend<T>(s: seq<T>, at: nat, x: seq<T>, v: T)
    requires Holds(s, at, x) && at + |x| < |s|
    ensures Holds(s[at + |x| := v], at, x + [v])
  {
  }

  lemma HoldsPrepend<T>(s: seq<T>, at: nat, x: seq<T>, v: T)
    requires at > 0 && Holds(s, at, x)
    ensures Holds(s[at - 1 := v], at - 1, [v] + x)
  {
  }

  /** The buffer s is made of the segments of g, back to back. */
  ghost predicate Laid<T>(s: seq<T>, g: seq<seq<T>>) {
    && |s| == Start(g, |g|)
    && forall i :: 0 <= i < |g| ==> LaidAt(s, g, i)
  }

  ghost predicate LaidAt<T>(s: seq<T>, g: seq<seq<T>>, i: nat)
    requires i < |g|
  {
    Holds(s, Start(g, i), g[i])
  }

  lemma FlatOne<T>(g: seq<seq<T>>, n: nat)
    requires n < |g|
    ensures Flat(g[..n + 1]) == Flat(g[..n]) + g[n]
  {
    assert g[..n + 1][..n] == g[..n];
  }

  lemma FlatPrefixLength<T>(g: seq<seq<T>>, n: nat)
    requires n <= |g|
    ensures |Flat(g[..n])| == Start(g, n)
  {
    FlatLength(g[..n]);
    StartPrefix(g, g[..n], n);
  }

  lemma Associative<T>(a: seq<T>, b: seq<T>, c: seq<T>)
    ensures a + b + c == a + (b + c)
  {
  }

  lemma {:induction false} FlatPrefix<T>(g: seq<seq<T>>, n: nat)
    requires n <= |g|
    ensures Flat(g[..n]) <= Flat(g)
    decreases |g| - n
  {
    if n == |g| {
      assert g[..n] == g;
    } else {
      FlatPrefix(g, n + 1);
      FlatOne(g, n);
    }
  }

  /** Segment i of the flat buffer is g[i]. */
  lemma FlatHolds<T>(g: seq<seq<T>>, i: nat)
    requires i < |g|
    ensures Holds(Flat(g), Start(g, i), g[i])
  {
    FlatPrefix(g, i + 1);
    FlatOne(g, i);
    FlatPrefixLength(g, i);
    HoldsBehind(Flat(g[..i]), g[i], Flat(g));
  }

  lemma HoldsBehind<T>(a: seq<T>, x: seq<T>, s: seq<T>)
    requires a + x <= s
    ensures Holds(s, |a|, x)
  {
    assert (a + x)[|a|..|a| + |x|] == x;
    assert s[..|a| + |x|][|a|..|a| + |x|] == x;
  }

  // ---------------------------------------------------------------------------------------------
  // Stable distribution by destination
  // ---------------------------------------------------------------------------------------------

  /** The elements of s with destination p, in their order. */
  function Bucket<T>(s: seq<T>, dest: T -> nat, p: nat): seq<T> {
    if s == [] then []
    else
      var front := Bucket(s[..|s| - 1], dest, p);
      if dest(s[|s| - 1]) == p then front + [s[|s| - 1]] else front
  }

  function Buckets<T>(s: seq<T>, dest: T -> nat, np: nat): (g: seq<seq<T>>)
    ensures |g| == np
  {
    seq(np, p requires 0 <= p < np => Bucket(s, dest, p))
  }

  lemma {:induction false} BucketConcat<T>(a: seq<T>, b: seq<T>, dest: T -> nat, p: nat)
    ensures Bucket(a + b, dest, p) == Bucket(a, dest, p) + Bucket(b, dest, p)
  {
    if b == [] {
      assert a + b == a;
    } else {
      assert (a + b)[..|a + b| - 1] == a + b[..|b| - 1];
      BucketConcat(a, b[..|b| - 1], dest, p);
    }
  }

  lemma BucketOne<T>(a: seq<T>, x: T, dest: T -> nat, p: nat)
    ensures Bucket(a + [x], dest, p) == if dest(x) == p then Bucket(a, dest, p) + [x] else Bucket(a, dest, p)
  {
    assert (a + [x])[..|a|] == a;
  }

  lemma BucketPrefix<T>(a: seq<T>, all: seq<T>, dest: T -> nat, p: nat)
    requires a <= all
    ensures Bucket(a, dest, p) <= Bucket(all, dest, p)
  {
    BucketConcat(a, all[|a|..], dest, p);
    assert all == a + all[|a|..];
  }

  lemma {:induction false} BucketMembers<T>(s: seq<T>, dest: T -> nat, p: nat, x: T)
    ensures x in Bucket(s, dest, p) <==> x in s && dest(x) == p
  {
    if s != [] {
      BucketMembers(s[..|s| - 1], dest, p, x);
      assert s == s[..|s| - 1] + [s[|s| - 1]];
    }
  }

  lemma {:induction false} StartOne<T>(s: seq<T>, x: T, dest: T -> nat, np: nat, i: nat)
    requires i <= np
    ensures Start(Buckets(s + [x], dest, np), i) == Start(Buckets(s, dest, np), i) + (if dest(x) < i then 1 else 0)
  {
    if i > 0 {
      StartOne(s, x, dest, np, i - 1);
      BucketOne(s, x, dest, i - 1);
    }
  }

  lemma {:induction false} StartEmpty<T>(dest: T -> nat, np: nat, i: nat)
    requires i <= np
    ensures Start(Buckets([], dest, np), i) == 0
  {
    if i > 0 {
      StartEmpty(dest, np, i - 1);
    }
  }

  /** No element is lost: the buckets hold as many elements as the list. */
  lemma {:induction false} BucketsLength<T>(s: seq<T>, dest: T -> nat, np: nat)
    requires forall x <- s :: dest(x) < np
    ensures Start(Buckets(s, dest, np), np) == |s|
  {
    if s == [] {
      StartEmpty(dest, np, np);
    } else {
      var n := |s| - 1;
      BucketsLength(s[..n], dest, np);
      StartOne(s[..n], s[n], dest, np, np);
      assert s == s[..n] + [s[n]];
    }
  }

  /** What one rank receives from all ranks, in rank order, is its bucket of the concatenated lists. */
  lemma {:induction false} ReceivedInOrder<T>(lists: seq<seq<T>>, dest: T -> nat, p: nat)
    ensures Flat(seq(|lists|, r requires 0 <= r < |lists| => Bucket(lists[r], dest, p))) == Bucket(Flat(lists), dest, p)
  {
    if lists != [] {
      var n := |lists| - 1;
      var got := seq(|lists|, r requires 0 <= r < |lists| => Bucket(lists[r], dest, p));
      ReceivedInOrder(lists[..n], dest, p);
      assert got[..n] == seq(n, r requires 0 <= r < n => Bucket(lists[..n][r], dest, p));
      BucketConcat(Flat(lists[..n]), lists[n], dest, p);
    }
  }

  // ---------------------------------------------------------------------------------------------
  // Prefix sums and the exchange
  // ---------------------------------------------------------------------------------------------

  function Total(counts: seq<nat>, i: nat): nat
    requires i <= |counts|
  {
    if i == 0 then 0 else Total(counts, i - 1) + counts[i - 1]
  }

  /** std::partial_sum into a vector one longer, whose first entry is the base. */
  method PartialSums(counts: seq<nat>, base: int) returns (sums: seq<int>)
    ensures |sums| == |counts| + 1
    ensures forall i :: 0 <= i <= |counts| ==> sums[i] == base + Total(counts, i)
  {
    sums := [base];
    for i := 0 to |counts|
      invariant |sums| == i + 1
      invariant forall j :: 0 <= j <= i ==> sums[j] == base + Total(counts, j)
    {
      sums := sums + [sums[i] + counts[i]];
    }
  }

  lemma {:induction false} TotalIsStart<T>(counts: seq<nat>, g: seq<seq<T>>, i: nat)
    requires i <= |counts| == |g| && forall j :: 0 <= j < i ==> counts[j] == |g[j]|
    ensures Total(counts, i) == Start(g, i)
  {
    if i > 0 {
      TotalIsStart(counts, g, i - 1);
    }
  }

  lemma {:induction false} TotalMonotone(counts: seq<nat>, i: nat, j: nat)
    requires i <= j <= |counts|
    ensures Total(counts, i) <= Total(counts, j)
    decreases j
  {
    if i < j {
      TotalMonotone(counts, i, j - 1);
    }
  }

  /** The part of a packed send buffer that goes to rank p. */
  function Part<T>(buf: seq<T>, counts: seq<nat>, p: nat): (s: seq<T>)
    requires p < |counts| && |buf| == Total(counts, |counts|)
    ensures |s| == counts[p]
  {
    TotalMonotone(counts, p + 1, |counts|);
    buf[Total(counts, p)..Total(counts, p) + counts[p]]
  }

  /** The all-to-all exchange: rank p receives, in rank order, the part of every send buffer that is for p. */
  function Exchange<T>(bufs: seq<seq<T>>, counts: seq<seq<nat>>, p: nat): seq<T>
    requires |bufs| == |counts| && forall r :: 0 <= r < |bufs| ==> p < |counts[r]| && |bufs[r]| == Total(counts[r], |counts[r]|)
  {
    Flat(seq(|bufs|, r requires 0 <= r < |bufs| => Part(bufs[r], counts[r], p)))
  }

  lemma PartOfBuckets<T>(s: seq<T>, dest: T -> nat, np: nat, buf: seq<T>, counts: seq<nat>, p: nat)
    requires p < np == |counts| && forall q :: 0 <= q < np ==> counts[q] == |Bucket(s, dest, q)|
    requires Laid(buf, Buckets(s, dest, np))
    ensures |buf| == Total(counts, np) && Part(buf, counts, p) == Bucket(s, dest, p)
  {
    var g := Buckets(s, dest, np);
    TotalIsStart(counts, g, np);
    TotalIsStart(counts, g, p);
    assert LaidAt(buf, g, p);
  }

  /** Packing by destination on every rank and exchanging delivers to p exactly its bucket of the
      concatenation of the ranks' lists. */
  lemma ExchangeOfBuckets<T>(lists: seq<seq<T>>, dest: T -> nat, np: nat, bufs: seq<seq<T>>, counts: seq<seq<nat>>, p: nat)
    requires p < np && |lists| == |bufs| == |counts|
    requires forall r :: 0 <= r < |lists| ==> Laid(bufs[r], Buckets(lists[r], dest, np))
    requires forall r :: 0 <= r < |lists| ==> |counts[r]| == np && forall q :: 0 <= q < np ==> counts[r][q] == |Bucket(lists[r], dest, q)|
    ensures forall r :: 0 <= r < |bufs| ==> |bufs[r]| == Total(counts[r], |counts[r]|)
    ensures Exchange(bufs, counts, p) == Bucket(Flat(lists), dest, p)
  {
    forall r | 0 <= r < |lists|
      ensures |bufs[r]| == Total(counts[r], np) && Part(bufs[r], counts[r], p) == Bucket(lists[r], dest, p)
    {
      PartOfBuckets(lists[r], dest, np, bufs[r], counts[r], p);
    }
    ReceivedInOrder(lists, dest, p);
    assert seq(|bufs|, r requires 0 <= r < |bufs| => Part(bufs[r], counts[r], p))
        == seq(|lists|, r requires 0 <= r < |lists| => Bucket(lists[r], dest, p));
  }
}
