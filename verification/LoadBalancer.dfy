/** Mapping of supernodes to processors: greedy assignment to the least loaded one, and subtree-to-subcube
    splitting of processor groups down the elimination tree. */
module LoadBalancer {

  // ---------------------------------------------------------------------------------------------
  // Sums of loads
  // ---------------------------------------------------------------------------------------------

  function Sum(s: seq<real>): real {
    if s == [] then 0.0 else Sum(s[..|s| - 1]) + s[|s| - 1]
  }

  lemma SumOne(s: seq<real>, x: real)
    ensures Sum(s + [x]) == Sum(s) + x
  {
    assert (s + [x])[..|s|] == s;
  }

  lemma {:induction false} SumUpdate(s: seq<real>, p: nat, x: real)
    requires p < |s|
    ensures Sum(s[p := x]) == Sum(s) - s[p] + x
  {
    var n := |s| - 1;
    if p < n {
      SumUpdate(s[..n], p, x);
      assert s[p := x][..n] == s[..n][p := x];
    } else {
      assert s[p := x][..n] == s[..n];
    }
  }

  /** n times x. */
  function Times(n: nat, x: real): real { (n as real) * x }

  lemma TimesSum(n: nat, x: real, y: real)
    ensures Times(n, x + y) == Times(n, x) + Times(n, y)
  {
  }

  lemma TimesNext(n: nat, x: real)
    ensures Times(n + 1, x) == Times(n, x) + x
  {
  }

  lemma TimesOrder(n: nat, x: real, y: real)
    requires x <= y
    ensures Times(n, x) <= Times(n, y)
  {
  }

  /** The sum is at least the length times the least element. */
  lemma {:induction false} SumAtLeast(s: seq<real>, m: real)
    requires forall i :: 0 <= i < |s| ==> m <= s[i]
    ensures Times(|s|, m) <= Sum(s)
  {
    if s != [] {
      TimesNext(|s| - 1, m);
      SumAtLeast(s[..|s| - 1], m);
    }
  }

  lemma {:induction false} SumZero(n: nat)
    ensures Sum(seq(n, _ => 0.0)) == 0.0
  {
    if n > 0 {
      assert seq(n, _ => 0.0)[..n - 1] == seq(n - 1, _ => 0.0);
      SumZero(n - 1);
    }
  }

  // ---------------------------------------------------------------------------------------------
  // Greedy assignment
  // ---------------------------------------------------------------------------------------------

  /** The load of processor p under the assignment of the first jobs. */
  function LoadOf(procs: seq<nat>, costs: seq<real>, p: nat): real
    requires |procs| == |costs|
  {
    if procs == [] then 0.0
    else LoadOf(procs[..|procs| - 1], costs[..|costs| - 1], p) + (if procs[|procs| - 1] == p then costs[|costs| - 1] else 0.0)
  }

  lemma LoadOne(procs: seq<nat>, costs: seq<real>, q: nat, c: real, p: nat)
    requires |procs| == |costs|
    ensures LoadOf(procs + [q], costs + [c], p) == LoadOf(procs, costs, p) + (if q == p then c else 0.0)
  {
    assert (procs + [q])[..|procs|] == procs && (costs + [c])[..|costs|] == costs;
  }

  /** std::min_element: the first least loaded processor. */
  method MinElement(load: seq<real>) returns (p: nat)
    requires |load| > 0
    ensures p < |load| && (forall q :: 0 <= q < |load| ==> load[p] <= load[q]) && forall q :: 0 <= q < p ==> load[p] < load[q]
  {
    p := 0;
    for i := 1 to |load|
      invariant p < i && (forall q :: 0 <= q < i ==> load[p] <= load[q]) && forall q :: 0 <= q < p ==> load[p] < load[q]
    {
      if load[i] < load[p] {
        p := i;
      }
    }
  }

  ghost predicate Loads(load: seq<real>, np: nat, procs: seq<nat>, costs: seq<real>) {
    && |load| == np && |procs| == |costs| && (forall i {:trigger procs[i]} :: 0 <= i < |procs| ==> procs[i] < np)
    && (forall p {:trigger load[p]} :: 0 <= p < np ==> load[p] == LoadOf(procs, costs, p))
    && Sum(load) == Sum(costs)
  }

  lemma AssignOne(load: seq<real>, np: nat, procs: seq<nat>, costs: seq<real>, q: nat, c: real)
    requires Loads(load, np, procs, costs) && q < np
    ensures Loads(load[q := load[q] + c], np, procs + [q], costs + [c])
  {
    SumUpdate(load, q, load[q] + c);
    SumOne(costs, c);
    var load' := load[q := load[q] + c];
    forall p {:trigger load'[p]} | 0 <= p < np
      ensures load'[p] == LoadOf(procs + [q], costs + [c], p)
    {
      LoadOne(procs, costs, q, c, p);
    }
  }

  /** Job i went to the first of the processors that had the least load at that moment. */
  ghost predicate ToLeast(procs: seq<nat>, costs: seq<real>, np: nat, i: nat)
    requires i < |procs| == |costs|
  {
    && procs[i] < np
    && (forall q {:trigger LoadOf(procs[..i], costs[..i], q)} :: 0 <= q < np ==>
          LoadOf(procs[..i], costs[..i], procs[i]) <= LoadOf(procs[..i], costs[..i], q))
    && forall q {:trigger LoadOf(procs[..i], costs[..i], q)} :: 0 <= q < procs[i] ==>
          LoadOf(procs[..i], costs[..i], procs[i]) < LoadOf(procs[..i], costs[..i], q)
  }

  lemma ToLeastNow(load: seq<real>, np: nat, procs: seq<nat>, costs: seq<real>, p: nat, c: real)
    requires Loads(load, np, procs, costs) && p < np
    requires (forall q :: 0 <= q < np ==> load[p] <= load[q]) && forall q :: 0 <= q < p ==> load[p] < load[q]
    ensures ToLeast(procs + [p], costs + [c], np, |procs|)
  {
    var i := |procs|;
    assert (procs + [p])[..i] == procs && (costs + [c])[..i] == costs;
    forall q {:trigger LoadOf(procs, costs, q)} | 0 <= q < np
      ensures load[q] == LoadOf(procs, costs, q)
    {
    }
  }

  lemma ToLeastStays(procs: seq<nat>, costs: seq<real>, np: nat, p: nat, c: real, i: nat)
    requires i < |procs| == |costs| && ToLeast(procs, costs, np, i)
    ensures ToLeast(procs + [p], costs + [c], np, i)
  {
    assert (procs + [p])[..i] == procs[..i] && (costs + [c])[..i] == costs[..i];
  }

  /** No processor carries more than the average plus its share of the largest job. */
  ghost predicate Bounded(load: seq<real>, np: nat, total: real, job: real)
    requires |load| == np > 0
  {
    forall p {:trigger load[p]} :: 0 <= p < np ==> Times(np, load[p]) <= total + Times(np - 1, job)
  }

  lemma BoundLeast(load: seq<real>, np: nat, total: real, job: real, q: nat, c: real)
    requires |load| == np > 0 && q < np && Sum(load) == total && c <= job
    requires forall p :: 0 <= p < np ==> load[q] <= load[p]
    ensures Times(np, load[q] + c) <= total + c + Times(np - 1, job)
  {
    SumAtLeast(load, load[q]);
    TimesSum(np, load[q], c);
    TimesNext(np - 1, c);
    TimesOrder(np - 1, c, job);
  }

  lemma BoundOne(load: seq<real>, np: nat, total: real, job: real, q: nat, c: real)
    requires |load| == np > 0 && q < np && Sum(load) == total && 0.0 <= c <= job
    requires Bounded(load, np, total, job) && forall p :: 0 <= p < np ==> load[q] <= load[p]
    ensures Bounded(load[q := load[q] + c], np, total + c, job)
  {
    BoundLeast(load, np, total, job, q, c);
    var load' := load[q := load[q] + c];
    forall p {:trigger load'[p]} | 0 <= p < np
      ensures Times(np, load'[p]) <= total + c + Times(np - 1, job)
    {
      if p != q {
        assert load'[p] == load[p];
      }
    }
  }

  ghost predicate Fair(costs: seq<real>, job: real) {
    job >= 0.0 && forall i {:trigger costs[i]} :: 0 <= i < |costs| ==> 0.0 <= costs[i] <= job
  }

  /** The state of the loop after some jobs. */
  ghost predicate Balanced(load: seq<real>, np: nat, procs: seq<nat>, costs: seq<real>, job: real)
    requires np > 0
  {
    && Loads(load, np, procs, costs) && (Fair(costs, job) ==> Bounded(load, np, Sum(costs), job))
    && forall i :: 0 <= i < |procs| ==> ToLeast(procs, costs, np, i)
  }

  lemma BalancedOne(load: seq<real>, np: nat, procs: seq<nat>, costs: seq<real>, job: real, q: nat, c: real)
    requires np > 0 && Balanced(load, np, procs, costs, job) && q < np
    requires (forall p :: 0 <= p < np ==> load[q] <= load[p]) && forall p :: 0 <= p < q ==> load[q] < load[p]
    ensures Balanced(load[q := load[q] + c], np, procs + [q], costs + [c], job)
  {
    AssignOne(load, np, procs, costs, q, c);
    SumOne(costs, c);
    forall i | 0 <= i < |procs| + 1
      ensures ToLeast(procs + [q], costs + [c], np, i)
    {
      if i < |procs| {
        ToLeastStays(procs, costs, np, q, c, i);
      } else {
        ToLeastNow(load, np, procs, costs, q, c);
      }
    }
    if Fair(costs + [c], job) {
      assert (costs + [c])[|costs|] == c;
      forall i {:trigger costs[i]} | 0 <= i < |costs|
        ensures 0.0 <= costs[i] <= job
      {
        assert (costs + [c])[i] == costs[i];
      }
      BoundOne(load, np, Sum(costs), job, q, c);
    }
  }

  lemma BalancedNone(np: nat, job: real)
    requires np > 0
    ensures Balanced(seq(np, _ => 0.0), np, [], [], job)
  {
    SumZero(np);
    var load := seq(np, _ => 0.0);
    forall p {:trigger load[p]} | 0 <= p < np
      ensures load[p] == 0.0 && (job >= 0.0 ==> Times(np, load[p]) <= Times(np - 1, job))
    {
      if job >= 0.0 {
        TimesOrder(np - 1, 0.0, job);
      }
    }
  }

  /** The loop of both greedy balancers, for any cost per supernode.  `job` is any bound on the costs. */
  method Greedy(np: nat, costs: seq<real>, ghost job: real) returns (procMap: seq<nat>, ghost load: seq<real>)
    requires np > 0
    ensures Balanced(load, np, procMap, costs, job)
  {
    var loads := seq(np, _ => 0.0);
    procMap := [];
    BalancedNone(np, job);
    for i := 0 to |costs|
      invariant Balanced(loads, np, procMap, costs[..i], job)
    {
      var proc := MinElement(loads);
      BalancedOne(loads, np, procMap, costs[..i], job, proc, costs[i]);
      assert costs[..i] + [costs[i]] == costs[..i + 1];
      loads := loads[proc := loads[proc] + costs[i]];
      procMap := procMap + [proc];
    }
    assert costs[..|costs|] == costs;
    load := loads;
  }

  /** CHOLESKY_COST: the cost of factoring a panel of m rows and n columns. */
  function CholeskyCost(m: int, n: int): real {
    var x, y := m as real, n as real;
    y * x * x + 2.0 * y * x - y * y * y / 3.0 - 3.0 * (y * y) / 2.0 - y / 6.0 - 1.0
  }

  lemma CostFactored(x: real, y: real)
    ensures 6.0 * (y * x * x + 2.0 * y * x - y * y * y / 3.0 - 3.0 * (y * y) / 2.0 - y / 6.0 - 1.0)
         == (y - 1.0) * (4.0 * y * y + 7.0 * y + 6.0) + 6.0 * y * ((x - y) * (x + y)) + 12.0 * y * (x - y)
  {
  }

  lemma Product(a: real, b: real)
    requires a >= 0.0 && b >= 0.0
    ensures a * b >= 0.0
    ensures a > 0.0 && b > 0.0 ==> a * b > 0.0
    ensures a == 0.0 ==> a * b == 0.0
  {
  }

  /** The cost of a panel that is at least as high as wide is never negative, and zero only for a single entry. */
  lemma CostNonNegative(m: int, n: int)
    requires m >= n >= 1
    ensures CholeskyCost(m, n) >= 0.0
    ensures CholeskyCost(m, n) == 0.0 <==> m == 1
  {
    var x, y := m as real, n as real;
    CostFactored(x, y);
    Product(y, y);
    Product(y - 1.0, 4.0 * y * y + 7.0 * y + 6.0);
    Product(x - y, x + y);
    Product(6.0 * y, (x - y) * (x + y));
    Product(12.0 * y, x - y);
  }

  /** The widths of the supernodes are the differences of xsuper; heights are given. */
  ghost predicate Panels(xsuper: seq<int>, cc: seq<int>) {
    && |xsuper| > 0 && |cc| >= |xsuper| - 1
    && forall i {:trigger cc[i]} :: 0 <= i < |xsuper| - 1 ==> cc[i] >= xsuper[i + 1] - xsuper[i] >= 1
  }

  function WorkCosts(xsuper: seq<int>, cc: seq<int>): (c: seq<real>)
    requires |xsuper| > 0 && |cc| >= |xsuper| - 1
    ensures |c| == |xsuper| - 1
  {
    seq(|xsuper| - 1, i requires 0 <= i < |xsuper| - 1 => CholeskyCost(cc[i], xsuper[i + 1] - xsuper[i]))
  }

  function NnzCosts(xsuper: seq<int>, cc: seq<int>): (c: seq<real>)
    requires |xsuper| > 0 && |cc| >= |xsuper| - 1
    ensures |c| == |xsuper| - 1
  {
    seq(|xsuper| - 1, i requires 0 <= i < |xsuper| - 1 => ((xsuper[i + 1] - xsuper[i]) * cc[i]) as real)
  }

  ghost function Largest(costs: seq<real>): (m: real)
    ensures m >= 0.0 && forall i {:trigger costs[i]} :: 0 <= i < |costs| ==> costs[i] <= m
  {
    if costs == [] then 0.0
    else
      var m := Largest(costs[..|costs| - 1]);
      assert forall i {:trigger costs[i]} :: 0 <= i < |costs| - 1 ==> costs[i] == costs[..|costs| - 1][i];
      if m < costs[|costs| - 1] then costs[|costs| - 1] else m
  }

  lemma WorkFair(xsuper: seq<int>, cc: seq<int>)
    requires Panels(xsuper, cc)
    ensures Fair(WorkCosts(xsuper, cc), Largest(WorkCosts(xsuper, cc)))
  {
    var costs := WorkCosts(xsuper, cc);
    forall i {:trigger costs[i]} | 0 <= i < |costs|
      ensures 0.0 <= costs[i]
    {
      assert cc[i] >= xsuper[i + 1] - xsuper[i] >= 1;
      CostNonNegative(cc[i], xsuper[i + 1] - xsuper[i]);
    }
  }

  lemma NnzFair(xsuper: seq<int>, cc: seq<int>)
    requires Panels(xsuper, cc)
    ensures Fair(NnzCosts(xsuper, cc), Largest(NnzCosts(xsuper, cc)))
  {
    var costs := NnzCosts(xsuper, cc);
    forall i {:trigger costs[i]} | 0 <= i < |costs|
      ensures 0.0 <= costs[i]
    {
      assert cc[i] >= xsuper[i + 1] - xsuper[i] >= 1;
      IntProduct(xsuper[i + 1] - xsuper[i], cc[i]);
    }
  }

  lemma IntProduct(a: int, b: int)
    requires a >= 0 && b >= 0
    ensures a * b >= 0
  {
  }

  /** Every job goes to the first least loaded processor, and np times any load is at most the total plus np - 1
      times the largest job, provided no job is negative. */
  ghost predicate GreedyMap(procs: seq<nat>, np: nat, costs: seq<real>, fair: bool)
    requires np > 0
  {
    && |procs| == |costs| && (forall i :: 0 <= i < |procs| ==> ToLeast(procs, costs, np, i))
    && (fair ==> forall p {:trigger LoadOf(procs, costs, p)} :: 0 <= p < np ==>
          Times(np, LoadOf(procs, costs, p)) <= Sum(costs) + Times(np - 1, Largest(costs)))
  }

  lemma BalancedGreedy(load: seq<real>, np: nat, procs: seq<nat>, costs: seq<real>)
    requires np > 0 && Balanced(load, np, procs, costs, Largest(costs))
    ensures GreedyMap(procs, np, costs, Fair(costs, Largest(costs)))
  {
    if Fair(costs, Largest(costs)) {
      forall p {:trigger LoadOf(procs, costs, p)} | 0 <= p < np
        ensures Times(np, LoadOf(procs, costs, p)) <= Sum(costs) + Times(np - 1, Largest(costs))
      {
        assert load[p] == LoadOf(procs, costs, p);
      }
    }
  }

  /** WorkBalancer; panels that are at least as high as wide have no negative cost. */
  method WorkMap(np: nat, xsuper: seq<int>, cc: seq<int>) returns (procMap: seq<nat>)
    requires np > 0 && |xsuper| > 0 && |cc| >= |xsuper| - 1
    ensures GreedyMap(procMap, np, WorkCosts(xsuper, cc), Panels(xsuper, cc))
  {
    var costs := WorkCosts(xsuper, cc);
    ghost var load;
    procMap, load := Greedy(np, costs, Largest(costs));
    BalancedGreedy(load, np, procMap, costs);
    if Panels(xsuper, cc) {
      WorkFair(xsuper, cc);
    }
  }

  /** NNZBalancer: the same for the sizes of the panels. */
  method NnzMap(np: nat, xsuper: seq<int>, cc: seq<int>) returns (procMap: seq<nat>)
    requires np > 0 && |xsuper| > 0 && |cc| >= |xsuper| - 1
    ensures GreedyMap(procMap, np, NnzCosts(xsuper, cc), Panels(xsuper, cc))
  {
    var costs := NnzCosts(xsuper, cc);
    ghost var load;
    procMap, load := Greedy(np, costs, Largest(costs));
    BalancedGreedy(load, np, procMap, costs);
    if Panels(xsuper, cc) {
      NnzFair(xsuper, cc);
    }
  }
}
