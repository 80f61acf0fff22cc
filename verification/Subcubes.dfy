/** Subtree-to-subcube mapping: every subtree of the supernodal elimination tree is given a slice of the
    processors of its parent, and every supernode one of the processors of its slice. */
module Subcubes {
  import L = LoadBalancer

  /** parent[I - 1] is the parent of supernode I, 0 for a root; children come before their parents. */
  ghost predicate Forest(parent: seq<nat>) {
    forall i {:trigger parent[i]} :: 0 <= i < |parent| ==> parent[i] == 0 || i + 1 < parent[i] <= |parent|
  }

  // ---------------------------------------------------------------------------------------------
  // Loads of subtrees
  // ---------------------------------------------------------------------------------------------

  /** Above every supernode comes its parent; 0 stands above all roots. */
  function Level(parent: seq<nat>, v: nat): nat { if v == 0 then |parent| + 1 else v }

  /** The load of v and of everything below it. */
  ghost function SubtreeLoad(parent: seq<nat>, load: seq<real>, v: nat): real
    requires Forest(parent) && |load| == |parent| + 1 && v <= |parent|
    decreases Level(parent, v), |parent| + 1
  {
    load[v] + ChildrenLoad(parent, load, v, |parent|)
  }

  /** The loads of the subtrees of those children of v that are among the first k supernodes. */
  ghost function ChildrenLoad(parent: seq<nat>, load: seq<real>, v: nat, k: nat): real
    requires Forest(parent) && |load| == |parent| + 1 && v <= |parent| && k <= |parent|
    decreases Level(parent, v), k
  {
    if k == 0 then 0.0
    else ChildrenLoad(parent, load, v, k - 1) + (if parent[k - 1] == v then SubtreeLoad(parent, load, k) else 0.0)
  }

  /** All children of v come before v. */
  lemma {:induction false} ChildrenBefore(parent: seq<nat>, load: seq<real>, v: nat, k: nat)
    requires Forest(parent) && |load| == |parent| + 1 && 1 <= v <= |parent| && v <= k + 1 && k <= |parent|
    ensures ChildrenLoad(parent, load, v, k) == ChildrenLoad(parent, load, v, v - 1)
    decreases k
  {
    if k >= v {
      ChildrenBefore(parent, load, v, k - 1);
      assert parent[k - 1] != v;
    }
  }

  /** The supernodes up to i have passed their loads on. */
  ghost predicate Passed(parent: seq<nat>, load: seq<real>, s: seq<real>, i: nat)
    requires Forest(parent) && |load| == |parent| + 1 && i <= |parent|
  {
    && |s| == |load|
    && (forall v {:trigger s[v]} :: 0 <= v <= |parent| ==> s[v] == load[v] + ChildrenLoad(parent, load, v, i))
    && s[0] + L.Sum(s[i + 1..]) == L.Sum(load)
  }

  lemma SumFirst(s: seq<real>)
    requires s != []
    ensures L.Sum(s) == s[0] + L.Sum(s[1..])
  {
    if |s| == 1 {
      assert s[..0] == [] && s[1..] == [];
    } else {
      SumFirst(s[..|s| - 1]);
      assert s[..|s| - 1][1..] == s[1..][..|s| - 2];
    }
  }

  /** Supernode i + 1 passes its load on to its parent, which is 0 or still to come. */
  lemma PassTotal(parent: seq<nat>, s: seq<real>, i: nat)
    requires Forest(parent) && |s| == |parent| + 1 && i < |parent|
    ensures var p := parent[i]; var s' := s[p := s[p] + s[i + 1]];
            s'[0] + L.Sum(s'[i + 2..]) == s[0] + L.Sum(s[i + 1..])
  {
    var p := parent[i];
    var s' := s[p := s[p] + s[i + 1]];
    SumFirst(s[i + 1..]);
    assert s[i + 1..][1..] == s[i + 2..];
    if p == 0 {
      assert s'[i + 2..] == s[i + 2..];
    } else {
      L.SumUpdate(s[i + 2..], p - (i + 2), s[p] + s[i + 1]);
      assert s'[i + 2..] == s[i + 2..][p - (i + 2) := s[p] + s[i + 1]];
    }
  }

  lemma PassOne(parent: seq<nat>, load: seq<real>, s: seq<real>, i: nat)
    requires Forest(parent) && |load| == |parent| + 1 && i < |parent| && Passed(parent, load, s, i)
    ensures Passed(parent, load, s[parent[i] := s[parent[i]] + s[i + 1]], i + 1)
  {
    var p := parent[i];
    var s' := s[p := s[p] + s[i + 1]];
    ChildrenBefore(parent, load, i + 1, |parent|);
    PassTotal(parent, s, i);
    assert s[i + 1] == load[i + 1] + ChildrenLoad(parent, load, i + 1, i);
    forall v {:trigger s'[v]} | 0 <= v <= |parent|
      ensures s'[v] == load[v] + ChildrenLoad(parent, load, v, i + 1)
    {
      assert s[v] == load[v] + ChildrenLoad(parent, load, v, i);
    }
  }

  lemma {:induction false} NoneBelow(parent: seq<nat>, load: seq<real>, s: seq<real>)
    requires Forest(parent) && |load| == |parent| + 1 && s == load
    ensures Passed(parent, load, s, 0)
  {
    SumFirst(load);
  }

  /** One sweep in index order: every entry becomes the load of its subtree, and entry 0 the total. */
  method SubTreeLoads(parent: seq<nat>, nodeLoad: seq<real>) returns (subTreeLoad: seq<real>)
    requires Forest(parent) && |nodeLoad| == |parent| + 1
    ensures |subTreeLoad| == |nodeLoad|
    ensures forall v {:trigger subTreeLoad[v]} :: 0 <= v <= |parent| ==> subTreeLoad[v] == SubtreeLoad(parent, nodeLoad, v)
    ensures subTreeLoad[0] == L.Sum(nodeLoad)
  {
    subTreeLoad := nodeLoad;
    NoneBelow(parent, nodeLoad, subTreeLoad);
    for i := 0 to |parent|
      invariant Passed(parent, nodeLoad, subTreeLoad, i)
    {
      PassOne(parent, nodeLoad, subTreeLoad, i);
      var p := parent[i];
      subTreeLoad := subTreeLoad[p := subTreeLoad[p] + subTreeLoad[i + 1]];
    }
    assert subTreeLoad[|parent| + 1..] == [];
  }

  // ---------------------------------------------------------------------------------------------
  // Splitting
  // ---------------------------------------------------------------------------------------------

  /** Sizes of the slices given to the children of p that are larger than v: what is used up already. */
  ghost function UsedBy(parent: seq<nat>, size: seq<nat>, p: nat, v: nat): nat
    requires |size| == |parent| + 1 && v <= |parent|
    decreases |parent| - v
  {
    if v == |parent| then 0
    else UsedBy(parent, size, p, v + 1) + (if parent[v] == p then size[v + 1] else 0)
  }

  lemma {:induction false} UsedSame(parent: seq<nat>, size: seq<nat>, p: nat, v: nat, i: nat, x: nat)
    requires |size| == |parent| + 1 && i <= v <= |parent|
    ensures UsedBy(parent, size[i := x], p, v) == UsedBy(parent, size, p, v)
    decreases |parent| - v
  {
    if v < |parent| {
      UsedSame(parent, size, p, v + 1, i, x);
    }
  }

  function Min(a: int, b: int): int { if a <= b then a else b }

  function Max(a: int, b: int): int { if a >= b then a else b }

  /** Supernode v got `size[v]` processors of its parent's group, starting where its larger siblings ended, but
      never beyond the last processor. */
  ghost predicate Sliced(groups: seq<seq<nat>>, idx: seq<nat>, parent: seq<nat>, size: seq<nat>, v: nat)
    requires 1 <= v <= |parent| && |idx| == |size| == |parent| + 1 && parent[v - 1] <= |parent|
  {
    && idx[v] < |groups| && idx[parent[v - 1]] < |groups|
    && var whole := groups[idx[parent[v - 1]]];
    && |whole| >= 1
    && var begin := Min(UsedBy(parent, size, parent[v - 1], v), |whole| - 1);
    && 1 <= size[v] && begin + size[v] <= |whole|
    && groups[idx[v]] == whole[begin..begin + size[v]]
  }

  ghost predicate AllSliced(groups: seq<seq<nat>>, idx: seq<nat>, parent: seq<nat>, size: seq<nat>, from: nat)
    requires Forest(parent)
  {
    && |idx| == |size| == |parent| + 1 && from >= 1
    && forall v :: from <= v <= |parent| ==> Sliced(groups, idx, parent, size, v)
  }

  function Ranks(np: nat): (s: seq<nat>)
    ensures |s| == np
  {
    seq<nat>(np, p requires 0 <= p < np => p)
  }

  /** The groups after the supernodes from `from` on were given theirs. */
  ghost predicate Splitting(groups: seq<seq<nat>>, idx: seq<nat>, parent: seq<nat>, size: seq<nat>, pstart: seq<nat>, np: nat, from: nat)
    requires Forest(parent)
  {
    && AllSliced(groups, idx, parent, size, from) && from <= |parent| + 1
    && |groups| > 0 && groups[0] == Ranks(np) && idx[0] == 0
    && (forall g {:trigger groups[g]} :: 0 <= g < |groups| ==> |groups[g]| >= 1)
    && (forall v {:trigger idx[v]} :: 0 <= v <= |parent| ==> idx[v] < |groups|)
    && Started(pstart, parent, size, from - 1)
  }

  lemma SlicedStays(groups: seq<seq<nat>>, groups': seq<seq<nat>>, idx: seq<nat>, idx': seq<nat>, parent: seq<nat>, size: seq<nat>,
                    size': seq<nat>, i: nat, v: nat)
    requires Forest(parent) && 1 <= i < v <= |parent| && |idx| == |size| == |idx'| == |size'| == |parent| + 1
    requires groups <= groups' && idx' == idx[i := idx'[i]] && size' == size[i := size'[i]]
    requires Sliced(groups, idx, parent, size, v)
    ensures Sliced(groups', idx', parent, size', v)
  {
    assert parent[v - 1] == 0 || v < parent[v - 1] <= |parent|;
    UsedSame(parent, size, parent[v - 1], v, i, size'[i]);
  }

  /** What one supernode is given. */
  method Slice(whole: seq<nat>, used: nat, npIdeal: int) returns (begin: nat, numProcs: nat)
    requires |whole| >= 1
    ensures begin == Min(used, |whole| - 1) && 1 <= numProcs && begin + numProcs <= |whole|
    ensures numProcs == |whole| ==> begin == 0
    ensures 1 <= npIdeal <= |whole| - begin ==> numProcs == npIdeal
  {
    var npParent := |whole|;
    begin := Min(used, npParent - 1);
    numProcs := Max(1, Min(npParent - begin, npIdeal));
  }

  lemma SlicedHere(groups: seq<seq<nat>>, groups': seq<seq<nat>>, idx: seq<nat>, idx': seq<nat>, parent: seq<nat>, size: seq<nat>,
                   size': seq<nat>, i: nat, begin: nat, n: nat)
    requires Forest(parent) && 1 <= i <= |parent| && |idx| == |size| == |idx'| == |parent| + 1
    requires parent[i - 1] <= |parent| && idx[parent[i - 1]] < |groups|
    requires groups <= groups' && idx' == idx[i := idx'[i]] && idx'[i] < |groups'| && size' == size[i := n]
    requires var whole := groups[idx[parent[i - 1]]];
             && |whole| >= 1 && begin == Min(UsedBy(parent, size, parent[i - 1], i), |whole| - 1) && 1 <= n && begin + n <= |whole|
             && groups'[idx'[i]] == whole[begin..begin + n]
    ensures Sliced(groups', idx', parent, size', i)
  {
    UsedSame(parent, size, parent[i - 1], i, i, n);
    assert parent[i - 1] == 0 || i < parent[i - 1];
    assert idx'[parent[i - 1]] == idx[parent[i - 1]];
    assert groups'[idx[parent[i - 1]]] == groups[idx[parent[i - 1]]];
  }

  lemma SplitNext(groups: seq<seq<nat>>, groups': seq<seq<nat>>, idx: seq<nat>, idx': seq<nat>, parent: seq<nat>, size: seq<nat>,
                  size': seq<nat>, i: nat)
    requires Forest(parent) && 1 <= i <= |parent| && AllSliced(groups, idx, parent, size, i + 1)
    requires |idx'| == |idx| && |size'| == |size|
    requires groups <= groups' && idx' == idx[i := idx'[i]] && size' == size[i := size'[i]]
    requires Sliced(groups', idx', parent, size', i)
    ensures AllSliced(groups', idx', parent, size', i)
  {
    forall v | i <= v <= |parent|
      ensures Sliced(groups', idx', parent, size', v)
    {
      if v > i {
        assert Sliced(groups, idx, parent, size, v);
        SlicedStays(groups, groups', idx, idx', parent, size, size', i, v);
      }
    }
  }

  ghost predicate Started(pstart: seq<nat>, parent: seq<nat>, size: seq<nat>, k: nat)
    requires k <= |parent|
  {
    && |pstart| == |size| == |parent| + 1
    && forall p {:trigger pstart[p]} :: 0 <= p <= |parent| ==> pstart[p] == UsedBy(parent, size, p, k)
  }

  lemma StartedNext(parent: seq<nat>, size: seq<nat>, pstart: seq<nat>, i: nat, n: nat)
    requires Forest(parent) && 1 <= i <= |parent| && Started(pstart, parent, size, i) && parent[i - 1] <= |parent|
    ensures Started(pstart[parent[i - 1] := pstart[parent[i - 1]] + n], parent, size[i := n], i - 1)
  {
    var pstart' := pstart[parent[i - 1] := pstart[parent[i - 1]] + n];
    forall p {:trigger pstart'[p]} | 0 <= p <= |parent|
      ensures pstart'[p] == UsedBy(parent, size[i := n], p, i - 1)
    {
      assert pstart[p] == UsedBy(parent, size, p, i);
      UsedSame(parent, size, p, i, i, n);
    }
  }

  /** Supernode i has been given `slice`, a slice of its parent's group, under the index idx'[i]. */
  lemma SplitDone(groups: seq<seq<nat>>, groups': seq<seq<nat>>, idx: seq<nat>, idx': seq<nat>, parent: seq<nat>, size: seq<nat>,
                  pstart: seq<nat>, np: nat, i: nat, begin: nat, n: nat)
    requires Forest(parent) && 1 <= i <= |parent| && Splitting(groups, idx, parent, size, pstart, np, i + 1)
    requires parent[i - 1] <= |parent| && |idx'| == |idx| && groups <= groups' && idx' == idx[i := idx'[i]] && idx'[i] < |groups'|
    requires forall g {:trigger groups'[g]} :: |groups| <= g < |groups'| ==> |groups'[g]| >= 1
    requires var whole := groups[idx[parent[i - 1]]];
             && begin == Min(pstart[parent[i - 1]], |whole| - 1) && 1 <= n && begin + n <= |whole|
             && groups'[idx'[i]] == whole[begin..begin + n]
    ensures Splitting(groups', idx', parent, size[i := n], pstart[parent[i - 1] := pstart[parent[i - 1]] + n], np, i)
  {
    assert idx[parent[i - 1]] < |groups|;
    assert |groups[idx[parent[i - 1]]]| >= 1;
    SlicedHere(groups, groups', idx, idx', parent, size, size[i := n], i, begin, n);
    SplitNext(groups, groups', idx, idx', parent, size, size[i := n], i);
    StartedNext(parent, size, pstart, i, n);
    OtherGroups(groups, groups', idx, idx', i);
  }

  lemma OtherGroups(groups: seq<seq<nat>>, groups': seq<seq<nat>>, idx: seq<nat>, idx': seq<nat>, i: nat)
    requires 1 <= i < |idx| == |idx'| && groups <= groups' && idx' == idx[i := idx'[i]] && idx'[i] < |groups'|
    requires forall g {:trigger groups[g]} :: 0 <= g < |groups| ==> |groups[g]| >= 1
    requires forall v {:trigger idx[v]} :: 0 <= v < |idx| ==> idx[v] < |groups|
    requires forall g {:trigger groups'[g]} :: |groups| <= g < |groups'| ==> |groups'[g]| >= 1
    ensures forall g {:trigger groups'[g]} :: 0 <= g < |groups'| ==> |groups'[g]| >= 1
    ensures forall v {:trigger idx'[v]} :: 0 <= v < |idx| ==> idx'[v] < |groups'|
  {
    forall g {:trigger groups'[g]} | 0 <= g < |groups'|
      ensures |groups'[g]| >= 1
    {
      if g < |groups| {
        assert groups'[g] == groups[g];
      }
    }
  }

  /** The processors of v. */
  ghost function Group(groups: seq<seq<nat>>, idx: seq<nat>, v: nat): seq<nat>
    requires v < |idx| && idx[v] < |groups|
  {
    groups[idx[v]]
  }

  class SubtreeToSubcube {
    const parent: seq<nat>
    const nodeLoad: seq<real>
    var levelGroups: seq<seq<nat>>
    var groupIdx: seq<nat>
    var procMap: seq<nat>
    ghost var size: seq<nat>

    constructor (parent: seq<nat>, nodeLoad: seq<real>)
      requires Forest(parent) && |nodeLoad| == |parent| + 1
      ensures this.parent == parent && this.nodeLoad == nodeLoad && levelGroups == []
    {
      this.parent, this.nodeLoad := parent, nodeLoad;
      levelGroups, groupIdx, procMap, size := [], [], [], [];
    }

    /** Supernode i takes its slice from its parent's group; a slice that is the whole group is shared. */
    method SplitOne(pstart0: seq<nat>, i: nat, npIdeal: int, ghost np: nat) returns (pstart: seq<nat>)
      requires Forest(parent) && 1 <= i <= |parent| && Splitting(levelGroups, groupIdx, parent, size, pstart0, np, i + 1)
      modifies this`levelGroups, this`groupIdx, this`size
      ensures Splitting(levelGroups, groupIdx, parent, size, pstart, np, i)
    {
      var p := parent[i - 1];
      assert p == 0 || i < p <= |parent|;
      var whole := levelGroups[groupIdx[p]];
      var begin, numProcs := Slice(whole, pstart0[p], npIdeal);
      ghost var groups0, idx0, size0 := levelGroups, groupIdx, size;
      pstart := pstart0[p := pstart0[p] + numProcs];
      if |whole| != numProcs {
        levelGroups := levelGroups + [whole[begin..begin + numProcs]];
        groupIdx := groupIdx[i := |levelGroups| - 1];
      } else {
        assert whole[begin..begin + numProcs] == whole;
        groupIdx := groupIdx[i := groupIdx[p]];
      }
      size := size[i := numProcs];
      SplitDone(groups0, levelGroups, idx0, groupIdx, parent, size0, pstart0, np, i, begin, numProcs);
    }

    /** Parents before children: every group is a slice of the parent's, whatever sizes are asked for. */
    method Split(np: nat, ideal: seq<int>)
      requires Forest(parent) && np > 0 && |ideal| == |parent| + 1
      modifies this`levelGroups, this`groupIdx, this`size
      ensures AllSliced(levelGroups, groupIdx, parent, size, 1)
      ensures |levelGroups| > 0 && levelGroups[0] == Ranks(np) && groupIdx[0] == 0
    {
      var n := |parent|;
      levelGroups, groupIdx, size := [Ranks(np)], seq(n + 1, _ => 0), seq(n + 1, _ => 0);
      var pstart: seq<nat> := seq(n + 1, _ => 0);
      var i := n + 1;
      while i > 1
        invariant 1 <= i <= n + 1 && Splitting(levelGroups, groupIdx, parent, size, pstart, np, i)
      {
        i := i - 1;
        pstart := SplitOne(pstart, i, ideal[i], np);
      }
    }
  
    /** The least loaded processor of a group, if no load is negative; -1 marks that none was looked at yet. */
    method ChooseWorker(ranks: seq<nat>, load: seq<real>) returns (minLoadP: nat)
      requires |ranks| > 0 && RanksBelow(ranks, |load|)
      ensures minLoadP in ranks
      ensures NonNegative(load) ==> LeastIn(ranks, load, minLoadP)
    {
      var minLoad := -1.0;
      minLoadP := ranks[0];
      for i := 0 to |ranks|
        invariant minLoadP in ranks && (i == 0 ==> minLoad == -1.0) && (i > 0 ==> minLoad == load[minLoadP])
        invariant NonNegative(load) ==> forall k :: 0 <= k < i ==> minLoad <= load[ranks[k]]
      {
        var proc := ranks[i];
        if load[proc] < minLoad || minLoad == -1.0 {
          minLoad := load[proc];
          minLoadP := proc;
        }
      }
    }
  
    /** All supernodes have their slices, and one of the processors of their slice. */
    ghost predicate Mapped(np: nat)
      reads this
    {
      && Forest(parent) && AllSliced(levelGroups, groupIdx, parent, size, 1)
      && |levelGroups| > 0 && levelGroups[0] == Ranks(np) && groupIdx[0] == 0 && |procMap| == |parent|
      && forall v {:trigger procMap[v]} :: 0 <= v < |parent| ==> InGroup(levelGroups, groupIdx, v + 1, procMap[v])
    }

    /** The map, computed on the first call only. */
    method GetMap(np: nat, ideal: seq<int>) returns (result: seq<nat>)
      requires Forest(parent) && np > 0 && |ideal| == |nodeLoad| == |parent| + 1
      requires levelGroups != [] ==> Mapped(np)
      modifies this
      ensures Mapped(np) && result == procMap
      ensures old(levelGroups) != [] ==> unchanged(this)
      ensures old(levelGroups) == [] && NonNegative(nodeLoad) ==>
                forall v :: 0 <= v < |parent| ==> Least(levelGroups, groupIdx, nodeLoad, procMap, v)
    {
      if |levelGroups| == 0 {
        Split(np, ideal);
        var load := seq(np, _ => 0.0);
        var workers: seq<nat> := [];
        for v := 0 to |parent|
          invariant unchanged(this`procMap)
          invariant AllSliced(levelGroups, groupIdx, parent, size, 1)
          invariant |levelGroups| > 0 && levelGroups[0] == Ranks(np) && groupIdx[0] == 0
          invariant Working(levelGroups, groupIdx, nodeLoad, workers, load, np, v)
        {
          GroupBelow(levelGroups, groupIdx, parent, size, np, v + 1);
          var worker := ChooseWorker(levelGroups[groupIdx[v + 1]], load);
          WorkNext(levelGroups, groupIdx, nodeLoad, workers, load, np, v, worker);
          load := load[worker := load[worker] + nodeLoad[v + 1]];
          workers := workers + [worker];
        }
        procMap := workers;
      }
      result := procMap;
    }
  }

  ghost predicate InGroup(groups: seq<seq<nat>>, idx: seq<nat>, v: nat, p: nat) {
    v < |idx| && idx[v] < |groups| && p in groups[idx[v]]
  }

  /** When supernode v + 1 was given its processor, no processor of its group had less load. */
  ghost predicate Least(groups: seq<seq<nat>>, idx: seq<nat>, load: seq<real>, workers: seq<nat>, v: nat)
    requires v < |workers| < |load|
  {
    && InGroup(groups, idx, v + 1, workers[v])
    && var ranks := groups[idx[v + 1]];
    && forall i :: 0 <= i < |ranks| ==> Before(load, workers, v, workers[v]) <= Before(load, workers, v, ranks[i])
  }

  ghost predicate RanksBelow(ranks: seq<nat>, n: nat) {
    forall i :: 0 <= i < |ranks| ==> ranks[i] < n
  }

  /** p has the least load of all processors of the group. */
  ghost predicate LeastIn(ranks: seq<nat>, load: seq<real>, p: nat) {
    p < |load| && RanksBelow(ranks, |load|) && forall i :: 0 <= i < |ranks| ==> load[p] <= load[ranks[i]]
  }

  /** The load of p from the first v supernodes. */
  ghost function Before(load: seq<real>, workers: seq<nat>, v: nat, p: nat): real
    requires v <= |workers| < |load|
  {
    L.LoadOf(workers[..v], load[1..v + 1], p)
  }

  ghost predicate Working(groups: seq<seq<nat>>, idx: seq<nat>, nodeLoad: seq<real>, workers: seq<nat>, load: seq<real>, np: nat, v: nat) {
    && |workers| == v < |nodeLoad| && |load| == np
    && (forall p {:trigger load[p]} :: 0 <= p < np ==> load[p] == Before(nodeLoad, workers, v, p))
    && (forall u {:trigger workers[u]} :: 0 <= u < v ==> InGroup(groups, idx, u + 1, workers[u]))
    && (NonNegative(nodeLoad) ==>
         && NonNegative(load)
         && forall u :: 0 <= u < v ==> Least(groups, idx, nodeLoad, workers, u))
  }

  ghost predicate NonNegative(load: seq<real>) {
    forall v {:trigger load[v]} :: 0 <= v < |load| ==> load[v] >= 0.0
  }

  lemma BeforeLonger(load: seq<real>, workers: seq<nat>, w: nat, v: nat, p: nat)
    requires v <= |workers| && |workers| + 1 < |load|
    ensures Before(load, workers + [w], v, p) == Before(load, workers, v, p)
  {
    assert (workers + [w])[..v] == workers[..v];
  }

  lemma BeforeNext(load: seq<real>, workers: seq<nat>, w: nat, p: nat)
    requires |workers| + 1 < |load|
    ensures Before(load, workers + [w], |workers| + 1, p)
         == Before(load, workers, |workers|, p) + (if p == w then load[|workers| + 1] else 0.0)
  {
    var v := |workers|;
    assert (workers + [w])[..v + 1] == workers + [w] && workers[..v] == workers;
    assert load[1..v + 2] == load[1..v + 1] + [load[v + 1]];
    L.LoadOne(workers, load[1..v + 1], w, load[v + 1], p);
  }

  lemma LeastLonger(groups: seq<seq<nat>>, idx: seq<nat>, load: seq<real>, workers: seq<nat>, w: nat, u: nat)
    requires u < |workers| && |workers| + 1 < |load| && Least(groups, idx, load, workers, u)
    ensures Least(groups, idx, load, workers + [w], u)
  {
    assert (workers + [w])[u] == workers[u];
    var ranks := groups[idx[u + 1]];
    forall i | 0 <= i < |ranks|
      ensures Before(load, workers + [w], u, workers[u]) <= Before(load, workers + [w], u, ranks[i])
    {
      BeforeLonger(load, workers, w, u, ranks[i]);
      BeforeLonger(load, workers, w, u, workers[u]);
    }
  }

  lemma LeastNow(groups: seq<seq<nat>>, idx: seq<nat>, nodeLoad: seq<real>, workers: seq<nat>, load: seq<real>, w: nat)
    requires |workers| + 1 < |nodeLoad| && InGroup(groups, idx, |workers| + 1, w)
    requires forall p {:trigger load[p]} :: 0 <= p < |load| ==> load[p] == Before(nodeLoad, workers, |workers|, p)
    requires LeastIn(groups[idx[|workers| + 1]], load, w)
    ensures Least(groups, idx, nodeLoad, workers + [w], |workers|)
  {
    var v := |workers|;
    var ranks := groups[idx[v + 1]];
    forall i | 0 <= i < |ranks|
      ensures Before(nodeLoad, workers + [w], v, w) <= Before(nodeLoad, workers + [w], v, ranks[i])
    {
      BeforeLonger(nodeLoad, workers, w, v, ranks[i]);
      BeforeLonger(nodeLoad, workers, w, v, w);
      assert load[w] <= load[ranks[i]];
    }
  }

  lemma WorkNext(groups: seq<seq<nat>>, idx: seq<nat>, nodeLoad: seq<real>, workers: seq<nat>, load: seq<real>, np: nat, v: nat, w: nat)
    requires Working(groups, idx, nodeLoad, workers, load, np, v) && v + 1 < |nodeLoad| && InGroup(groups, idx, v + 1, w)
    requires RanksBelow(groups[idx[v + 1]], np)
    requires NonNegative(load) ==> LeastIn(groups[idx[v + 1]], load, w)
    ensures Working(groups, idx, nodeLoad, workers + [w], load[w := load[w] + nodeLoad[v + 1]], np, v + 1)
  {
    var workers', load' := workers + [w], load[w := load[w] + nodeLoad[v + 1]];
    forall p {:trigger load'[p]} | 0 <= p < np
      ensures load'[p] == Before(nodeLoad, workers', v + 1, p)
    {
      assert load[p] == Before(nodeLoad, workers, v, p);
      BeforeNext(nodeLoad, workers, w, p);
    }
    forall u {:trigger workers'[u]} | 0 <= u < v + 1
      ensures InGroup(groups, idx, u + 1, workers'[u])
    {
      if u < v {
        assert workers'[u] == workers[u];
      }
    }
    if NonNegative(nodeLoad) {
      assert nodeLoad[v + 1] >= 0.0;
      forall p {:trigger load'[p]} | 0 <= p < np
        ensures load'[p] >= 0.0
      {
        assert load[p] >= 0.0;
      }
      forall u | 0 <= u < v + 1
        ensures Least(groups, idx, nodeLoad, workers', u)
      {
        if u < v {
          assert workers'[u] == workers[u];
          LeastLonger(groups, idx, nodeLoad, workers, w, u);
        } else {
          LeastNow(groups, idx, nodeLoad, workers, load, w);
        }
      }
    }
  }

  // ---------------------------------------------------------------------------------------------
  // Nested groups
  // ---------------------------------------------------------------------------------------------

  /** Every group is a contiguous range of processors. */
  lemma {:induction false} GroupRange(groups: seq<seq<nat>>, idx: seq<nat>, parent: seq<nat>, size: seq<nat>, np: nat, v: nat)
    returns (lo: nat, n: nat)
    requires Forest(parent) && AllSliced(groups, idx, parent, size, 1) && v <= |parent|
    requires np > 0 && |groups| > 0 && groups[0] == Ranks(np) && idx[0] == 0
    ensures idx[v] < |groups| && 1 <= n && lo + n <= np
    ensures groups[idx[v]] == Ranks(np)[lo..lo + n]
    decreases |parent| + 1 - Level(parent, v)
  {
    if v == 0 {
      lo, n := 0, np;
    } else {
      var p := parent[v - 1];
      assert Sliced(groups, idx, parent, size, v);
      assert p == 0 || v < p <= |parent|;
      var lo0, n0 := GroupRange(groups, idx, parent, size, np, p);
      var begin := Min(UsedBy(parent, size, p, v), |groups[idx[p]]| - 1);
      lo, n := lo0 + begin, size[v];
      SliceOfSlice(Ranks(np), lo0, lo0 + n0, begin, begin + n);
    }
  }

  lemma SliceOfSlice<T>(s: seq<T>, a: nat, b: nat, c: nat, d: nat)
    requires a <= b <= |s| && c <= d <= b - a
    ensures s[a..b][c..d] == s[a + c..a + d]
  {
    var x, y := s[a..b][c..d], s[a + c..a + d];
    assert |x| == |y|;
    forall i | 0 <= i < |x|
      ensures x[i] == y[i]
    {
      assert x[i] == s[a..b][c + i];
    }
  }

  lemma GroupBelow(groups: seq<seq<nat>>, idx: seq<nat>, parent: seq<nat>, size: seq<nat>, np: nat, v: nat)
    requires Forest(parent) && AllSliced(groups, idx, parent, size, 1) && v <= |parent|
    requires np > 0 && |groups| > 0 && groups[0] == Ranks(np) && idx[0] == 0
    ensures idx[v] < |groups| && |groups[idx[v]]| >= 1 && RanksBelow(groups[idx[v]], np)
  {
    var lo, n := GroupRange(groups, idx, parent, size, np, v);
  }

  /** a is v, or above v, or 0. */
  ghost predicate Above(parent: seq<nat>, v: nat, a: nat)
    requires Forest(parent) && v <= |parent|
    decreases |parent| + 1 - Level(parent, v)
  {
    v == a || (v > 0 && Above(parent, parent[v - 1], a))
  }

  /** A group holds the groups of the whole subtree below. */
  lemma {:induction false} GroupsNested(groups: seq<seq<nat>>, idx: seq<nat>, parent: seq<nat>, size: seq<nat>, v: nat, a: nat, p: nat)
    requires Forest(parent) && AllSliced(groups, idx, parent, size, 1) && v <= |parent| && Above(parent, v, a)
    requires InGroup(groups, idx, v, p)
    ensures InGroup(groups, idx, a, p)
    decreases |parent| + 1 - Level(parent, v)
  {
    if v != a {
      assert Sliced(groups, idx, parent, size, v);
      GroupsNested(groups, idx, parent, size, parent[v - 1], a, p);
    }
  }

  /** A subtree is worked on by the processors of its root's group only. */
  lemma SubtreeToSubcubes(m: SubtreeToSubcube, np: nat, v: nat, a: nat)
    requires m.Mapped(np) && 1 <= v <= |m.parent| && Above(m.parent, v, a)
    ensures InGroup(m.levelGroups, m.groupIdx, a, m.procMap[v - 1])
  {
    assert InGroup(m.levelGroups, m.groupIdx, v, m.procMap[v - 1]);
    GroupsNested(m.levelGroups, m.groupIdx, m.parent, m.size, v, a, m.procMap[v - 1]);
  }

  /** Siblings get disjoint slices, the larger one first, as long as what its larger siblings and the smaller
      one itself take fits into the group; beyond that only the last processor is shared. */
  lemma SiblingSlices(groups: seq<seq<nat>>, idx: seq<nat>, parent: seq<nat>, size: seq<nat>, u: nat, v: nat)
    requires Forest(parent) && AllSliced(groups, idx, parent, size, 1) && 1 <= u < v <= |parent| && parent[u - 1] == parent[v - 1]
    ensures idx[parent[v - 1]] < |groups|
    ensures var p := parent[v - 1]; var whole := groups[idx[p]];
            var beginU, beginV := Min(UsedBy(parent, size, p, u), |whole| - 1), Min(UsedBy(parent, size, p, v), |whole| - 1);
            beginV + size[v] <= beginU || (beginU == |whole| - 1 && size[u] == 1)
  {
    assert Sliced(groups, idx, parent, size, u) && Sliced(groups, idx, parent, size, v);
    UsedMore(parent, size, parent[v - 1], u, v);
  }

  lemma {:induction false} UsedMore(parent: seq<nat>, size: seq<nat>, p: nat, u: nat, v: nat)
    requires |size| == |parent| + 1 && u < v <= |parent| && parent[v - 1] == p
    ensures UsedBy(parent, size, p, v) + size[v] <= UsedBy(parent, size, p, u)
    decreases v - u
  {
    if u < v - 1 {
      UsedMore(parent, size, p, u + 1, v);
    }
  }
}
