/** Postordering of a forest given as parents: the depth-first traversal over first sons and brothers with
    an explicit stack, and the reordering of children by column count. */
module Postorder {
  import opened EliminationTree
  import opened Ordering
  import opened Relabelling

  /** Parents have larger numbers than their children; 0 marks a root. */
  ghost predicate Forest(t: seq<nat>) {
    forall v {:trigger At(t, v)} :: 1 <= v <= |t| ==> At(t, v) == 0 || v < At(t, v) <= |t|
  }

  ghost predicate Distinct(xs: seq<nat>) { forall i, j :: 0 <= i < j < |xs| ==> xs[i] != xs[j] }

  /** kids[p] lists the children of p among the vertices above lo, kids[0] the roots. */
  ghost predicate Children(t: seq<nat>, kids: seq<seq<nat>>, lo: nat) {
    && |kids| == |t| + 1
    && forall p :: 0 <= p <= |t| ==> Distinct(kids[p]) && ChildrenOf(t, kids[p], lo, p)
  }

  ghost predicate ChildrenOf(t: seq<nat>, xs: seq<nat>, lo: nat, p: nat) {
    forall v: nat :: v in xs <==> lo < v <= |t| && At(t, v) == p
  }

  ghost predicate Lists(kids: seq<seq<nat>>) {
    |kids| >= 1 && forall p, k :: 0 <= p < |kids| && 0 <= k < |kids[p]| ==> 1 <= kids[p][k] < |kids| && (p > 0 ==> kids[p][k] < p)
  }

  function Max(xs: seq<nat>): (m: nat)
    ensures forall k :: 0 <= k < |xs| ==> xs[k] <= m
    ensures xs == [] ==> m == 0
    ensures xs != [] ==> exists k :: 0 <= k < |xs| && xs[k] == m
  {
    if xs == [] then 0
    else
      var r := Max(xs[1..]);
      assert forall k :: 0 < k < |xs| ==> xs[k] == xs[1..][k - 1];
      if xs[0] >= r then xs[0] else r
  }

  ghost predicate Vertices(xs: seq<nat>, n: nat) { forall k :: 0 <= k < |xs| ==> 1 <= xs[k] <= n }

  /** The trees with the roots xs in postorder: the subtrees of a vertex, then the vertex. */
  ghost function PostList(kids: seq<seq<nat>>, xs: seq<nat>): seq<nat>
    requires Lists(kids) && Vertices(xs, |kids| - 1)
    decreases Max(xs), |xs|
  {
    if xs == [] then []
    else PostList(kids, kids[xs[0]]) + [xs[0]] + PostList(kids, xs[1..])
  }

  // ---------------------------------------------------------------------------------------------
  // What the postorder lists contain
  // ---------------------------------------------------------------------------------------------

  lemma ChildOf(t: seq<nat>, kids: seq<seq<nat>>, lo: nat, p: nat, v: nat)
    requires Forest(t) && Children(t, kids, lo) && p <= |t|
    ensures v in kids[p] <==> lo < v <= |t| && At(t, v) == p
    ensures v in kids[p] && p > 0 ==> v < p
  {
  }

  lemma ChildrenLists(t: seq<nat>, kids: seq<seq<nat>>, lo: nat)
    requires Forest(t) && Children(t, kids, lo)
    ensures Lists(kids) && forall p :: 0 <= p <= |t| ==> Vertices(kids[p], |t|)
  {
    forall p, k | 0 <= p <= |t| && 0 <= k < |kids[p]|
      ensures 1 <= kids[p][k] <= |t| && (p > 0 ==> kids[p][k] < p)
    {
      ChildOf(t, kids, lo, p, kids[p][k]);
    }
  }

  lemma {:induction false} AncViaChild(t: seq<nat>, u: nat, x: nat) returns (c: nat)
    requires Forest(t) && 1 <= u <= |t| && Anc(t, u, x) && u != x
    ensures 1 <= c <= |t| && At(t, c) == x && Anc(t, u, c)
    decreases |t| - u
  {
    if At(t, u) == x {
      c := u;
    } else {
      c := AncViaChild(t, At(t, u), x);
    }
  }

  ghost predicate BelowSome(t: seq<nat>, u: nat, xs: seq<nat>) {
    1 <= u <= |t| && exists k :: 0 <= k < |xs| && Anc(t, u, xs[k])
  }

  lemma BelowFirst(t: seq<nat>, u: nat, xs: seq<nat>)
    requires xs != []
    ensures BelowSome(t, u, xs) <==> 1 <= u <= |t| && (Anc(t, u, xs[0]) || BelowSome(t, u, xs[1..]))
  {
    if k :| 0 < k < |xs| && Anc(t, u, xs[k]) {
      assert xs[1..][k - 1] == xs[k];
    }
    if k :| 0 <= k < |xs[1..]| && Anc(t, u, xs[1..][k]) {
      assert xs[k + 1] == xs[1..][k];
    }
  }

  lemma BelowKids(t: seq<nat>, kids: seq<seq<nat>>, u: nat, x: nat)
    requires Forest(t) && Children(t, kids, 0) && 1 <= u <= |t| && 1 <= x <= |t|
    ensures Anc(t, u, x) <==> u == x || BelowSome(t, u, kids[x])
  {
    if k :| 0 <= k < |kids[x]| && Anc(t, u, kids[x][k]) {
      ChildOf(t, kids, 0, x, kids[x][k]);
      AncTrans(t, u, kids[x][k], x);
    }
    if Anc(t, u, x) && u != x {
      var c := AncViaChild(t, u, x);
      ChildOf(t, kids, 0, x, c);
    }
  }

  /** PostList(xs) holds exactly the vertices below the elements of xs. */
  lemma {:induction false} PostMember(t: seq<nat>, kids: seq<seq<nat>>, xs: seq<nat>, u: nat)
    requires Forest(t) && Children(t, kids, 0) && Lists(kids) && Vertices(xs, |t|)
    ensures u in PostList(kids, xs) <==> BelowSome(t, u, xs)
    decreases Max(xs), |xs|
  {
    if xs != [] {
      PostMember(t, kids, kids[xs[0]], u);
      PostMember(t, kids, xs[1..], u);
      BelowFirst(t, u, xs);
      if 1 <= u <= |t| {
        BelowKids(t, kids, u, xs[0]);
      }
    }
  }

  /** Siblings have no common descendants. */
  lemma SiblingsApart(t: seq<nat>, u: nat, x: nat, y: nat)
    requires Forest(t) && 1 <= u <= |t| && 1 <= x <= |t| && 1 <= y <= |t| && x != y && At(t, x) == At(t, y)
    ensures !(Anc(t, u, x) && Anc(t, u, y))
  {
    if Anc(t, u, x) && Anc(t, u, y) {
      var a, b := if x < y then x else y, if x < y then y else x;
      AncChain(t, u, a, b);
      AncUp(t, At(t, a), b);
    }
  }

  lemma DistinctJoin(xs: seq<nat>, x: nat, ys: seq<nat>)
    requires Distinct(xs) && Distinct(ys) && x !in xs && x !in ys && forall u <- xs :: u !in ys
    ensures Distinct(xs + [x] + ys)
  {
    var zs := xs + [x] + ys;
    forall i, j | 0 <= i < j < |zs|
      ensures zs[i] != zs[j]
    {
      if i < |xs| {
        assert zs[i] in xs;
        if j > |xs| {
          assert zs[j] in ys;
        }
      } else if i == |xs| {
        assert zs[j] in ys;
      }
    }
  }

  /** No vertex is listed twice. */
  lemma {:induction false} PostDistinct(t: seq<nat>, kids: seq<seq<nat>>, xs: seq<nat>, p: nat)
    requires Forest(t) && Children(t, kids, 0) && Lists(kids) && Vertices(xs, |t|)
    requires Distinct(xs) && forall k :: 0 <= k < |xs| ==> At(t, xs[k]) == p
    ensures Distinct(PostList(kids, xs))
    decreases Max(xs), |xs|
  {
    if xs != [] {
      var x := xs[0];
      PostDistinct(t, kids, kids[x], x);
      PostDistinct(t, kids, xs[1..], p);
      forall u
        ensures !(u in PostList(kids, kids[x]) && u in PostList(kids, xs[1..]))
        ensures u == x ==> u !in PostList(kids, kids[x]) && u !in PostList(kids, xs[1..])
      {
        FirstApart(t, kids, xs, u);
      }
      DistinctJoin(PostList(kids, kids[x]), x, PostList(kids, xs[1..]));
    }
  }

  lemma FirstApart(t: seq<nat>, kids: seq<seq<nat>>, xs: seq<nat>, u: nat)
    requires Forest(t) && Children(t, kids, 0) && Lists(kids) && Vertices(xs, |t|) && xs != []
    requires Distinct(xs) && forall k :: 0 <= k < |xs| ==> At(t, xs[k]) == At(t, xs[0])
    ensures u in PostList(kids, kids[xs[0]]) ==> u != xs[0] && u !in PostList(kids, xs[1..])
    ensures u == xs[0] ==> u !in PostList(kids, xs[1..])
  {
    var x := xs[0];
    PostMember(t, kids, kids[x], u);
    PostMember(t, kids, xs[1..], u);
    if 1 <= u <= |t| {
      BelowKids(t, kids, u, x);
      if u in PostList(kids, kids[x]) {
        var k :| 0 <= k < |kids[x]| && Anc(t, u, kids[x][k]);
        AncUp(t, u, kids[x][k]);
      }
      if Anc(t, u, x) {
        forall k | 0 <= k < |xs[1..]|
          ensures !Anc(t, u, xs[1..][k])
        {
          assert xs[1..][k] == xs[k + 1];
          SiblingsApart(t, u, x, xs[k + 1]);
        }
      }
    }
  }

  // ---------------------------------------------------------------------------------------------
  // The whole postorder is a permutation
  // ---------------------------------------------------------------------------------------------

  lemma {:induction false} HasRoot(t: seq<nat>, v: nat) returns (r: nat)
    requires Forest(t) && 1 <= v <= |t|
    ensures 1 <= r <= |t| && At(t, r) == 0 && Anc(t, v, r)
    decreases |t| - v
  {
    if At(t, v) == 0 {
      r := v;
    } else {
      r := HasRoot(t, At(t, v));
    }
  }

  ghost function UpTo(n: nat): (s: set<nat>)
    ensures forall v: nat :: v in s <==> 1 <= v <= n
    ensures |s| == n
  {
    if n == 0 then {} else UpTo(n - 1) + {n}
  }

  lemma {:induction false} DistinctSize(xs: seq<nat>, s: set<nat>)
    requires Distinct(xs) && forall v :: v in s <==> v in xs
    ensures |xs| == |s|
  {
    if xs == [] {
      assert s == {};
    } else {
      var last := |xs| - 1;
      assert xs == xs[..last] + [xs[last]];
      DistinctSize(xs[..last], s - {xs[last]});
    }
  }

  lemma WholePostorder(t: seq<nat>, kids: seq<seq<nat>>)
    requires Forest(t) && Children(t, kids, 0) && Lists(kids) && Vertices(kids[0], |t|)
    ensures var total := PostList(kids, kids[0]);
            |total| == |t| && Distinct(total) && forall v: nat :: v in total <==> 1 <= v <= |t|
  {
    var total := PostList(kids, kids[0]);
    PostDistinct(t, kids, kids[0], 0);
    forall v: nat
      ensures v in total <==> 1 <= v <= |t|
    {
      PostMember(t, kids, kids[0], v);
      if 1 <= v <= |t| {
        var r := HasRoot(t, v);
        ChildOf(t, kids, 0, 0, r);
      }
    }
    DistinctSize(total, UpTo(|t|));
  }

  // ---------------------------------------------------------------------------------------------
  // Every subtree is a slice of the postorder
  // ---------------------------------------------------------------------------------------------

  lemma Regroup(a: seq<nat>, b: seq<nat>, c: seq<nat>, d: seq<nat>)
    ensures (a + b + c) + d == a + b + (c + d)
    ensures d + (a + b + c) == (d + a) + b + c
  {
  }

  lemma {:induction false} SubtreeSlice(kids: seq<seq<nat>>, xs: seq<nat>, v: nat) returns (pre: seq<nat>, post: seq<nat>)
    requires Lists(kids) && Vertices(xs, |kids| - 1) && v in PostList(kids, xs)
    ensures 1 <= v < |kids|
    ensures PostList(kids, xs) == pre + (PostList(kids, kids[v]) + [v]) + post
    decreases Max(xs), |xs|
  {
    var x := xs[0];
    var sub, rest := PostList(kids, kids[x]), PostList(kids, xs[1..]);
    if v in sub {
      pre, post := SubtreeSlice(kids, kids[x], v);
      Regroup(pre, PostList(kids, kids[v]) + [v], post, [x] + rest);
      assert sub + [x] + rest == sub + ([x] + rest);
      post := post + ([x] + rest);
    } else if v == x {
      pre, post := [], rest;
    } else {
      pre, post := SubtreeSlice(kids, xs[1..], v);
      Regroup(pre, PostList(kids, kids[v]) + [v], post, sub + [x]);
      pre := sub + [x] + pre;
    }
  }

  // ---------------------------------------------------------------------------------------------
  // The traversal with an explicit stack
  // ---------------------------------------------------------------------------------------------

  function Head(xs: seq<nat>): nat { if xs == [] then 0 else xs[0] }

  /** What follows v in xs. */
  function AfterIn(xs: seq<nat>, v: nat): seq<nat> {
    if xs == [] then [] else if xs[0] == v then xs[1..] else AfterIn(xs[1..], v)
  }

  ghost function After(t: seq<nat>, kids: seq<seq<nat>>, v: nat): seq<nat>
    requires 1 <= v <= |t| && |kids| == |t| + 1 && At(t, v) <= |t|
  {
    AfterIn(kids[At(t, v)], v)
  }

  /** fson and brother link the lists.  The last root has no brother; its entry is never looked at. */
  ghost predicate Linked(t: seq<nat>, kids: seq<seq<nat>>, fson: seq<nat>, brother: seq<nat>) {
    && |kids| == |t| + 1 && |fson| == |brother| == |t|
    && forall v {:trigger At(fson, v)} {:trigger At(brother, v)} :: 1 <= v <= |t| ==>
         && At(t, v) <= |t|
         && At(fson, v) == Head(kids[v])
         && (At(brother, v) == Head(After(t, kids, v)) || (At(t, v) == 0 && After(t, kids, v) == []))
  }

  lemma {:induction false} AfterSplit(xs: seq<nat>, k: nat)
    requires Distinct(xs) && k < |xs|
    ensures AfterIn(xs, xs[k]) == xs[k + 1..]
  {
    if k > 0 {
      AfterSplit(xs[1..], k - 1);
    }
  }

  /** The chain of brothers from the first element of `todo` is `todo`. */
  ghost predicate Suffix(t: seq<nat>, kids: seq<seq<nat>>, todo: seq<nat>)
    requires |kids| == |t| + 1
  {
    todo == [] || (1 <= todo[0] <= |t| && At(t, todo[0]) <= |t| && todo[1..] == After(t, kids, todo[0]) && Suffix(t, kids, todo[1..]))
  }

  lemma {:induction false} SuffixVertices(t: seq<nat>, kids: seq<seq<nat>>, todo: seq<nat>)
    requires |kids| == |t| + 1 && Suffix(t, kids, todo)
    ensures Vertices(todo, |t|)
  {
    if todo != [] {
      SuffixVertices(t, kids, todo[1..]);
      assert todo == [todo[0]] + todo[1..];
    }
  }

  lemma {:induction false} KidsSuffix(t: seq<nat>, kids: seq<seq<nat>>, p: nat, k: nat)
    requires Forest(t) && Children(t, kids, 0) && p <= |t| && k <= |kids[p]|
    ensures Suffix(t, kids, kids[p][k..]) && Vertices(kids[p][k..], |t|)
    decreases |kids[p]| - k
  {
    if k < |kids[p]| {
      ChildOf(t, kids, 0, p, kids[p][k]);
      AfterSplit(kids[p], k);
      KidsSuffix(t, kids, p, k + 1);
      assert kids[p][k..][1..] == kids[p][k + 1..];
    }
    SuffixVertices(t, kids, kids[p][k..]);
  }

  lemma AfterIsSuffix(t: seq<nat>, kids: seq<seq<nat>>, v: nat)
    requires Forest(t) && Children(t, kids, 0) && 1 <= v <= |t|
    ensures At(t, v) <= |t| && Suffix(t, kids, After(t, kids, v)) && Vertices(After(t, kids, v), |t|)
    ensures Lists(kids)
  {
    ChildrenLists(t, kids, 0);
    ChildOf(t, kids, 0, At(t, v), v);
    var k :| 0 <= k < |kids[At(t, v)]| && kids[At(t, v)][k] == v;
    AfterSplit(kids[At(t, v)], k);
    KidsSuffix(t, kids, At(t, v), k + 1);
  }

  /** What is still to come when the stack is unwound: each vertex, then its later brothers. */
  ghost function Unwind(t: seq<nat>, kids: seq<seq<nat>>, stack: seq<nat>): (r: seq<nat>)
    requires Forest(t) && Children(t, kids, 0) && Vertices(stack, |t|)
    ensures |r| >= |stack|
  {
    if stack == [] then []
    else
      var top := stack[|stack| - 1];
      AfterIsSuffix(t, kids, top);
      [top] + PostList(kids, After(t, kids, top)) + Unwind(t, kids, stack[..|stack| - 1])
  }

  /** Vertices numbered, vertices to visit and vertices on the stack make up the postorder. */
  ghost predicate Progress(t: seq<nat>, kids: seq<seq<nat>>, out: seq<nat>, todo: seq<nat>, stack: seq<nat>) {
    && Forest(t) && Children(t, kids, 0) && Lists(kids) && Vertices(kids[0], |t|)
    && Vertices(todo, |t|) && Vertices(stack, |t|) && Suffix(t, kids, todo)
    && PostList(kids, kids[0]) == out + PostList(kids, todo) + Unwind(t, kids, stack)
  }

  lemma ProgressBounds(t: seq<nat>, kids: seq<seq<nat>>, out: seq<nat>, todo: seq<nat>, stack: seq<nat>)
    requires Progress(t, kids, out, todo, stack)
    ensures |out| + |stack| + (if todo == [] then 0 else 1) <= |t|
    ensures todo == stack == [] ==> |out| == |t|
    ensures |out| == |t| ==> out == PostList(kids, kids[0])
  {
    WholePostorder(t, kids);
  }

  lemma Shuffle(out: seq<nat>, sub: seq<nat>, v: nat, rest: seq<nat>, more: seq<nat>)
    ensures out + (sub + [v] + rest) + more == out + sub + ([v] + rest + more)
    ensures (out + [v]) + rest + more == out + [] + ([v] + rest + more)
  {
  }

  lemma UnwindPush(t: seq<nat>, kids: seq<seq<nat>>, stack: seq<nat>, v: nat)
    requires Forest(t) && Children(t, kids, 0) && Lists(kids) && Vertices(stack, |t|) && 1 <= v <= |t| && At(t, v) <= |t|
    requires Vertices(After(t, kids, v), |t|)
    ensures Vertices(stack + [v], |t|)
    ensures Unwind(t, kids, stack + [v]) == [v] + PostList(kids, After(t, kids, v)) + Unwind(t, kids, stack)
  {
    assert (stack + [v])[..|stack|] == stack;
  }

  lemma PostStep(kids: seq<seq<nat>>, xs: seq<nat>)
    requires Lists(kids) && Vertices(xs, |kids| - 1) && xs != []
    ensures PostList(kids, xs) == PostList(kids, kids[xs[0]]) + [xs[0]] + PostList(kids, xs[1..])
    ensures |PostList(kids, kids[xs[0]])| < |PostList(kids, xs)|
  {
  }

  /** Pushing a vertex and going on to its first son. */
  lemma Push(t: seq<nat>, kids: seq<seq<nat>>, out: seq<nat>, todo: seq<nat>, stack: seq<nat>)
    requires Progress(t, kids, out, todo, stack) && todo != []
    ensures 1 <= todo[0] <= |t| && Progress(t, kids, out, kids[todo[0]], stack + [todo[0]])
    ensures |PostList(kids, kids[todo[0]])| < |PostList(kids, todo)|
  {
    var v := todo[0];
    KidsSuffix(t, kids, v, 0);
    assert kids[v][0..] == kids[v];
    UnwindPush(t, kids, stack, v);
    PostStep(kids, todo);
    Shuffle(out, PostList(kids, kids[v]), v, PostList(kids, todo[1..]), Unwind(t, kids, stack));
  }

  /** Popping a vertex, giving it the next number and going on to its brother. */
  lemma Pop(t: seq<nat>, kids: seq<seq<nat>>, out: seq<nat>, stack: seq<nat>)
    requires Progress(t, kids, out, [], stack) && stack != []
    ensures var v := stack[|stack| - 1];
            1 <= v <= |t| && At(t, v) <= |t| && Progress(t, kids, out + [v], After(t, kids, v), stack[..|stack| - 1])
  {
    var v, below := stack[|stack| - 1], stack[..|stack| - 1];
    AfterIsSuffix(t, kids, v);
    UnwindPush(t, kids, below, v);
    assert stack == below + [v];
    Shuffle(out, [], v, PostList(kids, After(t, kids, v)), Unwind(t, kids, below));
  }

  /** The stack holds the ancestors of the vertex at hand. */
  ghost predicate OnPath(t: seq<nat>, todo: seq<nat>, stack: seq<nat>)
    requires Vertices(stack, |t|) && Vertices(todo, |t|)
  {
    && (forall k :: 0 < k < |stack| ==> At(t, stack[k]) == stack[k - 1])
    && (stack != [] ==> At(t, stack[0]) == 0)
    && (todo != [] ==> At(t, todo[0]) == if stack == [] then 0 else stack[|stack| - 1])
  }

  ghost predicate Numbered(out: seq<nat>, invpos: seq<nat>) {
    forall k :: 0 <= k < |out| ==> 1 <= out[k] <= |invpos| && At(invpos, out[k]) == k + 1
  }

  /** Where the traversal stands. */
  ghost predicate Standing(t: seq<nat>, kids: seq<seq<nat>>, out: seq<nat>, todo: seq<nat>, stack: seq<nat>,
                           invpos: seq<nat>, vertex: nat, m: nat) {
    && Progress(t, kids, out, todo, stack) && OnPath(t, todo, stack)
    && |invpos| == |t| && Numbered(out, invpos) && m == |out|
    && (m < |t| ==> vertex == Head(todo))
  }

  lemma StandingBounds(t: seq<nat>, kids: seq<seq<nat>>, out: seq<nat>, todo: seq<nat>, stack: seq<nat>,
                       invpos: seq<nat>, vertex: nat, m: nat)
    requires Standing(t, kids, out, todo, stack, invpos, vertex, m)
    ensures m + |stack| + (if todo == [] then 0 else 1) <= |t|
    ensures vertex == 0 ==> todo == []
    ensures m < |t| && todo == [] ==> stack != []
    ensures m == |t| ==> stack == [] && out == PostList(kids, kids[0])
  {
    ProgressBounds(t, kids, out, todo, stack);
    SuffixVertices(t, kids, todo);
  }

  lemma StandingPush(t: seq<nat>, kids: seq<seq<nat>>, fson: seq<nat>, brother: seq<nat>,
                     out: seq<nat>, todo: seq<nat>, stack: seq<nat>, invpos: seq<nat>, vertex: nat, m: nat)
    requires Standing(t, kids, out, todo, stack, invpos, vertex, m) && Linked(t, kids, fson, brother)
    requires m < |t| && vertex > 0
    ensures todo != [] && vertex == todo[0] <= |t|
    ensures Standing(t, kids, out, kids[vertex], stack + [vertex], invpos, At(fson, vertex), m)
    ensures |PostList(kids, kids[vertex])| < |PostList(kids, todo)|
  {
    Push(t, kids, out, todo, stack);
    if kids[vertex] != [] {
      ChildOf(t, kids, 0, vertex, kids[vertex][0]);
    }
    assert At(fson, vertex) == Head(kids[vertex]);
  }

  lemma PrefixDistinct(total: seq<nat>, out: seq<nat>, v: nat, rest: seq<nat>)
    requires Distinct(total) && total == out + [v] + rest
    ensures v !in out
  {
    forall k | 0 <= k < |out|
      ensures out[k] != v
    {
      assert total[k] == out[k] && total[|out|] == v;
    }
  }

  lemma PopNumber(t: seq<nat>, kids: seq<seq<nat>>, out: seq<nat>, todo: seq<nat>, stack: seq<nat>, invpos: seq<nat>, v: nat)
    requires Progress(t, kids, out + [v], todo, stack) && |invpos| == |t| && Numbered(out, invpos) && 1 <= v <= |t|
    ensures Numbered(out + [v], invpos[v - 1 := |out| + 1])
  {
    WholePostorder(t, kids);
    var rest := PostList(kids, todo) + Unwind(t, kids, stack);
    assert PostList(kids, kids[0]) == out + [v] + rest;
    PrefixDistinct(PostList(kids, kids[0]), out, v, rest);
    var invpos' := invpos[v - 1 := |out| + 1];
    forall k | 0 <= k < |out + [v]|
      ensures 1 <= (out + [v])[k] <= |invpos'| && At(invpos', (out + [v])[k]) == k + 1
    {
      if k < |out| {
        assert out[k] in out;
        assert At(invpos', out[k]) == At(invpos, out[k]);
      }
    }
  }

  lemma PopPath(t: seq<nat>, kids: seq<seq<nat>>, todo: seq<nat>, stack: seq<nat>)
    requires Forest(t) && Children(t, kids, 0) && Vertices(stack, |t|) && stack != [] && OnPath(t, [], stack)
    requires var v := stack[|stack| - 1]; At(t, v) <= |t| && todo == After(t, kids, v) && Vertices(todo, |t|)
    ensures OnPath(t, todo, stack[..|stack| - 1])
    ensures At(t, stack[|stack| - 1]) == 0 ==> |stack| == 1
  {
    var v := stack[|stack| - 1];
    assert |stack| > 1 ==> At(t, v) == stack[|stack| - 2] && 1 <= stack[|stack| - 2];
    if todo != [] {
      AfterMembers(kids[At(t, v)], v);
      ChildOf(t, kids, 0, At(t, v), todo[0]);
    }
  }

  lemma {:induction false} AfterMembers(xs: seq<nat>, v: nat)
    ensures forall k :: 0 <= k < |AfterIn(xs, v)| ==> AfterIn(xs, v)[k] in xs
  {
    if xs != [] {
      AfterMembers(xs[1..], v);
      assert xs == [xs[0]] + xs[1..];
    }
  }

  lemma StandingPop(t: seq<nat>, kids: seq<seq<nat>>, fson: seq<nat>, brother: seq<nat>,
                    out: seq<nat>, stack: seq<nat>, invpos: seq<nat>, m: nat)
    requires Standing(t, kids, out, [], stack, invpos, 0, m) && Linked(t, kids, fson, brother) && stack != []
    ensures var v := stack[|stack| - 1];
            && 1 <= v <= |t| && At(t, v) <= |t|
            && Standing(t, kids, out + [v], After(t, kids, v), stack[..|stack| - 1], invpos[v - 1 := m + 1], At(brother, v), m + 1)
  {
    var v := stack[|stack| - 1];
    Pop(t, kids, out, stack);
    PopNumber(t, kids, out, After(t, kids, v), stack[..|stack| - 1], invpos, v);
    PopPath(t, kids, After(t, kids, v), stack);
    ProgressBounds(t, kids, out + [v], After(t, kids, v), stack[..|stack| - 1]);
    assert At(brother, v) == Head(After(t, kids, v)) || (At(t, v) == 0 && After(t, kids, v) == []);
  }

  lemma NumberedInverse(t: seq<nat>, kids: seq<seq<nat>>, invpos: seq<nat>)
    requires Forest(t) && Children(t, kids, 0) && Lists(kids) && Vertices(kids[0], |t|)
    requires |invpos| == |t| && Numbered(PostList(kids, kids[0]), invpos)
    ensures Inverse(invpos, PostList(kids, kids[0]))
  {
    var total := PostList(kids, kids[0]);
    WholePostorder(t, kids);
    forall v | 1 <= v <= |t|
      ensures 1 <= At(invpos, v) <= |t| && At(total, At(invpos, v)) == v
    {
      assert v in total;
      var k :| 0 <= k < |total| && total[k] == v;
      assert At(invpos, total[k]) == k + 1;
    }
    forall v | 1 <= v <= |t|
      ensures 1 <= At(total, v) <= |t| && At(invpos, At(total, v)) == v
    {
      assert At(total, v) == total[v - 1];
    }
  }

  /** The stack grows by the vertex at hand; the traversal goes on with its first son. */
  method PushVertex(fson: array<nat>, stack: array<nat>, stacktop: nat, vertex: nat)
    returns (son: nat)
    requires stacktop < stack.Length && 1 <= vertex <= fson.Length && fson != stack
    modifies stack
    ensures stack[..stacktop + 1] == old(stack[..stacktop]) + [vertex]
    ensures son == At(fson[..], vertex)
  {
    stack[stacktop] := vertex;
    son := fson[vertex - 1];
  }

  /** The top of the stack gets the number m; the traversal goes on with its brother. */
  method PopVertex(brother: array<nat>, stack: array<nat>, stacktop: nat, invpos: array<nat>, m: nat)
    returns (next: nat)
    requires stacktop < stack.Length && 1 <= stack[stacktop] <= invpos.Length == brother.Length
    requires invpos != brother && invpos != stack
    modifies invpos
    ensures invpos[..] == old(invpos[..])[stack[stacktop] - 1 := m]
    ensures next == At(brother[..], stack[stacktop])
  {
    var vertex := stack[stacktop];
    invpos[vertex - 1] := m;
    next := brother[vertex - 1];
  }

  /** Down to a leaf, pushing every vertex on the way. */
  method Descend(fson: array<nat>, stack: array<nat>, top: nat, start: nat, m: nat,
                 ghost t: seq<nat>, ghost kids: seq<seq<nat>>, ghost brother: seq<nat>,
                 ghost out: seq<nat>, ghost invpos: seq<nat>, ghost todo0: seq<nat>)
    returns (stacktop: nat, ghost todo: seq<nat>)
    requires fson.Length == stack.Length == |t| && fson != stack && top <= |t| && m < |t| && start > 0
    requires Linked(t, kids, fson[..], brother) && Standing(t, kids, out, todo0, stack[..top], invpos, start, m)
    modifies stack
    ensures stacktop <= |t| && Standing(t, kids, out, todo, stack[..stacktop], invpos, 0, m)
  {
    var vertex := start;
    stacktop := top;
    todo := todo0;
    while vertex > 0
      invariant stacktop <= |t| && Standing(t, kids, out, todo, stack[..stacktop], invpos, vertex, m)
      decreases |PostList(kids, todo)|
    {
      StandingBounds(t, kids, out, todo, stack[..stacktop], invpos, vertex, m);
      StandingPush(t, kids, fson[..], brother, out, todo, stack[..stacktop], invpos, vertex, m);
      todo := kids[vertex];
      vertex := PushVertex(fson, stack, stacktop, vertex);
      stacktop := stacktop + 1;
    }
  }

  method AscendStep(brother: array<nat>, stack: array<nat>, stacktop: nat, invpos: array<nat>, m: nat,
                    ghost t: seq<nat>, ghost kids: seq<seq<nat>>, ghost fson: seq<nat>, ghost out: seq<nat>)
    returns (vertex: nat, ghost out': seq<nat>, ghost todo: seq<nat>)
    requires brother.Length == stack.Length == invpos.Length == |t| && invpos != brother && invpos != stack
    requires 1 <= stacktop <= |t| && Linked(t, kids, fson, brother[..])
    requires Standing(t, kids, out, [], stack[..stacktop], invpos[..], 0, m)
    modifies invpos
    ensures Standing(t, kids, out', todo, stack[..stacktop - 1], invpos[..], vertex, m + 1)
  {
    ghost var st := stack[..stacktop];
    assert st[..|st| - 1] == stack[..stacktop - 1];
    StandingPop(t, kids, fson, brother[..], out, st, invpos[..], m);
    out', todo := out + [stack[stacktop - 1]], After(t, kids, stack[stacktop - 1]);
    vertex := PopVertex(brother, stack, stacktop - 1, invpos, m + 1);
  }

  /** Up again, numbering every vertex that is popped, until one has a brother or the stack is empty. */
  method Ascend(brother: array<nat>, stack: array<nat>, top: nat, invpos: array<nat>, m0: nat,
                ghost t: seq<nat>, ghost kids: seq<seq<nat>>, ghost fson: seq<nat>,
                ghost out0: seq<nat>, ghost todo0: seq<nat>)
    returns (vertex: nat, stacktop: nat, m: nat, exit: bool, ghost out: seq<nat>, ghost todo: seq<nat>)
    requires brother.Length == stack.Length == invpos.Length == |t| && invpos != brother && invpos != stack
    requires top <= |t| && m0 < |t| && Linked(t, kids, fson, brother[..])
    requires Standing(t, kids, out0, todo0, stack[..top], invpos[..], 0, m0)
    modifies invpos
    ensures stacktop <= |t| && m0 < m && Standing(t, kids, out, todo, stack[..stacktop], invpos[..], vertex, m)
    ensures exit ==> m == |t|
    ensures !exit ==> vertex > 0
  {
    vertex, stacktop, m, exit, out, todo := 0, top, m0, false, out0, todo0;
    while vertex == 0
      invariant m0 <= m && (vertex != 0 ==> m0 < m) && !exit
      invariant stacktop <= |t| && Standing(t, kids, out, todo, stack[..stacktop], invpos[..], vertex, m)
      decreases stacktop, vertex == 0
    {
      StandingBounds(t, kids, out, todo, stack[..stacktop], invpos[..], vertex, m);
      if stacktop <= 0 {
        exit := true;
        break;
      }
      vertex, out, todo := AscendStep(brother, stack, stacktop, invpos, m, t, kids, fson, out);
      stacktop := stacktop - 1;
      m := m + 1;
    }
  }

  lemma StandingStart(t: seq<nat>, kids: seq<seq<nat>>, invpos: seq<nat>)
    requires Forest(t) && Children(t, kids, 0) && |invpos| == |t| && Head(kids[0]) == |t|
    ensures Standing(t, kids, [], kids[0], [], invpos, |t|, 0)
  {
    ChildrenLists(t, kids, 0);
    KidsSuffix(t, kids, 0, 0);
    assert kids[0][0..] == kids[0];
    if kids[0] != [] {
      ChildOf(t, kids, 0, 0, kids[0][0]);
    }
  }

  /** Depth-first traversal of the binary tree that fson and brother describe, from vertex n. */
  method BTreeToPO(fson: array<nat>, brother: array<nat>, ghost t: seq<nat>, ghost kids: seq<seq<nat>>)
    returns (invpos: array<nat>)
    requires fson.Length == brother.Length == |t| && Forest(t) && Children(t, kids, 0)
    requires Linked(t, kids, fson[..], brother[..]) && Head(kids[0]) == |t|
    ensures fresh(invpos) && invpos.Length == |t|
    ensures Lists(kids) && Vertices(kids[0], |t|) && Inverse(invpos[..], PostList(kids, kids[0]))
  {
    var n := fson.Length;
    var stack := new nat[n];
    invpos := new nat[n];
    var stacktop: nat, vertex: nat, m: nat := 0, n, 0;
    var exit := false;
    ghost var out: seq<nat>, todo := [], kids[0];
    assert stack[..0] == [];
    StandingStart(t, kids, invpos[..]);
    while m < n
      invariant stacktop <= n && Standing(t, kids, out, todo, stack[..stacktop], invpos[..], vertex, m)
      invariant !exit && (m < n ==> vertex > 0)
      decreases n - m
    {
      stacktop, todo := Descend(fson, stack, stacktop, vertex, m, t, kids, brother[..], out, invpos[..], todo);
      vertex, stacktop, m, exit, out, todo := Ascend(brother, stack, stacktop, invpos, m, t, kids, fson[..], out, todo);
      if exit {
        break;
      }
    }
    StandingBounds(t, kids, out, todo, stack[..stacktop], invpos[..], vertex, m);
    NumberedInverse(t, kids, invpos[..]);
  }

  // ---------------------------------------------------------------------------------------------
  // Linking the vertices, largest first
  // ---------------------------------------------------------------------------------------------

  ghost predicate BrotherOk(t: seq<nat>, kids: seq<seq<nat>>, brother: seq<nat>, v: nat)
    requires |kids| == |t| + 1 && |brother| == |t| && 1 <= v <= |t|
  {
    At(t, v) <= |t| && At(brother, v) == Head(AfterIn(kids[At(t, v)], v))
  }

  /** The vertices above lo are linked; lroot is the last root so far. */
  ghost predicate LinkedAbove(t: seq<nat>, kids: seq<seq<nat>>, fson: seq<nat>, brother: seq<nat>, lo: nat, lroot: nat) {
    && Forest(t) && Children(t, kids, lo) && |fson| == |brother| == |t|
    && kids[0] != [] && kids[0][0] == |t| && kids[0][|kids[0]| - 1] == lroot
    && (forall v {:trigger At(fson, v)} :: 1 <= v <= |t| ==> At(fson, v) == Head(kids[v]))
    && (forall v {:trigger BrotherOk(t, kids, brother, v)} :: lo < v <= |t| && v != lroot ==> BrotherOk(t, kids, brother, v))
  }

  lemma {:induction false} AfterFront(xs: seq<nat>, y: nat, v: nat)
    ensures AfterIn([y] + xs, v) == if v == y then xs else AfterIn(xs, v)
  {
    assert ([y] + xs)[1..] == xs;
  }

  lemma {:induction false} AfterBack(xs: seq<nat>, y: nat, v: nat)
    requires Distinct(xs) && v in xs
    ensures AfterIn(xs + [y], v) == AfterIn(xs, v) + [y]
    ensures AfterIn(xs, v) == [] <==> v == xs[|xs| - 1]
  {
    assert xs == [xs[0]] + xs[1..];
    assert (xs + [y])[1..] == xs[1..] + [y];
    if xs[0] != v {
      AfterBack(xs[1..], y, v);
    }
  }

  lemma {:induction false} AfterNone(xs: seq<nat>, v: nat)
    requires v !in xs
    ensures AfterIn(xs + [v], v) == []
  {
    if xs != [] {
      assert xs == [xs[0]] + xs[1..];
      assert (xs + [v])[1..] == xs[1..] + [v];
      AfterNone(xs[1..], v);
    }
  }

  lemma AddChild(t: seq<nat>, kids: seq<seq<nat>>, v: nat, p: nat, xs: seq<nat>)
    requires Forest(t) && Children(t, kids, v) && 1 <= v <= |t| && At(t, v) == p <= |t|
    requires xs == [v] + kids[p] || xs == kids[p] + [v]
    ensures v !in kids[p] && Children(t, kids[p := xs], v - 1)
  {
    ChildOf(t, kids, v, p, v);
    assert Distinct(xs) && ChildrenOf(t, xs, v - 1, p);
    var kids' := kids[p := xs];
    forall q: nat | q <= |t|
      ensures Distinct(kids'[q]) && ChildrenOf(t, kids'[q], v - 1, q)
    {
      assert ChildrenOf(t, kids[q], v, q);
    }
  }

  lemma FrontBrother(t: seq<nat>, kids: seq<seq<nat>>, brother: seq<nat>, v: nat, p: nat, head: nat, u: nat)
    requires Forest(t) && Children(t, kids, v) && |brother| == |t| && 1 <= v <= u <= |t| && At(t, v) == p <= |t|
    requires head == Head(kids[p]) && (u > v ==> BrotherOk(t, kids, brother, u))
    ensures BrotherOk(t, kids[p := [v] + kids[p]], brother[v - 1 := head], u)
  {
    AfterFront(kids[p], v, u);
    if u > v {
      assert At(brother[v - 1 := head], u) == At(brother, u);
    }
  }

  /** A vertex that becomes the first son. */
  lemma LinkFront(t: seq<nat>, kids: seq<seq<nat>>, fson: seq<nat>, brother: seq<nat>, v: nat, p: nat, lroot: nat)
    requires LinkedAbove(t, kids, fson, brother, v, lroot) && 1 <= v < |t| && At(t, v) == p && p > 0
    ensures p <= |t| && LinkedAbove(t, kids[p := [v] + kids[p]], fson[p - 1 := v], brother[v - 1 := At(fson, p)], v - 1, lroot)
  {
    AddChild(t, kids, v, p, [v] + kids[p]);
    var kids', fson', brother' := kids[p := [v] + kids[p]], fson[p - 1 := v], brother[v - 1 := At(fson, p)];
    forall u | v - 1 < u <= |t| && u != lroot
      ensures BrotherOk(t, kids', brother', u)
    {
      FrontBrother(t, kids, brother, v, p, At(fson, p), u);
    }
    forall u | 1 <= u <= |t|
      ensures At(fson', u) == Head(kids'[u])
    {
      assert At(fson, u) == Head(kids[u]);
    }
  }

  lemma BackBrother(t: seq<nat>, kids: seq<seq<nat>>, brother: seq<nat>, v: nat, p: nat, last: nat, u: nat)
    requires Forest(t) && Children(t, kids, v) && |brother| == |t| && 1 <= v < u <= |t| && At(t, v) == p <= |t|
    requires kids[p] != [] && last == kids[p][|kids[p]| - 1] && 1 <= last <= |t|
    requires u == last || BrotherOk(t, kids, brother, u)
    ensures BrotherOk(t, kids[p := kids[p] + [v]], brother[last - 1 := v], u)
  {
    var brother' := brother[last - 1 := v];
    if u != last {
      assert At(brother', u) == At(brother, u);
    }
    ChildOf(t, kids, v, At(t, u), u);
    if At(t, u) == p {
      AfterBack(kids[p], v, u);
    } else {
      ChildOf(t, kids, v, p, last);
    }
  }

  lemma BackFson(kids: seq<seq<nat>>, fson: seq<nat>, v: nat, p: nat)
    requires |kids| == |fson| + 1 && p < |kids| && kids[p] != []
    requires forall u {:trigger At(fson, u)} :: 1 <= u <= |fson| ==> At(fson, u) == Head(kids[u])
    ensures forall u {:trigger At(fson, u)} :: 1 <= u <= |fson| ==> At(fson, u) == Head(kids[p := kids[p] + [v]][u])
  {
  }

  /** A root, linked behind the last root. */
  lemma LinkRootBack(t: seq<nat>, kids: seq<seq<nat>>, fson: seq<nat>, brother: seq<nat>, v: nat, lroot: nat)
    requires LinkedAbove(t, kids, fson, brother, v, lroot) && 1 <= v < |t| && At(t, v) == 0
    ensures 1 <= lroot <= |t| && LinkedAbove(t, kids[0 := kids[0] + [v]], fson, brother[lroot - 1 := v], v - 1, v)
  {
    AddChild(t, kids, v, 0, kids[0] + [v]);
    ChildOf(t, kids, v, 0, lroot);
    var kids', brother' := kids[0 := kids[0] + [v]], brother[lroot - 1 := v];
    forall u | v - 1 < u <= |t| && u != v
      ensures BrotherOk(t, kids', brother', u)
    {
      BackBrother(t, kids, brother, v, 0, lroot, u);
    }
    BackFson(kids, fson, v, 0);
  }

  lemma LinkedAll(t: seq<nat>, kids: seq<seq<nat>>, fson: seq<nat>, brother: seq<nat>, lroot: nat)
    requires LinkedAbove(t, kids, fson, brother, 0, lroot)
    ensures Linked(t, kids, fson, brother)
  {
    forall v | 1 <= v <= |t|
      ensures At(t, v) <= |t| && At(fson, v) == Head(kids[v])
      ensures At(brother, v) == Head(After(t, kids, v)) || (At(t, v) == 0 && After(t, kids, v) == [])
    {
      if v == lroot {
        ChildOf(t, kids, 0, 0, lroot);
        AfterBack(kids[0], 0, lroot);
      } else {
        assert BrotherOk(t, kids, brother, v);
      }
    }
  }

  ghost function NoKids(n: nat): (kids: seq<seq<nat>>)
    requires n > 0
    ensures |kids| == n + 1 && kids[0] == [n] && forall p :: 1 <= p <= n ==> kids[p] == []
  {
    [[n]] + seq<seq<nat>>(n, _ => [])
  }

  lemma LinkStart(t: seq<nat>, fson: seq<nat>, brother: seq<nat>)
    requires Forest(t) && |t| > 0 && |fson| == |brother| == |t|
    requires forall k :: 0 <= k < |fson| ==> fson[k] == 0
    ensures LinkedAbove(t, NoKids(|t|), fson, brother, |t| - 1, |t|)
  {
    assert At(t, |t|) == 0;
  }

  /** First sons and brothers of a forest: children in increasing, roots in decreasing order. */
  method LinkChildren(parent: array<nat>, fson: array<nat>, brother: array<nat>) returns (ghost kids: seq<seq<nat>>)
    requires fson.Length == brother.Length == parent.Length > 0 && fson != brother && fson != parent && brother != parent
    requires Forest(parent[..]) && forall k :: 0 <= k < fson.Length ==> fson[k] == 0
    modifies fson, brother
    ensures Children(parent[..], kids, 0) && Linked(parent[..], kids, fson[..], brother[..]) && Head(kids[0]) == parent.Length
  {
    var n := parent.Length;
    ghost var t := parent[..];
    var lroot: nat := n;
    kids := NoKids(n);
    LinkStart(t, fson[..], brother[..]);
    var vertex: nat := n - 1;
    while vertex > 0
      invariant vertex < n && 1 <= lroot <= n && parent[..] == t
      invariant LinkedAbove(t, kids, fson[..], brother[..], vertex, lroot)
    {
      var curParent := parent[vertex - 1];
      assert curParent == At(t, vertex);
      ghost var f, b := fson[..], brother[..];
      if curParent == 0 || curParent == vertex {
        LinkRootBack(t, kids, f, b, vertex, lroot);
        kids := kids[0 := kids[0] + [vertex]];
        brother[lroot - 1] := vertex;
        lroot := vertex;
      } else {
        LinkFront(t, kids, f, b, vertex, curParent, lroot);
        kids := kids[curParent := [vertex] + kids[curParent]];
        brother[vertex - 1] := fson[curParent - 1];
        fson[curParent - 1] := vertex;
        assert fson[..] == f[curParent - 1 := vertex];
        assert brother[..] == b[vertex - 1 := At(f, curParent)];
      }
      vertex := vertex - 1;
    }
    LinkedAll(t, kids, fson[..], brother[..], lroot);
  }

  // ---------------------------------------------------------------------------------------------
  // What a postorder is
  // ---------------------------------------------------------------------------------------------

  /** The subtree of v is numbered lo+1, ..., number of v. */
  ghost predicate Interval(t: seq<nat>, invpos: seq<nat>, v: nat)
    requires |invpos| == |t| && 1 <= v <= |t|
  {
    exists lo: nat :: OnInterval(t, invpos, v, lo)
  }

  ghost predicate OnInterval(t: seq<nat>, invpos: seq<nat>, v: nat, lo: nat)
    requires |invpos| == |t| && 1 <= v <= |t|
  {
    forall u {:trigger At(invpos, u)} :: 1 <= u <= |t| ==> (Anc(t, u, v) <==> lo < At(invpos, u) <= At(invpos, v))
  }

  ghost predicate Intervals(t: seq<nat>, invpos: seq<nat>) {
    |invpos| == |t| && forall v {:trigger Interval(t, invpos, v)} :: 1 <= v <= |t| ==> Interval(t, invpos, v)
  }

  lemma InSlice(total: seq<nat>, invpos: seq<nat>, pre: seq<nat>, sub: seq<nat>, post: seq<nat>, u: nat)
    requires Inverse(invpos, total) && total == pre + sub + post && 1 <= u <= |total|
    ensures u in sub <==> |pre| < At(invpos, u) <= |pre| + |sub|
  {
    var k := At(invpos, u);
    assert total[k - 1] == At(total, k) == u;
    if u in sub {
      var i :| 0 <= i < |sub| && sub[i] == u;
      assert total[|pre| + i] == At(total, |pre| + i + 1) == u;
      assert At(invpos, At(total, |pre| + i + 1)) == |pre| + i + 1;
    }
    if |pre| < k <= |pre| + |sub| {
      assert sub[k - 1 - |pre|] == u;
    }
  }

  lemma SubtreeMember(t: seq<nat>, kids: seq<seq<nat>>, v: nat, u: nat)
    requires Forest(t) && Children(t, kids, 0) && Lists(kids) && 1 <= v <= |t| && 1 <= u <= |t| && Vertices(kids[v], |t|)
    ensures u in PostList(kids, kids[v]) + [v] <==> Anc(t, u, v)
  {
    PostMember(t, kids, kids[v], u);
    BelowKids(t, kids, u, v);
  }

  lemma SubtreeInterval(t: seq<nat>, kids: seq<seq<nat>>, invpos: seq<nat>, v: nat)
    requires Forest(t) && Children(t, kids, 0) && Lists(kids) && Vertices(kids[0], |t|)
    requires Inverse(invpos, PostList(kids, kids[0])) && |invpos| == |t| && 1 <= v <= |t|
    ensures Interval(t, invpos, v)
  {
    var total := PostList(kids, kids[0]);
    WholePostorder(t, kids);
    ChildrenLists(t, kids, 0);
    var pre, post := SubtreeSlice(kids, kids[0], v);
    var sub := PostList(kids, kids[v]) + [v];
    assert total[|pre| + |sub| - 1] == v;
    assert At(invpos, At(total, |pre| + |sub|)) == |pre| + |sub|;
    forall u | 1 <= u <= |t|
      ensures Anc(t, u, v) <==> |pre| < At(invpos, u) <= At(invpos, v)
    {
      SubtreeMember(t, kids, v, u);
      InSlice(total, invpos, pre, sub, post, u);
    }
    assert OnInterval(t, invpos, v, |pre|);
  }

  /** The numbers given by the traversal are a postorder: a permutation, every subtree contiguous and its
      root numbered last. */
  lemma TraversalIsPostorder(t: seq<nat>, kids: seq<seq<nat>>, invpos: seq<nat>)
    requires Forest(t) && Children(t, kids, 0) && Lists(kids) && Vertices(kids[0], |t|)
    requires Inverse(invpos, PostList(kids, kids[0])) && |invpos| == |t|
    ensures Intervals(t, invpos) && Topological(t, invpos)
  {
    forall v | 1 <= v <= |t|
      ensures Interval(t, invpos, v)
    {
      SubtreeInterval(t, kids, invpos, v);
    }
    IntervalsTopological(t, invpos, PostList(kids, kids[0]));
  }

  lemma IntervalsTopological(t: seq<nat>, invpos: seq<nat>, perm: seq<nat>)
    requires Intervals(t, invpos) && Inverse(invpos, perm)
    ensures Topological(t, invpos)
  {
    forall v | 1 <= v <= |t| && v < At(t, v) <= |t|
      ensures At(invpos, v) < At(invpos, At(t, v))
    {
      assert Anc(t, v, At(t, v));
      assert Interval(t, invpos, At(t, v));
      assert At(perm, At(invpos, v)) == v && At(perm, At(invpos, At(t, v))) == At(t, v);
    }
  }

  lemma {:induction false} AncRelabelled(t: seq<nat>, sigma: seq<nat>, t': seq<nat>, u: nat, v: nat)
    requires Forest(t) && Topological(t, sigma) && Relabelled(t, sigma, t') && 1 <= u <= |t| && 1 <= v <= |t|
    requires forall a, b :: 1 <= a <= |t| && 1 <= b <= |t| && At(sigma, a) == At(sigma, b) ==> a == b
    ensures Anc(t, u, v) <==> Anc(t', At(sigma, u), At(sigma, v))
    decreases |t| - u
  {
    var p := At(t, u);
    if u != v && p > 0 {
      AncRelabelled(t, sigma, t', p, v);
    }
  }

  /** The vertices of a postordered forest are numbered in a postorder already. */
  ghost predicate Postordered(t: seq<nat>) {
    Forest(t) && forall v {:trigger Contiguous(t, v)} :: 1 <= v <= |t| ==> Contiguous(t, v)
  }

  /** The subtree of v is the interval lo+1..v. */
  ghost predicate Contiguous(t: seq<nat>, v: nat) { exists lo: nat :: EndsAt(t, v, lo) }

  ghost predicate EndsAt(t: seq<nat>, v: nat, lo: nat) {
    forall u {:trigger At(t, u)} :: 1 <= u <= |t| ==> (Anc(t, u, v) <==> lo < u <= v)
  }

  lemma SigmaInjective(sigma: seq<nat>, perm: seq<nat>)
    requires Inverse(sigma, perm)
    ensures forall a, b :: 1 <= a <= |sigma| && 1 <= b <= |sigma| && At(sigma, a) == At(sigma, b) ==> a == b
  {
    forall a, b | 1 <= a <= |sigma| && 1 <= b <= |sigma| && At(sigma, a) == At(sigma, b)
      ensures a == b
    {
      assert At(perm, At(sigma, a)) == a && At(perm, At(sigma, b)) == b;
    }
  }

  lemma RelabelledForest(t: seq<nat>, sigma: seq<nat>, perm: seq<nat>, t': seq<nat>)
    requires Forest(t) && Topological(t, sigma) && Relabelled(t, sigma, t') && Inverse(sigma, perm)
    ensures Forest(t')
  {
    forall v' | 1 <= v' <= |t'|
      ensures At(t', v') == 0 || v' < At(t', v') <= |t'|
    {
      var v := At(perm, v');
      assert At(t', At(sigma, v)) == if At(t, v) == 0 then 0 else At(sigma, At(t, v));
    }
  }

  /** Relabelling a forest by one of its postorders makes it postordered. */
  lemma RelabelledPostordered(t: seq<nat>, sigma: seq<nat>, perm: seq<nat>, t': seq<nat>)
    requires Forest(t) && Topological(t, sigma) && Relabelled(t, sigma, t') && Inverse(sigma, perm) && Intervals(t, sigma)
    ensures Postordered(t')
  {
    RelabelledForest(t, sigma, perm, t');
    SigmaInjective(sigma, perm);
    forall v' | 1 <= v' <= |t'|
      ensures Contiguous(t', v')
    {
      var v := At(perm, v');
      assert Interval(t, sigma, v);
      var lo: nat :| OnInterval(t, sigma, v, lo);
      forall u' | 1 <= u' <= |t'|
        ensures Anc(t', u', v') <==> lo < u' <= v'
      {
        assert At(sigma, At(perm, u')) == u';
        AncRelabelled(t, sigma, t', At(perm, u'), v);
      }
      assert EndsAt(t', v', lo);
    }
  }

  // ---------------------------------------------------------------------------------------------
  // Children ordered by their counts
  // ---------------------------------------------------------------------------------------------

  ghost function Last(xs: seq<nat>): nat { if xs == [] then 0 else xs[|xs| - 1] }

  /** No element of xs has a smaller count than the last one. */
  ghost predicate MinLast(xs: seq<nat>, cc: seq<int>) {
    Vertices(xs, |cc|) && forall k :: 0 <= k < |xs| ==> cc[Last(xs) - 1] <= cc[xs[k] - 1]
  }

  /** The state of the linking loop of SortChildren: lson holds the last sons, which have the least counts,
      and vertices that are not linked yet have no brother. */
  ghost predicate SortedAbove(t: seq<nat>, kids: seq<seq<nat>>, fson: seq<nat>, brother: seq<nat>, lson: seq<nat>,
                              cc: seq<int>, lo: nat, lroot: nat) {
    && LinkedAbove(t, kids, fson, brother, lo, lroot) && lo < |t| && |lson| == |cc| == |t|
    && (forall p {:trigger At(lson, p)} :: 1 <= p <= |t| ==> At(lson, p) == Last(kids[p]) && MinLast(kids[p], cc))
    && (forall v {:trigger At(brother, v)} :: 1 <= v <= lo ==> At(brother, v) == 0)
  }

  /** A vertex that becomes the last son. */
  lemma LinkBack(t: seq<nat>, kids: seq<seq<nat>>, fson: seq<nat>, brother: seq<nat>, v: nat, p: nat, lroot: nat)
    requires LinkedAbove(t, kids, fson, brother, v, lroot) && 1 <= v < |t| && At(t, v) == p && p > 0
    requires At(brother, v) == 0 && p < |kids| && kids[p] != []
    ensures v < Last(kids[p]) <= |t|
    ensures LinkedAbove(t, kids[p := kids[p] + [v]], fson, brother[Last(kids[p]) - 1 := v], v - 1, lroot)
  {
    AddChild(t, kids, v, p, kids[p] + [v]);
    ChildOf(t, kids, v, p, Last(kids[p]));
    ChildOf(t, kids, v, p, v);
    var kids', brother' := kids[p := kids[p] + [v]], brother[Last(kids[p]) - 1 := v];
    forall u | v - 1 < u <= |t| && u != lroot
      ensures BrotherOk(t, kids', brother', u)
    {
      if u == v {
        AfterNone(kids[p], v);
        assert At(brother', v) == At(brother, v);
      } else {
        BackBrother(t, kids, brother, v, p, Last(kids[p]), u);
      }
    }
    BackFson(kids, fson, v, p);
  }

  lemma SortRoot(t: seq<nat>, kids: seq<seq<nat>>, fson: seq<nat>, brother: seq<nat>, lson: seq<nat>, cc: seq<int>, v: nat, lroot: nat)
    requires SortedAbove(t, kids, fson, brother, lson, cc, v, lroot) && 1 <= v && At(t, v) == 0
    ensures 1 <= lroot <= |t|
    ensures SortedAbove(t, kids[0 := kids[0] + [v]], fson, brother[lroot - 1 := v], lson, cc, v - 1, v)
  {
    LinkRootBack(t, kids, fson, brother, v, lroot);
    ChildOf(t, kids, v, 0, lroot);
    SortKept(t, kids, fson, brother, lson, cc, v, lroot, 0, kids[0] + [v], lroot,
             kids[0 := kids[0] + [v]], brother[lroot - 1 := v], lson);
  }

  /** The counts and the brothers that an insertion does not touch. */
  lemma SortKept(t: seq<nat>, kids: seq<seq<nat>>, fson: seq<nat>, brother: seq<nat>, lson: seq<nat>, cc: seq<int>, v: nat, lroot: nat,
                 p: nat, xs: seq<nat>, w: nat, kids': seq<seq<nat>>, brother': seq<nat>, lson': seq<nat>)
    requires SortedAbove(t, kids, fson, brother, lson, cc, v, lroot) && 1 <= v && p <= |t| && v <= w <= |t|
    requires lson' == if p > 0 then lson[p - 1 := Last(xs)] else lson
    requires p > 0 ==> MinLast(xs, cc)
    requires kids' == kids[p := xs] && |brother'| == |t| && brother' == brother[w - 1 := brother'[w - 1]]
    ensures |lson'| == |t| && |kids'| == |t| + 1
    ensures forall q {:trigger At(lson', q)} :: 1 <= q <= |t| ==> At(lson', q) == Last(kids'[q]) && MinLast(kids'[q], cc)
    ensures forall u {:trigger At(brother', u)} :: 1 <= u <= v - 1 ==> At(brother', u) == 0
  {
    forall q | 1 <= q <= |t|
      ensures At(lson', q) == Last(kids'[q]) && MinLast(kids'[q], cc)
    {
      assert At(lson, q) == Last(kids[q]) && MinLast(kids[q], cc);
    }
    forall u | 1 <= u <= v - 1
      ensures At(brother', u) == 0
    {
      assert At(brother, u) == 0;
    }
  }

  /** The first child, or one with at least the count of the last son, goes to the front. */
  lemma SortFront(t: seq<nat>, kids: seq<seq<nat>>, fson: seq<nat>, brother: seq<nat>, lson: seq<nat>, cc: seq<int>,
                  v: nat, p: nat, lroot: nat)
    requires SortedAbove(t, kids, fson, brother, lson, cc, v, lroot) && 1 <= v && At(t, v) == p && p > 0
    requires p <= |t| && (At(lson, p) > 0 ==> At(lson, p) <= |t| && cc[v - 1] >= cc[At(lson, p) - 1])
    ensures SortedAbove(t, kids[p := [v] + kids[p]], fson[p - 1 := v], brother[v - 1 := At(fson, p)],
                        lson[p - 1 := if At(lson, p) > 0 then At(lson, p) else v], cc, v - 1, lroot)
  {
    LinkFront(t, kids, fson, brother, v, p, lroot);
    var xs := [v] + kids[p];
    assert At(lson, p) == Last(kids[p]) && MinLast(kids[p], cc);
    assert Last(xs) == if At(lson, p) > 0 then At(lson, p) else v;
    assert forall k :: 0 < k < |xs| ==> xs[k] == kids[p][k - 1];
    assert MinLast(xs, cc);
    SortKept(t, kids, fson, brother, lson, cc, v, lroot, p, xs, v,
             kids[p := xs], brother[v - 1 := At(fson, p)], lson[p - 1 := Last(xs)]);
  }

  /** A child with a smaller count than the last son goes behind it. */
  lemma SortBack(t: seq<nat>, kids: seq<seq<nat>>, fson: seq<nat>, brother: seq<nat>, lson: seq<nat>, cc: seq<int>,
                 v: nat, p: nat, lroot: nat)
    requires SortedAbove(t, kids, fson, brother, lson, cc, v, lroot) && 1 <= v && At(t, v) == p && p > 0
    requires p <= |t| && 0 < At(lson, p) <= |t| && cc[v - 1] < cc[At(lson, p) - 1]
    ensures SortedAbove(t, kids[p := kids[p] + [v]], fson, brother[At(lson, p) - 1 := v], lson[p - 1 := v], cc, v - 1, lroot)
  {
    assert At(lson, p) == Last(kids[p]) && MinLast(kids[p], cc);
    assert At(brother, v) == 0;
    LinkBack(t, kids, fson, brother, v, p, lroot);
    var xs := kids[p] + [v];
    assert Last(xs) == v && MinLast(xs, cc);
    SortKept(t, kids, fson, brother, lson, cc, v, lroot, p, xs, At(lson, p),
             kids[p := xs], brother[At(lson, p) - 1 := v], lson[p - 1 := v]);
  }

  lemma SortStart(t: seq<nat>, fson: seq<nat>, brother: seq<nat>, lson: seq<nat>, cc: seq<int>)
    requires Forest(t) && |t| > 0 && |fson| == |brother| == |lson| == |cc| == |t|
    requires forall k :: 0 <= k < |fson| ==> fson[k] == brother[k] == lson[k] == 0
    ensures SortedAbove(t, NoKids(|t|), fson, brother, lson, cc, |t| - 1, |t|)
  {
    LinkStart(t, fson, brother);
    var kids := NoKids(|t|);
    forall v: nat | 1 <= v <= |t|
      ensures At(brother, v) == 0 && At(lson, v) == Last(kids[v]) && MinLast(kids[v], cc)
    {
      assert fson[v - 1] == brother[v - 1] == lson[v - 1] == 0;
    }
  }

  lemma SortDone(t: seq<nat>, kids: seq<seq<nat>>, fson: seq<nat>, brother: seq<nat>, lson: seq<nat>, cc: seq<int>, lroot: nat)
    requires SortedAbove(t, kids, fson, brother, lson, cc, 0, lroot)
    ensures 1 <= lroot <= |t| && Linked(t, kids, fson, brother[lroot - 1 := 0])
    ensures Head(kids[0]) == |t| && forall p :: 1 <= p <= |t| ==> MinLast(kids[p], cc)
  {
    ChildOf(t, kids, 0, 0, lroot);
    var brother' := brother[lroot - 1 := 0];
    forall v | 0 < v <= |t| && v != lroot
      ensures BrotherOk(t, kids, brother', v)
    {
      assert BrotherOk(t, kids, brother, v) && At(brother', v) == At(brother, v);
    }
    assert LinkedAbove(t, kids, fson, brother', 0, lroot);
    LinkedAll(t, kids, fson, brother', lroot);
    forall p | 1 <= p <= |t|
      ensures MinLast(kids[p], cc)
    {
      assert At(lson, p) == Last(kids[p]);
    }
  }

  /** First sons and brothers with a child of least count last. */
  method LinkByCount(poparent: array<nat>, cc: array<int>) returns (fson: array<nat>, brother: array<nat>, ghost kids: seq<seq<nat>>)
    requires poparent.Length == cc.Length > 0 && Forest(poparent[..])
    ensures fresh(fson) && fresh(brother) && fson != brother && fson.Length == brother.Length == poparent.Length
    ensures Children(poparent[..], kids, 0) && Linked(poparent[..], kids, fson[..], brother[..]) && Head(kids[0]) == poparent.Length
    ensures forall p :: 1 <= p <= poparent.Length ==> MinLast(kids[p], cc[..])
  {
    var n := poparent.Length;
    ghost var t, c := poparent[..], cc[..];
    fson := new nat[n](_ => 0);
    brother := new nat[n](_ => 0);
    var lson := new nat[n](_ => 0);
    var lroot: nat := n;
    kids := NoKids(n);
    SortStart(t, fson[..], brother[..], lson[..], c);
    var vertex: nat := n - 1;
    while vertex > 0
      invariant vertex < n && 1 <= lroot <= n
      invariant SortedAbove(t, kids, fson[..], brother[..], lson[..], c, vertex, lroot)
    {
      lroot, kids := LinkOne(poparent, cc, fson, brother, lson, vertex, lroot, kids);
      vertex := vertex - 1;
    }
    ghost var b := brother[..];
    SortDone(t, kids, fson[..], b, lson[..], c, lroot);
    brother[lroot - 1] := 0;
    assert brother[..] == b[lroot - 1 := 0];
  }

  method LinkOne(poparent: array<nat>, cc: array<int>, fson: array<nat>, brother: array<nat>, lson: array<nat>,
                 vertex: nat, lroot0: nat, ghost kids0: seq<seq<nat>>)
    returns (lroot: nat, ghost kids: seq<seq<nat>>)
    requires fson != brother && fson != lson && brother != lson && poparent != fson && poparent != brother && poparent != lson
    requires poparent.Length == cc.Length == fson.Length == brother.Length == lson.Length
    requires 1 <= vertex < poparent.Length && 1 <= lroot0 <= poparent.Length
    requires SortedAbove(poparent[..], kids0, fson[..], brother[..], lson[..], cc[..], vertex, lroot0)
    modifies fson, brother, lson
    ensures 1 <= lroot <= poparent.Length
    ensures SortedAbove(poparent[..], kids, fson[..], brother[..], lson[..], cc[..], vertex - 1, lroot)
  {
    lroot, kids := lroot0, kids0;
    ghost var t, c, f, b, l := poparent[..], cc[..], fson[..], brother[..], lson[..];
    var curParent := poparent[vertex - 1];
    assert curParent == At(t, vertex);
    if curParent == 0 || curParent == vertex {
      SortRoot(t, kids, f, b, l, c, vertex, lroot);
      kids := kids[0 := kids[0] + [vertex]];
      brother[lroot - 1] := vertex;
      lroot := vertex;
    } else {
      var ndlson := lson[curParent - 1];
      assert ndlson == At(l, curParent) == Last(kids[curParent]) && MinLast(kids[curParent], c);
      if ndlson > 0 {
        if cc[vertex - 1] >= cc[ndlson - 1] {
          SortFront(t, kids, f, b, l, c, vertex, curParent, lroot);
          kids := kids[curParent := [vertex] + kids[curParent]];
          brother[vertex - 1] := fson[curParent - 1];
          fson[curParent - 1] := vertex;
          assert lson[..] == l[curParent - 1 := ndlson];
        } else {
          SortBack(t, kids, f, b, l, c, vertex, curParent, lroot);
          kids := kids[curParent := kids[curParent] + [vertex]];
          brother[ndlson - 1] := vertex;
          lson[curParent - 1] := vertex;
        }
      } else {
        SortFront(t, kids, f, b, l, c, vertex, curParent, lroot);
        assert At(f, curParent) == Head(kids[curParent]) && At(b, vertex) == 0;
        kids := kids[curParent := [vertex] + kids[curParent]];
        fson[curParent - 1] := vertex;
        lson[curParent - 1] := vertex;
        assert brother[..] == b[vertex - 1 := 0];
      }
    }
  }

  // ---------------------------------------------------------------------------------------------
  // The child of least count comes right before its parent
  // ---------------------------------------------------------------------------------------------

  lemma {:induction false} PostEndsWith(kids: seq<seq<nat>>, xs: seq<nat>)
    requires Lists(kids) && Vertices(xs, |kids| - 1) && xs != []
    ensures PostList(kids, xs) != [] && Last(PostList(kids, xs)) == Last(xs)
  {
    if |xs| > 1 {
      PostEndsWith(kids, xs[1..]);
    }
  }

  lemma LastBefore(t: seq<nat>, kids: seq<seq<nat>>, invpos: seq<nat>, p: nat)
    requires Forest(t) && Children(t, kids, 0) && Lists(kids) && Vertices(kids[0], |t|)
    requires Inverse(invpos, PostList(kids, kids[0])) && |invpos| == |t| && 1 <= p <= |t| && kids[p] != []
    ensures 1 <= Last(kids[p]) <= |t| && At(t, Last(kids[p])) == p
    ensures At(invpos, Last(kids[p])) + 1 == At(invpos, p)
  {
    var total := PostList(kids, kids[0]);
    WholePostorder(t, kids);
    ChildrenLists(t, kids, 0);
    ChildOf(t, kids, 0, p, Last(kids[p]));
    var pre, post := SubtreeSlice(kids, kids[0], p);
    var sub := PostList(kids, kids[p]);
    PostEndsWith(kids, kids[p]);
    var k := |pre| + |sub|;
    assert total[k] == p && total[k - 1] == Last(kids[p]);
    assert At(total, k + 1) == p && At(total, k) == Last(kids[p]);
    assert At(invpos, At(total, k + 1)) == k + 1 && At(invpos, At(total, k)) == k;
  }

  /** Right before every parent comes a child that none of its siblings undercuts. */
  ghost predicate LeastChildLast(t: seq<nat>, cc: seq<int>)
    requires |cc| == |t| && Forest(t)
  {
    forall c {:trigger At(t, c)} :: 1 <= c <= |t| && At(t, c) > 0 ==>
      At(t, At(t, c) - 1) == At(t, c) && cc[At(t, c) - 2] <= cc[c - 1]
  }

  /** xs' is xs with every entry moved to the new number of its vertex. */
  ghost predicate MovedAlong(xs: seq<int>, sigma: seq<nat>, xs': seq<int>) {
    && |xs| == |sigma| == |xs'|
    && forall v {:trigger At(sigma, v)} :: 1 <= v <= |xs| ==> 1 <= At(sigma, v) <= |xs| && xs'[At(sigma, v) - 1] == xs[v - 1]
  }

  lemma LeastChild(t: seq<nat>, kids: seq<seq<nat>>, sigma: seq<nat>, perm: seq<nat>, t': seq<nat>, cc: seq<int>, cc': seq<int>, v: nat)
    requires Forest(t) && Children(t, kids, 0) && Relabelled(t, sigma, t') && MovedAlong(cc, sigma, cc') && |cc| == |t|
    requires 1 <= v <= |t| && 0 < At(t, v) <= |t|
    requires var last := Last(kids[At(t, v)]);
             1 <= last <= |t| && At(t, last) == At(t, v) && At(sigma, last) + 1 == At(sigma, At(t, v))
    requires MinLast(kids[At(t, v)], cc)
    ensures var p' := At(sigma, At(t, v));
            2 <= p' <= |t| && At(t', At(sigma, v)) == p' && At(t', p' - 1) == p' && cc'[p' - 2] <= cc'[At(sigma, v) - 1]
  {
    var p := At(t, v);
    var last := Last(kids[p]);
    ChildOf(t, kids, 0, p, v);
    var k :| 0 <= k < |kids[p]| && kids[p][k] == v;
    assert cc[last - 1] <= cc[kids[p][k] - 1];
    assert At(t', At(sigma, last)) == At(sigma, p) && At(t', At(sigma, v)) == At(sigma, p);
  }

  lemma LeastChildrenLast(t: seq<nat>, kids: seq<seq<nat>>, sigma: seq<nat>, t': seq<nat>, cc: seq<int>, cc': seq<int>)
    requires Forest(t) && Children(t, kids, 0) && Lists(kids) && Vertices(kids[0], |t|) && |cc| == |t|
    requires Inverse(sigma, PostList(kids, kids[0])) && Relabelled(t, sigma, t') && Forest(t') && MovedAlong(cc, sigma, cc')
    requires forall p :: 1 <= p <= |t| ==> MinLast(kids[p], cc)
    ensures LeastChildLast(t', cc')
  {
    var perm := PostList(kids, kids[0]);
    forall c | 1 <= c <= |t| && At(t', c) > 0
      ensures At(t', At(t', c) - 1) == At(t', c) && cc'[At(t', c) - 2] <= cc'[c - 1]
    {
      var v := At(perm, c);
      assert At(t', At(sigma, v)) == if At(t, v) == 0 then 0 else At(sigma, At(t, v));
      ChildOf(t, kids, 0, At(t, v), v);
      LastBefore(t, kids, sigma, At(t, v));
      LeastChild(t, kids, sigma, perm, t', cc, cc', v);
    }
  }
}
