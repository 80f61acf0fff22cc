/** Construction of the elimination tree: Liu's algorithm with path compression, run over all columns by
    one rank, or handed from rank to rank with each rank processing its own columns. */
module ETree {
  import opened EliminationTree
  import opened Ordering

  /** The columns of the permuted graph: cols(i) lists the vertices stored in column i, in any order. */
  type Columns = nat -> seq<nat>

  ghost predicate ValidColumns(cols: Columns, n: nat) {
    forall i, k :: 1 <= i <= n && k in cols(i) ==> 1 <= k <= n
  }

  /** The edges the algorithm looks at: column i is skipped when it has at most one entry, and only
      entries k < i of column i are used. */
  ghost predicate Uses(cols: Columns, i: nat, k: nat) { k < i && |cols(i)| > 1 && k in cols(i) }

  ghost function Seen(cols: Columns): Adj {
    (u: nat, v: nat) => Uses(cols, u, v) || Uses(cols, v, u)
  }

  // ---------------------------------------------------------------------------------------------
  // What holds between two columns, and between two entries of a column
  // ---------------------------------------------------------------------------------------------

  /** The labels while column i is processed: the trees of the entries seen so far already hang below i. */
  ghost function Partial(adj: Adj, i: nat, seen: set<nat>): (root: seq<nat>)
    requires i >= 1
    ensures |root| == i
  {
    Joined(LabelSeq(adj, i - 1), RootsOf(LabelSeq(adj, i - 1), seen))
  }

  /** ancstr[v] is 0 for a root and otherwise a vertex above v in the same tree.  `hole` is the root that
      is about to be linked, 0 if there is none. */
  ghost predicate Ancestors(i: nat, anc: seq<nat>, root: seq<nat>, hole: nat) {
    && |root| == i <= |anc|
    && (forall v :: 1 <= v <= i ==> 1 <= At(root, v) <= i)
    && (forall v {:trigger At(anc, v)} :: 1 <= v <= i ==> (At(anc, v) == 0 <==> At(root, v) == v || v == hole))
    && (forall v {:trigger At(anc, v)} :: 1 <= v <= i && At(anc, v) > 0 ==> v < At(anc, v) <= i && At(root, At(anc, v)) == At(root, v))
  }

  /** Roots have no parent yet, every other vertex has its final parent. */
  ghost predicate Parents(i: nat, parent: seq<nat>, root: seq<nat>, tree: seq<nat>) {
    && |root| == i <= |parent| == |tree|
    && forall v {:trigger At(parent, v)} :: 1 <= v <= i ==> At(parent, v) == if At(root, v) == v then 0 else At(tree, v)
  }

  /** After column i the trees are the components of the subgraph on 1..i, rooted at their largest vertices. */
  ghost predicate Stage(adj: Adj, n: nat, i: nat, parent: seq<nat>, anc: seq<nat>) {
    && |parent| == |anc| == n && i <= n
    && Ancestors(i, anc, LabelSeq(adj, i), 0)
    && Parents(i, parent, LabelSeq(adj, i), Tree(adj, n))
  }

  lemma RelabelAncestors(i: nat, anc: seq<nat>, a: seq<nat>, b: seq<nat>, r: nat)
    requires Ancestors(i, anc, a, 0) && 1 <= r < i && At(a, r) == r && At(a, i) == i
    requires |b| == i && forall v :: 1 <= v <= i ==> At(b, v) == if At(a, v) == r then i else At(a, v)
    ensures Ancestors(i, anc, b, r)
  {
  }

  lemma JoinAncestors(i: nat, anc: seq<nat>, root0: seq<nat>, joined: set<nat>, r: nat)
    requires i >= 1 && |root0| == i - 1 && Ancestors(i, anc, Joined(root0, joined), 0)
    requires 1 <= r < i && At(root0, r) == r && r !in joined
    ensures Ancestors(i, anc, Joined(root0, joined + {r}), r)
  {
    var a, b := Joined(root0, joined), Joined(root0, joined + {r});
    forall v | 1 <= v <= i
      ensures At(b, v) == if At(a, v) == r then i else At(a, v)
    {
    }
    RelabelAncestors(i, anc, a, b, r);
  }

  /** Path compression keeps the ancestor links correct. */
  lemma CompressStep(i: nat, anc: seq<nat>, root: seq<nat>, hole: nat, v: nat)
    requires Ancestors(i, anc, root, hole) && 1 <= v < i && At(root, v) == i == At(root, i) && At(anc, v) > 0
    ensures Ancestors(i, anc[v - 1 := i], root, hole)
  {
    var anc' := anc[v - 1 := i];
    assert forall u :: 1 <= u <= i ==> At(anc', u) == if u == v then i else At(anc, u);
  }

  /** Linking the root `r` to i closes the hole. */
  lemma LinkStep(i: nat, anc: seq<nat>, root: seq<nat>, r: nat)
    requires Ancestors(i, anc, root, r) && 1 <= r < i && At(root, r) == i == At(root, i)
    ensures Ancestors(i, anc[r - 1 := i], root, 0)
  {
    var anc' := anc[r - 1 := i];
    assert forall u :: 1 <= u <= i ==> At(anc', u) == if u == r then i else At(anc, u);
  }

  lemma JoinParents(i: nat, parent: seq<nat>, root0: seq<nat>, joined: set<nat>, r: nat, tree: seq<nat>)
    requires i >= 1 && |root0| == i - 1 && Parents(i, parent, Joined(root0, joined), tree)
    requires 1 <= r < i && At(root0, r) == r && r !in joined && At(tree, r) == i
    ensures Parents(i, parent[r - 1 := i], Joined(root0, joined + {r}), tree)
  {
    var a, b := Joined(root0, joined), Joined(root0, joined + {r});
    var parent' := parent[r - 1 := i];
    assert forall u :: 1 <= u <= i ==> At(parent', u) == if u == r then i else At(parent, u);
    assert forall v :: 1 <= v <= i ==> At(b, v) == if At(a, v) == r then i else At(a, v);
  }

  /** While a tree that is still to be linked is climbed, the links from `top` upwards are as they were. */
  ghost predicate Untouched(i: nat, anc0: seq<nat>, cur: seq<nat>, root: seq<nat>, hole: nat, top: nat) {
    && 1 <= top < i && |root| == i <= |anc0| == |cur|
    && At(root, top) == hole
    && forall v :: top <= v <= i ==> At(cur, v) == At(anc0, v)
  }

  lemma UntouchedStep(i: nat, anc0: seq<nat>, cur: seq<nat>, root: seq<nat>, hole: nat, top: nat)
    requires Untouched(i, anc0, cur, root, hole, top) && At(cur, top) > 0
    requires Ancestors(i, anc0, root, 0) && hole < i && At(root, i) == i
    ensures top < At(cur, top) < i && Untouched(i, anc0, cur[top - 1 := i], root, hole, At(cur, top))
  {
    PathStays(i, anc0, root, top);
    var cur' := cur[top - 1 := i];
    assert forall u :: 1 <= u <= i ==> At(cur', u) == if u == top then i else At(cur, u);
  }

  lemma ClimbStep(i: nat, cur: seq<nat>, root': seq<nat>, hole: nat, top: nat)
    requires Ancestors(i, cur, root', hole) && 1 <= top < i && At(root', top) == i == At(root', i) && At(cur, top) > 0
    ensures top < At(cur, top) <= i && At(root', At(cur, top)) == i
    ensures Ancestors(i, cur[top - 1 := i], root', hole)
  {
    CompressStep(i, cur, root', hole, top);
  }

  /** In a tree that is still to be linked, the path from a vertex never meets i and stays in the tree. */
  lemma PathStays(i: nat, anc: seq<nat>, root: seq<nat>, v: nat)
    requires Ancestors(i, anc, root, 0) && 1 <= v < i && At(root, v) < i && At(root, i) == i && At(anc, v) > 0
    ensures v < At(anc, v) < i && At(root, At(anc, v)) == At(root, v)
  {
  }

  /** The climb from an entry of column i, with compression of the path.  `hole` is the root of the tree
      that the entry belongs to, 0 when that tree already hangs below i: then the climb breaks off. */
  method Climb(ancstr: array<nat>, i: nat, start: nat, ghost root: seq<nat>, ghost root': seq<nat>, ghost hole: nat)
    returns (top: nat, broken: bool)
    requires i <= ancstr.Length && 1 <= start < i
    requires Ancestors(i, ancstr[..], root', hole) && At(root', start) == i == At(root', i)
    requires hole != 0 ==> Ancestors(i, ancstr[..], root, 0) && At(root, start) == hole < i && At(root, i) == i
    requires hole != 0 ==> forall v :: 1 <= v < i && At(root, v) == hole ==> At(root', v) == i
    modifies ancstr
    ensures Ancestors(i, ancstr[..], root', hole)
    ensures broken <==> hole == 0
    ensures !broken ==> top == hole
  {
    top := start;
    broken := false;
    ghost var anc0: seq<nat> := ancstr[..];
    ghost var cur: seq<nat> := anc0;
    if ancstr[top - 1] == i {
      assert At(anc0, top) == i;
      broken := true;
    } else {
      while ancstr[top - 1] > 0
        invariant 1 <= top < i && !broken && cur == ancstr[..]
        invariant Ancestors(i, cur, root', hole) && At(root', top) == i
        invariant hole != 0 ==> Untouched(i, anc0, cur, root, hole, top)
        decreases i - top
      {
        assert At(cur, top) == ancstr[top - 1];
        ClimbStep(i, cur, root', hole, top);
        if hole != 0 {
          UntouchedStep(i, anc0, cur, root, hole, top);
        }
        if ancstr[top - 1] == i {
          broken := true;
          break;
        }
        var next := ancstr[top - 1];
        ancstr[top - 1] := i;
        cur := cur[top - 1 := i];
        top := next;
      }
      if !broken {
        assert At(cur, top) == 0;
      }
    }
  }

  /** The root of the tree of an entry, 0 when that tree already hangs below i. */
  ghost function Hole(root0: seq<nat>, joined: set<nat>, start: nat): nat
    requires 1 <= start <= |root0|
  {
    if At(root0, start) in joined then 0 else At(root0, start)
  }

  ghost function JoinedWith(root0: seq<nat>, joined: set<nat>, start: nat): set<nat>
    requires 1 <= start <= |root0|
  {
    joined + {At(root0, start)}
  }

  lemma PrepareClimb(i: nat, start: nat, anc: seq<nat>, root0: seq<nat>, joined: set<nat>)
    requires 1 <= start < i && |root0| == i - 1 && Ancestors(i, anc, Joined(root0, joined), 0)
    requires 1 <= At(root0, start) < i && At(root0, At(root0, start)) == At(root0, start)
    ensures Ancestors(i, anc, Joined(root0, JoinedWith(root0, joined, start)), Hole(root0, joined, start))
  {
    if Hole(root0, joined, start) == 0 {
      assert JoinedWith(root0, joined, start) == joined;
    } else {
      JoinAncestors(i, anc, root0, joined, At(root0, start));
    }
  }

  lemma PrepareParents(i: nat, start: nat, parent: seq<nat>, root0: seq<nat>, joined: set<nat>, tree: seq<nat>)
    requires |root0| == i - 1 && 1 <= start < i && Parents(i, parent, Joined(root0, joined), tree)
    requires var r := At(root0, start); 1 <= r < i && At(root0, r) == r && At(tree, r) == i
    ensures var hole := Hole(root0, joined, start);
            hole < i && Parents(i, if hole == 0 then parent else parent[hole - 1 := i],
                                Joined(root0, JoinedWith(root0, joined, start)), tree)
  {
    if Hole(root0, joined, start) == 0 {
      assert JoinedWith(root0, joined, start) == joined;
    } else {
      JoinParents(i, parent, root0, joined, At(root0, start), tree);
    }
  }

  lemma RootsOneMore(root0: seq<nat>, seen: set<nat>, start: nat)
    requires 1 <= start <= |root0|
    ensures RootsOf(root0, seen + {start}) == JoinedWith(root0, RootsOf(root0, seen), start)
  {
    forall r
      ensures r in RootsOf(root0, seen + {start}) <==> r in JoinedWith(root0, RootsOf(root0, seen), start)
    {
    }
  }

  /** One entry of column i, on the labels before and after it: find the root of its tree and make i its
      parent, unless it is i already. */
  method LinkRoot(parent: array<nat>, ancstr: array<nat>, i: nat, start: nat,
                  ghost root0: seq<nat>, ghost joined: set<nat>, ghost tree: seq<nat>)
    requires parent.Length == ancstr.Length == |tree| && parent != ancstr && 1 <= start < i <= |tree| && |root0| == i - 1
    requires var r := At(root0, start); 1 <= r < i && At(root0, r) == r && At(tree, r) == i
    requires Ancestors(i, ancstr[..], Joined(root0, joined), 0) && Parents(i, parent[..], Joined(root0, joined), tree)
    modifies parent, ancstr
    ensures Ancestors(i, ancstr[..], Joined(root0, JoinedWith(root0, joined, start)), 0)
    ensures Parents(i, parent[..], Joined(root0, JoinedWith(root0, joined, start)), tree)
  {
    ghost var hole := Hole(root0, joined, start);
    ghost var joined' := JoinedWith(root0, joined, start);
    ghost var p0: seq<nat> := parent[..];
    PrepareParents(i, start, p0, root0, joined, tree);
    PrepareClimb(i, start, ancstr[..], root0, joined);
    var nbr, broken := Climb(ancstr, i, start, Joined(root0, joined), Joined(root0, joined'), hole);
    if !broken {
      ghost var a0: seq<nat> := ancstr[..];
      parent[nbr - 1] := i;
      LinkStep(i, a0, Joined(root0, joined'), hole);
      ancstr[nbr - 1] := i;
      assert ancstr[..] == a0[nbr - 1 := i];
      assert parent[..] == p0[nbr - 1 := i];
    } else {
      assert parent[..] == p0;
    }
  }

  /** One entry of column i. */
  method LinkNeighbour(parent: array<nat>, ancstr: array<nat>, i: nat, start: nat,
                       ghost adj: Adj, ghost n: nat, ghost seen: set<nat>)
    requires parent.Length == ancstr.Length == n && parent != ancstr && 1 <= start < i <= n
    requires Symmetric(adj) && adj(start, i)
    requires Ancestors(i, ancstr[..], Partial(adj, i, seen), 0) && Parents(i, parent[..], Partial(adj, i, seen), Tree(adj, n))
    modifies parent, ancstr
    ensures Ancestors(i, ancstr[..], Partial(adj, i, seen + {start}), 0)
    ensures Parents(i, parent[..], Partial(adj, i, seen + {start}), Tree(adj, n))
  {
    NeighbourRoot(adj, n, i, start);
    RootsOneMore(LabelSeq(adj, i - 1), seen, start);
    LinkRoot(parent, ancstr, i, start, LabelSeq(adj, i - 1), RootsOf(LabelSeq(adj, i - 1), seen), Tree(adj, n));
  }

  // ---------------------------------------------------------------------------------------------
  // Columns
  // ---------------------------------------------------------------------------------------------

  lemma StartAncestors(i: nat, anc: seq<nat>, root0: seq<nat>)
    requires 1 <= i <= |anc| && Ancestors(i - 1, anc, root0, 0)
    ensures Ancestors(i, anc[i - 1 := 0], Joined(root0, {}), 0)
  {
    var anc', root := anc[i - 1 := 0], Joined(root0, {});
    forall v | 1 <= v <= i
      ensures 1 <= At(root, v) <= i
      ensures At(anc', v) == 0 <==> At(root, v) == v
      ensures At(anc', v) > 0 ==> v < At(anc', v) <= i && At(root, At(anc', v)) == At(root, v)
    {
      StartAncestor(i, anc, root0, v);
    }
  }

  lemma StartAncestor(i: nat, anc: seq<nat>, root0: seq<nat>, v: nat)
    requires 1 <= v <= i <= |anc| && Ancestors(i - 1, anc, root0, 0)
    ensures var anc', root := anc[i - 1 := 0], Joined(root0, {});
            && 1 <= At(root, v) <= i && (At(anc', v) == 0 <==> At(root, v) == v)
            && (At(anc', v) > 0 ==> v < At(anc', v) <= i && At(root, At(anc', v)) == At(root, v))
  {
    if v < i {
      assert At(anc[i - 1 := 0], v) == At(anc, v);
      assert At(Joined(root0, {}), v) == At(root0, v);
    }
  }

  lemma StartParents(i: nat, parent: seq<nat>, root0: seq<nat>, tree: seq<nat>)
    requires 1 <= i <= |parent| && Parents(i - 1, parent, root0, tree)
    ensures Parents(i, parent[i - 1 := 0], Joined(root0, {}), tree)
  {
    var parent', root := parent[i - 1 := 0], Joined(root0, {});
    assert forall v :: 1 <= v <= i ==> At(root, v) == if v == i then i else At(root0, v);
    assert forall v :: 1 <= v <= i ==> At(parent', v) == if v == i then 0 else At(parent, v);
  }

  /** Opening column i makes i a tree of its own. */
  lemma StartColumn(adj: Adj, n: nat, i: nat, parent: seq<nat>, anc: seq<nat>)
    requires 1 <= i <= n && Stage(adj, n, i - 1, parent, anc)
    ensures Ancestors(i, anc[i - 1 := 0], Partial(adj, i, {}), 0)
    ensures Parents(i, parent[i - 1 := 0], Partial(adj, i, {}), Tree(adj, n))
  {
    assert RootsOf(LabelSeq(adj, i - 1), {}) == {};
    StartAncestors(i, anc, LabelSeq(adj, i - 1));
    StartParents(i, parent, LabelSeq(adj, i - 1), Tree(adj, n));
  }

  /** With all entries of column i seen, the labels are those of the subgraph on 1..i. */
  lemma FinishColumn(adj: Adj, i: nat, seen: set<nat>)
    requires i >= 1 && forall w :: w in seen <==> 1 <= w < i && adj(w, i)
    ensures Partial(adj, i, seen) == LabelSeq(adj, i)
  {
    assert seen == Below(adj, i);
  }

  /** The entries of column i that are used, among the first `j`. */
  ghost function UsedEntries(column: seq<nat>, i: nat, j: nat): set<nat>
    requires j <= |column|
  {
    set k | k in column[..j] && k < i
  }

  lemma UsedOneMore(column: seq<nat>, i: nat, j: nat)
    requires j < |column|
    ensures UsedEntries(column, i, j + 1) == UsedEntries(column, i, j) + (if column[j] < i then {column[j]} else {})
  {
    assert column[..j + 1] == column[..j] + [column[j]];
  }

  /** The entries of column i, one after the other. */
  method ProcessEntries(parent: array<nat>, ancstr: array<nat>, column: seq<nat>, i: nat, ghost adj: Adj, ghost n: nat)
    requires parent.Length == ancstr.Length == n && parent != ancstr && 1 <= i <= n && Symmetric(adj)
    requires forall k <- column :: 1 <= k && (k < i ==> adj(k, i))
    requires Ancestors(i, ancstr[..], Partial(adj, i, {}), 0) && Parents(i, parent[..], Partial(adj, i, {}), Tree(adj, n))
    modifies parent, ancstr
    ensures Ancestors(i, ancstr[..], Partial(adj, i, UsedEntries(column, i, |column|)), 0)
    ensures Parents(i, parent[..], Partial(adj, i, UsedEntries(column, i, |column|)), Tree(adj, n))
  {
    assert UsedEntries(column, i, 0) == {};
    for j := 0 to |column|
      invariant Ancestors(i, ancstr[..], Partial(adj, i, UsedEntries(column, i, j)), 0)
      invariant Parents(i, parent[..], Partial(adj, i, UsedEntries(column, i, j)), Tree(adj, n))
    {
      var nbr := column[j];
      assert nbr in column;
      UsedOneMore(column, i, j);
      if nbr < i {
        LinkNeighbour(parent, ancstr, i, nbr, adj, n, UsedEntries(column, i, j));
      } else {
        assert UsedEntries(column, i, j + 1) == UsedEntries(column, i, j);
      }
    }
  }

  lemma ColumnSeen(cols: Columns, n: nat, i: nat)
    requires 1 <= i <= n && ValidColumns(cols, n)
    ensures Symmetric(Seen(cols))
    ensures |cols(i)| > 1 ==> forall k <- cols(i) :: 1 <= k && (k < i ==> Seen(cols)(k, i))
    ensures forall w: nat :: (w in UsedEntries(cols(i), i, |cols(i)|) && |cols(i)| > 1) <==> 1 <= w < i && Seen(cols)(w, i)
  {
    assert cols(i)[..|cols(i)|] == cols(i);
  }

  /** One column: both versions of ConstructETree run this body. */
  method ProcessColumn(parent: array<nat>, ancstr: array<nat>, cols: Columns, i: nat, ghost n: nat)
    requires parent.Length == ancstr.Length == n && parent != ancstr && 1 <= i <= n && ValidColumns(cols, n)
    requires Stage(Seen(cols), n, i - 1, parent[..], ancstr[..])
    modifies parent, ancstr
    ensures Stage(Seen(cols), n, i, parent[..], ancstr[..])
  {
    ghost var adj := Seen(cols);
    ghost var p0: seq<nat>, a0: seq<nat> := parent[..], ancstr[..];
    StartColumn(adj, n, i, p0, a0);
    ColumnSeen(cols, n, i);
    parent[i - 1] := 0;
    ancstr[i - 1] := 0;
    assert parent[..] == p0[i - 1 := 0];
    assert ancstr[..] == a0[i - 1 := 0];
    ghost var seen := {};
    if |cols(i)| > 1 {
      ProcessEntries(parent, ancstr, cols(i), i, adj, n);
      seen := UsedEntries(cols(i), i, |cols(i)|);
    }
    FinishColumn(adj, i, seen);
  }

  /** Columns lo..hi-1, on arrays that hold the state after column lo-1. */
  method ProcessColumns(parent: array<nat>, ancstr: array<nat>, cols: Columns, lo: nat, hi: nat, ghost n: nat)
    requires parent.Length == ancstr.Length == n && parent != ancstr && 1 <= lo <= hi <= n + 1 && ValidColumns(cols, n)
    requires Stage(Seen(cols), n, lo - 1, parent[..], ancstr[..])
    modifies parent, ancstr
    ensures Stage(Seen(cols), n, hi - 1, parent[..], ancstr[..])
  {
    for i := lo to hi
      invariant Stage(Seen(cols), n, i - 1, parent[..], ancstr[..])
    {
      ProcessColumn(parent, ancstr, cols, i, n);
    }
  }

  lemma LastParent(adj: Adj, n: nat, parent: seq<nat>, v: nat)
    requires Symmetric(adj) && 1 <= v <= n == |parent|
    requires At(parent, v) == if At(LabelSeq(adj, n), v) == v then 0 else At(Tree(adj, n), v)
    ensures At(parent, v) == At(Tree(adj, n), v)
  {
    if At(LabelSeq(adj, n), v) == v {
      LastRoot(adj, n, v);
    }
  }

  lemma LastParents(adj: Adj, n: nat, parent: seq<nat>)
    requires Symmetric(adj) && |parent| == n && Parents(n, parent, LabelSeq(adj, n), Tree(adj, n))
    ensures parent == Tree(adj, n)
  {
    forall k | 0 <= k < n
      ensures parent[k] == Tree(adj, n)[k]
    {
      LastParent(adj, n, parent, k + 1);
    }
  }

  /** After the last column the parents are the elimination tree. */
  lemma LastStage(cols: Columns, n: nat, parent: seq<nat>, anc: seq<nat>)
    requires Stage(Seen(cols), n, n, parent, anc)
    ensures IsETree(Seen(cols), n, parent)
  {
    LastParents(Seen(cols), n, parent);
    TreeIsETree(Seen(cols), n);
  }

  lemma FirstStage(adj: Adj, n: nat, parent: seq<nat>, anc: seq<nat>)
    requires |parent| == |anc| == n
    ensures Stage(adj, n, 0, parent, anc)
  {
  }

  // ---------------------------------------------------------------------------------------------
  // One rank does all columns of a graph that it looks at through an ordering
  // ---------------------------------------------------------------------------------------------

  datatype Option<T> = None | Some(value: T)

  /** Compressed columns, with 1-based pointers and row numbers. */
  datatype Csc = Csc(n: nat, colptr: seq<nat>, rowind: seq<nat>, expanded: bool)
  {
    ghost predicate Valid() {
      && |colptr| == n + 1
      && (forall i, j :: 0 <= i <= j <= n ==> 1 <= colptr[i] <= colptr[j] <= |rowind| + 1)
      && (forall k :: 0 <= k < |rowind| ==> 1 <= rowind[k] <= n)
    }

    function Column(v: nat): (c: seq<nat>)
      requires Valid() && 1 <= v <= n
      ensures forall k :: 0 <= k < |c| ==> 1 <= c[k] <= n
    {
      rowind[colptr[v - 1] - 1..colptr[v] - 1]
    }
  }

  /** The columns of the graph under an ordering. */
  function Permuted(g: Csc, perm: seq<nat>, invp: seq<nat>): Columns
    requires g.Valid() && |perm| == |invp| == g.n && forall k :: 0 <= k < g.n ==> 1 <= perm[k] <= g.n
  {
    (i: nat) => if 1 <= i <= g.n then Then(g.Column(perm[i - 1]), invp) else []
  }

  lemma PermutedValid(g: Csc, perm: seq<nat>, invp: seq<nat>)
    requires g.Valid() && Inverse(invp, perm) && |invp| == g.n
    ensures forall k :: 0 <= k < g.n ==> 1 <= perm[k] <= g.n
    ensures ValidColumns(Permuted(g, perm, invp), g.n)
  {
    InRange(invp, perm);
    var cols := Permuted(g, perm, invp);
    forall i, k | 1 <= i <= g.n && k in cols(i)
      ensures 1 <= k <= g.n
    {
      var m :| 0 <= m < |cols(i)| && cols(i)[m] == k;
      assert k == invp[g.Column(perm[i - 1])[m] - 1];
    }
  }

  /** The version for a graph held by one rank; it refuses a graph that is not expanded. */
  method ConstructETree(g: Csc, order: Order) returns (r: Option<array<nat>>)
    requires g.Valid() && order.Valid() && order.invp.Length == g.n
    ensures r.None? <==> !g.expanded
    ensures forall k :: 0 <= k < g.n ==> 1 <= order.perm[k] <= g.n
    ensures r.Some? ==> fresh(r.value) && IsETree(Seen(Permuted(g, order.perm[..], order.invp[..])), g.n, r.value[..])
  {
    PermutedValid(g, order.perm[..], order.invp[..]);
    if !g.expanded {
      return None;
    }
    var cols, n := Permuted(g, order.perm[..], order.invp[..]), g.n;
    var parent := new nat[n](_ => 0);
    var ancstr := new nat[n](_ => 0);
    FirstStage(Seen(cols), n, parent[..], ancstr[..]);
    ProcessColumns(parent, ancstr, cols, 1, n + 1, n);
    LastStage(cols, n, parent[..], ancstr[..]);
    r := Some(parent);
  }

  // ---------------------------------------------------------------------------------------------
  // The version for a distributed graph, permuted already
  // ---------------------------------------------------------------------------------------------

  ghost predicate VertexDist(dist: seq<nat>, n: nat) {
    && |dist| >= 2 && dist[0] == 1 && dist[|dist| - 1] == n + 1
    && forall p, q :: 0 <= p <= q < |dist| ==> dist[p] <= dist[q]
  }

  /** The message from one rank to the next. */
  method Receive(sent: array<nat>) returns (received: array<nat>)
    ensures fresh(received) && received.Length == sent.Length && received[..] == sent[..]
  {
    received := new nat[sent.Length](k requires 0 <= k < sent.Length reads sent => sent[k]);
  }

  /** One rank: receive the two arrays from the previous rank, then process the local columns. */
  method RankColumns(sentParent: array<nat>, sentAncstr: array<nat>, cols: Columns, lo: nat, hi: nat, ghost n: nat)
    returns (parent: array<nat>, ancstr: array<nat>)
    requires sentParent.Length == sentAncstr.Length == n && 1 <= lo <= hi <= n + 1 && ValidColumns(cols, n)
    requires Stage(Seen(cols), n, lo - 1, sentParent[..], sentAncstr[..])
    ensures fresh(parent) && fresh(ancstr) && parent != ancstr && parent.Length == ancstr.Length == n
    ensures Stage(Seen(cols), n, hi - 1, parent[..], ancstr[..])
  {
    parent := Receive(sentParent);
    ancstr := Receive(sentAncstr);
    ProcessColumns(parent, ancstr, cols, lo, hi, n);
  }

  /** Ranks p, p+1, ... in turn, each on the arrays of its predecessor and on its own columns
      dist[p]..dist[p+1]-1; the last rank broadcasts the parents. */
  method RunRanks(sentParent: array<nat>, sentAncstr: array<nat>, cols: Columns, n: nat, dist: seq<nat>, p: nat)
    returns (parent: array<nat>)
    requires ValidColumns(cols, n) && VertexDist(dist, n) && p < |dist| && 1 <= dist[p]
    requires sentParent.Length == sentAncstr.Length == n
    requires Stage(Seen(cols), n, dist[p] - 1, sentParent[..], sentAncstr[..])
    ensures IsETree(Seen(cols), n, parent[..])
    decreases |dist| - p
  {
    if p + 1 == |dist| {
      parent := sentParent;
      LastStage(cols, n, parent[..], sentAncstr[..]);
    } else {
      var mine, ancstr := RankColumns(sentParent, sentAncstr, cols, dist[p], dist[p + 1], n);
      parent := RunRanks(mine, ancstr, cols, n, dist, p + 1);
    }
  }

  /** The version for a distributed graph. */
  method ConstructETreeDistributed(cols: Columns, n: nat, dist: seq<nat>) returns (parent: array<nat>)
    requires ValidColumns(cols, n) && VertexDist(dist, n)
    ensures IsETree(Seen(cols), n, parent[..])
  {
    var first := new nat[n](_ => 0);
    var ancstr := new nat[n](_ => 0);
    FirstStage(Seen(cols), n, first[..], ancstr[..]);
    parent := RunRanks(first, ancstr, cols, n, dist, 0);
  }

  // ---------------------------------------------------------------------------------------------
  // Columns with a single entry
  // ---------------------------------------------------------------------------------------------

  /** The graph with all entries above the diagonal. */
  ghost function Full(cols: Columns): Adj {
    (u: nat, v: nat) => (u < v && u in cols(v)) || (v < u && v in cols(u))
  }

  /** A column whose only entry is above the diagonal: the test on the column pointers skips it. */
  ghost predicate Skipped(cols: Columns, i: nat) { |cols(i)| == 1 && cols(i)[0] < i }

  lemma FullSymmetric(cols: Columns)
    ensures Symmetric(Full(cols)) && Symmetric(Seen(cols))
  {
  }

  lemma NoneSkipped(cols: Columns, n: nat)
    requires forall i :: 1 <= i <= n ==> !Skipped(cols, i)
    ensures Agree(Seen(cols), Full(cols), n)
  {
    forall u, v | 1 <= u <= n && 1 <= v <= n
      ensures Seen(cols)(u, v) == Full(cols)(u, v)
    {
      assert !Skipped(cols, u) && !Skipped(cols, v);
    }
  }

  /** A skipped column becomes the parent of no vertex, although it should. */
  lemma SkippedDiffers(cols: Columns, n: nat, i: nat)
    requires ValidColumns(cols, n) && 1 <= i <= n && Skipped(cols, i)
    ensures Tree(Seen(cols), n) != Tree(Full(cols), n)
  {
    var k := cols(i)[0];
    assert k in cols(i);
    FullSymmetric(cols);
    NeighbourRoot(Full(cols), n, i, k);
    var r := At(LabelSeq(Full(cols), i - 1), k);
    TreeIsETree(Seen(cols), n);
    assert IsParent(Seen(cols), n, r, At(Tree(Seen(cols), n), r));
    if Fill(Seen(cols), r, i) {
      var w :| Connected(Seen(cols), r, r, w) && Seen(cols)(w, i);
      ConnectedBounds(Seen(cols), r, r, w);
    }
  }

  /** What the algorithm builds is the elimination tree of the whole graph exactly when no column is skipped;
      storing every diagonal entry is enough. */
  lemma WholeGraph(cols: Columns, n: nat)
    requires ValidColumns(cols, n)
    ensures Tree(Seen(cols), n) == Tree(Full(cols), n) <==> forall i :: 1 <= i <= n ==> !Skipped(cols, i)
    ensures (forall i :: 1 <= i <= n ==> i in cols(i)) ==> Tree(Seen(cols), n) == Tree(Full(cols), n)
  {
    if forall i :: 1 <= i <= n ==> !Skipped(cols, i) {
      NoneSkipped(cols, n);
      TreeIsETree(Seen(cols), n);
      TreeIsETree(Full(cols), n);
      AgreeTree(Seen(cols), Full(cols), n, Tree(Seen(cols), n));
      ETreeUnique(Full(cols), n, Tree(Seen(cols), n), Tree(Full(cols), n));
    } else {
      var i :| 1 <= i <= n && Skipped(cols, i);
      SkippedDiffers(cols, n, i);
      assert i !in cols(i);
    }
  }
}
