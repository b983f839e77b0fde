/** Why two depth-first passes find the strongly connected components. */
module Scc {
  import opened Digraphs
  import opened DfsModel
  import opened Forests

  // Reordering by decreasing finish time

  /** Where the insertion loop of DFS puts v: after the last vertex of L that does
      not finish before v. */
  function InsertByFinish(finish: seq<int>, L: seq<int>, v: int): (r: seq<int>)
    requires 0 <= v < |finish| && forall i :: 0 <= i < |L| ==> 0 <= L[i] < |finish|
    ensures forall i :: 0 <= i < |r| ==> 0 <= r[i] < |finish|
  {
    if L == [] then [v]
    else if finish[L[|L| - 1]] < finish[v] then InsertByFinish(finish, L[..|L| - 1], v) + [L[|L| - 1]]
    else L + [v]
  }

  /** The list L that DFS builds from S. */
  ghost function SortByFinish(finish: seq<int>, S: seq<int>): (r: seq<int>)
    requires forall i :: 0 <= i < |S| ==> 0 <= S[i] < |finish|
    ensures forall i :: 0 <= i < |r| ==> 0 <= r[i] < |finish|
  {
    if S == [] then [] else InsertByFinish(finish, SortByFinish(finish, S[..|S| - 1]), S[|S| - 1])
  }

  lemma {:induction false} InsertAddsOne(finish: seq<int>, L: seq<int>, v: int)
    requires 0 <= v < |finish| && forall i :: 0 <= i < |L| ==> 0 <= L[i] < |finish|
    ensures multiset(InsertByFinish(finish, L, v)) == multiset(L) + multiset{v}
  {
    if L != [] {
      assert L == L[..|L| - 1] + [L[|L| - 1]];
      InsertAddsOne(finish, L[..|L| - 1], v);
    }
  }

  lemma {:induction false} SortPermutes(finish: seq<int>, S: seq<int>)
    requires forall i :: 0 <= i < |S| ==> 0 <= S[i] < |finish|
    ensures multiset(SortByFinish(finish, S)) == multiset(S)
  {
    if S != [] {
      assert S == S[..|S| - 1] + [S[|S| - 1]];
      SortPermutes(finish, S[..|S| - 1]);
      InsertAddsOne(finish, SortByFinish(finish, S[..|S| - 1]), S[|S| - 1]);
    }
  }

  lemma SortKeepsVertices(finish: seq<int>, S: seq<int>, v: int)
    requires forall i :: 0 <= i < |S| ==> 0 <= S[i] < |finish|
    ensures v in SortByFinish(finish, S) <==> v in S
  {
    SortPermutes(finish, S);
    assert v in SortByFinish(finish, S) <==> v in multiset(SortByFinish(finish, S));
    assert v in S <==> v in multiset(S);
  }

  lemma {:induction false} InsertLength(finish: seq<int>, L: seq<int>, v: int)
    requires 0 <= v < |finish| && forall i :: 0 <= i < |L| ==> 0 <= L[i] < |finish|
    ensures |InsertByFinish(finish, L, v)| == |L| + 1
  {
    if L != [] {
      InsertLength(finish, L[..|L| - 1], v);
    }
  }

  lemma {:induction false} SortLength(finish: seq<int>, S: seq<int>)
    requires forall i :: 0 <= i < |S| ==> 0 <= S[i] < |finish|
    ensures |SortByFinish(finish, S)| == |S|
  {
    if S != [] {
      SortLength(finish, S[..|S| - 1]);
      InsertLength(finish, SortByFinish(finish, S[..|S| - 1]), S[|S| - 1]);
    }
  }

  lemma SortStaysInGraph(g: Adjacency, finish: seq<int>, S: seq<int>)
    requires |finish| == |g| && forall i :: 0 <= i < |S| ==> 0 <= S[i] < |finish| && Vertex(g, S[i])
    ensures |SortByFinish(finish, S)| == |S|
    ensures forall i :: 0 <= i < |S| ==> Vertex(g, SortByFinish(finish, S)[i])
  {
    SortLength(finish, S);
    forall i | 0 <= i < |S| ensures Vertex(g, SortByFinish(finish, S)[i]) {
      SortKeepsVertices(finish, S, SortByFinish(finish, S)[i]);
    }
  }

  ghost predicate Decreasing(finish: seq<int>, L: seq<int>) {
    && (forall i :: 0 <= i < |L| ==> 0 <= L[i] < |finish|)
    && forall i, j :: 0 <= i < j < |L| ==> finish[L[i]] > finish[L[j]]
  }

  lemma AppendDecreasing(finish: seq<int>, L: seq<int>, v: int)
    requires Decreasing(finish, L) && 0 <= v < |finish|
    requires forall x <- L :: finish[v] < finish[x]
    ensures Decreasing(finish, L + [v])
  {
  }

  lemma PrefixDecreasing(finish: seq<int>, L: seq<int>)
    requires Decreasing(finish, L) && L != []
    ensures Decreasing(finish, L[..|L| - 1])
    ensures forall i :: 0 <= i < |L| - 1 ==> finish[L[i]] > finish[L[|L| - 1]]
  {
  }

  lemma {:induction false} InsertDecreasing(finish: seq<int>, L: seq<int>, v: int)
    requires 0 <= v < |finish| && Decreasing(finish, L)
    requires forall i :: 0 <= i < |L| ==> finish[L[i]] != finish[v]
    ensures Decreasing(finish, InsertByFinish(finish, L, v))
  {
    if L != [] {
      PrefixDecreasing(finish, L);
      var K, last := L[..|L| - 1], L[|L| - 1];
      if finish[last] < finish[v] {
        InsertDecreasing(finish, K, v);
        InsertedAbove(finish, K, v, finish[last]);
        AppendDecreasing(finish, InsertByFinish(finish, K, v), last);
      } else {
        AppendDecreasing(finish, L, v);
      }
    }
  }

  /** Inserting a vertex that finishes after time m into vertices that do gives
      vertices that do. */
  lemma {:induction false} InsertedAbove(finish: seq<int>, L: seq<int>, v: int, m: int)
    requires 0 <= v < |finish| && m < finish[v]
    requires forall i :: 0 <= i < |L| ==> 0 <= L[i] < |finish| && m < finish[L[i]]
    ensures forall x <- InsertByFinish(finish, L, v) :: 0 <= x < |finish| && m < finish[x]
  {
    if L != [] && finish[L[|L| - 1]] < finish[v] {
      InsertedAbove(finish, L[..|L| - 1], v, m);
    }
  }

  lemma {:induction false} SortDecreasing(finish: seq<int>, S: seq<int>)
    requires forall i :: 0 <= i < |S| ==> 0 <= S[i] < |finish|
    requires forall i, j :: 0 <= i < j < |S| ==> finish[S[i]] != finish[S[j]]
    ensures Decreasing(finish, SortByFinish(finish, S))
  {
    if S != [] {
      var K := S[..|S| - 1];
      SortDecreasing(finish, K);
      var L := SortByFinish(finish, K);
      forall i | 0 <= i < |L| ensures finish[L[i]] != finish[S[|S| - 1]] {
        SortKeepsVertices(finish, K, L[i]);
      }
      InsertDecreasing(finish, L, S[|S| - 1]);
    }
  }

  /** DFS leaves S a permutation of itself in strictly decreasing finish order. */
  lemma SortIsOrder(g: Adjacency, f: State, S: seq<int>)
    requires Forest(g, f) && IsOrder(g, S)
    ensures Decreasing(f.finish, SortByFinish(f.finish, S))
    ensures IsOrder(g, SortByFinish(f.finish, S))
  {
    DistinctFinish(g, f, S);
    SortDecreasing(f.finish, S);
    var r := SortByFinish(f.finish, S);
    forall i | 0 <= i < |r| ensures Vertex(g, r[i]) {
      SortKeepsVertices(f.finish, S, r[i]);
    }
    forall v | Vertex(g, v) ensures v in r {
      SortKeepsVertices(f.finish, S, v);
    }
  }

  lemma DistinctFinish(g: Adjacency, f: State, S: seq<int>)
    requires Forest(g, f) && IsOrder(g, S)
    ensures forall i :: 0 <= i < |S| ==> 0 <= S[i] < |f.finish|
    ensures forall i, j :: 0 <= i < j < |S| ==> f.finish[S[i]] != f.finish[S[j]]
  {
  }

  // Cutting the final order at the roots

  /** comps are the blocks of S, taken from the back, that start at roots and hold
      no other; b[k] is where block k ends and b[k+1] where it starts. */
  ghost predicate CutAtRoots(S: seq<int>, parent: seq<int>, comps: seq<seq<int>>, b: seq<nat>) {
    && |b| == |comps| + 1 && b[0] == |S|
    && (forall i :: 0 <= i < |S| ==> 0 <= S[i] < |parent|)
    && (forall k {:trigger comps[k]} :: 0 <= k < |comps| ==> IsBlock(S, parent, comps[k], b[k + 1], b[k]))
  }

  /** S[lo..hi] starts at a root and holds no other. */
  ghost predicate IsBlock(S: seq<int>, parent: seq<int>, comp: seq<int>, lo: nat, hi: nat)
    requires forall i :: 0 <= i < |S| ==> 0 <= S[i] < |parent|
  {
    && lo < hi <= |S| && comp == S[lo..hi]
    && parent[S[lo]] == NIL
    && forall i {:trigger parent[S[i]]} :: lo < i < hi ==> parent[S[i]] != NIL
  }

  /** The strongly connected components of g, each once, in an order in which
      every arc between two of them leads from a lower to a higher number. */
  ghost predicate IsSccList(g: Adjacency, comps: seq<seq<int>>) {
    && (forall v :: Vertex(g, v) ==> exists k, i :: 0 <= k < |comps| && 0 <= i < |comps[k]| && comps[k][i] == v)
    && (forall k, i :: 0 <= k < |comps| && 0 <= i < |comps[k]| ==> Vertex(g, comps[k][i]))
    && (forall k, l, i, j :: 0 <= k < |comps| && 0 <= l < |comps| && 0 <= i < |comps[k]| && 0 <= j < |comps[l]| ==>
          PairOk(g, comps, k, l, i, j))
    && (forall k :: 0 <= k < |comps| ==> comps[k] != [])
  }

  /** Two positions of the list: no vertex stands twice, a component is a class of
      mutual reachability, and arcs lead forward. */
  ghost predicate PairOk(g: Adjacency, comps: seq<seq<int>>, k: nat, l: nat, i: nat, j: nat)
    requires k < |comps| && i < |comps[k]| && l < |comps| && j < |comps[l]|
  {
    && (comps[k][i] == comps[l][j] ==> k == l && i == j)
    && (Mutual(g, comps[k][i], comps[l][j]) <==> k == l)
    && (Arc(g, comps[k][i], comps[l][j]) ==> k <= l)
  }

  /** The two passes: `first` on g, `second` on the reversed graph t, which takes
      the vertices in decreasing order S1 of the first finish times, and S2 in
      decreasing order of the second ones. */
  datatype Passes = Passes(g: Adjacency, first: State, S1: seq<int>, t: Adjacency, second: State, S2: seq<int>)

  ghost predicate FirstPass(r: Passes) {
    && Forest(r.g, r.first) && IsOrder(r.g, r.S1) && Decreasing(r.first.finish, r.S1)
    && Reversed(r.g, r.t) && Shaped(r.t, r.second) && RootsFollow(r.t, r.S1, r.second)
  }

  ghost predicate SecondPass(r: Passes) {
    Forest(r.t, r.second) && IsOrder(r.t, r.S2) && Decreasing(r.second.finish, r.S2)
  }

  lemma SameOrder(g: Adjacency, t: Adjacency, S: seq<int>)
    requires IsOrder(g, S) && |t| == |g|
    ensures IsOrder(t, S)
  {
    assert forall v :: Vertex(t, v) <==> Vertex(g, v);
  }

  /** r is what comes of searching r.g, from state s1 and with the vertices in order
      S0, and then r.t from state s2 with the vertices in the order that the first
      search leaves. */
  ghost predicate Searched(r: Passes, S0: seq<int>, s1: State, s2: State) {
    && WellFormed(r.g) && Shaped(r.g, s1) && IsOrder(r.g, S0) && WellFormed(r.t) && Shaped(r.t, s2)
    && r.first == Dfs(r.g, S0, s1) && r.S1 == SortByFinish(r.first.finish, S0)
    && IsOrder(r.t, r.S1) && r.second == Dfs(r.t, r.S1, s2) && r.S2 == SortByFinish(r.second.finish, r.S1)
  }

  /** What running DFS on g and then on its transpose gives. */
  lemma PassesDone(g: Adjacency, S0: seq<int>, s1: State, t: Adjacency, s2: State) returns (r: Passes)
    requires WellFormed(g) && Shaped(g, s1) && IsOrder(g, S0) && Reversed(g, t) && WellFormed(t) && Shaped(t, s2)
    ensures r.g == g && r.t == t && Searched(r, S0, s1, s2) && r.S1 == SortByFinish(Dfs(g, S0, s1).finish, S0)
    ensures IsOrder(t, r.S1) && r.second == Dfs(t, r.S1, s2) && r.S2 == SortByFinish(r.second.finish, r.S1)
    ensures FirstPass(r) && SecondPass(r)
  {
    var f1 := Dfs(g, S0, s1);
    DfsIsForest(g, S0, s1);
    SortIsOrder(g, f1, S0);
    var S1 := SortByFinish(f1.finish, S0);
    SameOrder(g, t, S1);
    var f2 := Dfs(t, S1, s2);
    DfsIsForest(t, S1, s2);
    SortIsOrder(t, f2, S1);
    r := Passes(g, f1, S1, t, f2, SortByFinish(f2.finish, S1));
  }

  // The order of finish between components

  lemma PathPrefix(g: Adjacency, p: seq<int>, a: int, b: int, k: nat)
    requires IsPath(g, p, a, b) && k < |p|
    ensures IsPath(g, p[..k + 1], a, p[k])
  {
    var q := p[..k + 1];
    forall i | 0 <= i < |q| - 1 ensures Arc(g, q[i], q[i + 1]) {
      assert Arc(g, p[i], p[i + 1]);
    }
  }

  /** What the last vertex of a component to finish reaches outside the component
      finishes before it. */
  lemma OutsideFinishesBefore(g: Adjacency, f: State, x: int, w: int)
    requires Forest(g, f) && Reach(g, x, w) && !Reach(g, w, x) && Vertex(g, x) && Vertex(g, w)
    requires forall z :: Vertex(g, z) && Mutual(g, x, z) ==> f.finish[z] <= f.finish[x]
    ensures f.finish[w] < f.finish[x]
  {
    var p :| IsPath(g, p, x, w);
    var k := PathEnclosed(g, f, p, x, w);
    var y := p[k];
    PathPrefix(g, p, x, w, k);
    ReachRefl(g, x);
    if Inside(f, x, y) {
      var q := TreePath(g, f, x, y);
      assert Mutual(g, x, y);
    }
  }

  /** An arc from one component to another: the last vertex of the first to finish
      does so after every vertex of the second. */
  lemma ArcOrdersComponents(g: Adjacency, f: State, u: int, v: int, x: int, w: int)
    requires Forest(g, f) && Arc(g, u, v) && !Mutual(g, u, v)
    requires Vertex(g, x) && Mutual(g, u, x) && Vertex(g, w) && Mutual(g, v, w)
    requires forall z :: Vertex(g, z) && Mutual(g, x, z) ==> f.finish[z] <= f.finish[x]
    ensures f.finish[w] < f.finish[x]
  {
    ReachArc(g, u, v);
    ReachTrans(g, x, u, v);
    ReachTrans(g, x, v, w);
    if Reach(g, w, x) {
      ReachTrans(g, v, w, x);
      ReachTrans(g, v, x, u);
    }
    OutsideFinishesBefore(g, f, x, w);
  }

  /** The vertex that finishes last is a root. */
  lemma LastFinishedIsRoot(r: Passes)
    requires SecondPass(r) && r.S2 != []
    ensures Vertex(r.t, r.S2[0]) && r.second.parent[r.S2[0]] == NIL
  {
    var q := RootExists(r.t, r.second, r.S2[0]);
    assert q in r.S2;
    var j :| 0 <= j < |r.S2| && r.S2[j] == q;
  }

  // A tree of the second pass is a component

  /** Everything in the second-pass tree of u finished before u in the first. */
  lemma TreeFinishesBefore(r: Passes, u: int, x: int)
    requires FirstPass(r) && IsRoot(r.t, r.second, u) && Vertex(r.t, x) && Inside(r.second, x, u)
    ensures r.first.finish[x] <= r.first.finish[u]
  {
    assert x in r.S1 && u in r.S1;
    var i :| 0 <= i < |r.S1| && r.S1[i] == x;
    var j :| 0 <= j < |r.S1| && r.S1[j] == u;
  }

  /** A tree of the second pass lies within one component. */
  lemma TreeIsMutual(r: Passes, u: int, v: int)
    requires FirstPass(r) && Forest(r.t, r.second)
    requires IsRoot(r.t, r.second, u) && Vertex(r.t, v) && Inside(r.second, v, u)
    ensures Mutual(r.g, v, u)
  {
    var p := TreePath(r.t, r.second, v, u);
    var q := Backwards(p);
    forall i | 0 <= i < |q| - 1 ensures Arc(r.g, q[i], q[i + 1]) {
      assert Arc(r.t, p[|p| - 2 - i], p[|p| - 2 - i + 1]);
    }
    assert IsPath(r.g, q, v, u);
    var k := PathEnclosed(r.g, r.first, q, v, u);
    assert q[k] == p[|p| - 1 - k];
    TreeFinishesBefore(r, u, q[k]);
    TreeFinishesBefore(r, u, v);
    var down := TreePath(r.g, r.first, v, u);
  }

  /** What reaches a root is discovered no earlier than the root. */
  lemma RootFirst(t: Adjacency, f: State, a: int, u: int)
    requires Forest(t, f) && IsRoot(t, f, u) && Reach(t, a, u)
    ensures f.discover[u] <= f.discover[a]
  {
    var p :| IsPath(t, p, a, u);
    var k := PathEnclosed(t, f, p, a, u);
  }

  /** A component has vertices of one tree only. */
  lemma MutualSameRoot(r: Passes, u: int, q: int, v: int, w: int)
    requires FirstPass(r) && Forest(r.t, r.second)
    requires IsRoot(r.t, r.second, u) && IsRoot(r.t, r.second, q) && Vertex(r.t, v) && Vertex(r.t, w)
    requires Inside(r.second, v, u) && Inside(r.second, w, q) && Mutual(r.g, v, w)
    ensures u == q
  {
    TreeIsMutual(r, u, v);
    TreeIsMutual(r, q, w);
    ReachTrans(r.g, u, v, w);
    ReachTrans(r.g, u, w, q);
    ReachTrans(r.g, q, w, v);
    ReachTrans(r.g, q, v, u);
    ReversedReachIff(r.g, r.t, q, u);
    ReversedReachIff(r.g, r.t, u, q);
    RootFirst(r.t, r.second, u, q);
    RootFirst(r.t, r.second, q, u);
  }

  // The blocks are the trees

  /** The nearest root at or before a position of S2 is the root of its tree. */
  lemma BlockInTree(r: Passes, lo: nat, i: nat, u: int, v: int)
    requires SecondPass(r) && lo <= i < |r.S2| && r.S2[lo] == u && r.S2[i] == v
    requires r.second.parent[u] == NIL && forall j {:trigger r.second.parent[r.S2[j]]} :: lo < j <= i ==> r.second.parent[r.S2[j]] != NIL
    ensures IsRoot(r.t, r.second, u) && Vertex(r.t, v) && Inside(r.second, v, u)
  {
    var q := RootExists(r.t, r.second, v);
    assert q in r.S2;
    var j :| 0 <= j < |r.S2| && r.S2[j] == q;
  }

  lemma {:induction false} BoundsFall(S: seq<int>, parent: seq<int>, comps: seq<seq<int>>, b: seq<nat>, k: nat, l: nat)
    requires CutAtRoots(S, parent, comps, b) && k < l < |b|
    ensures b[l] < b[k]
    decreases l
  {
    assert |comps[l - 1]| >= 0;
    if k < l - 1 {
      BoundsFall(S, parent, comps, b, k, l - 1);
    }
  }

  lemma {:induction false} BlockOf(S: seq<int>, parent: seq<int>, comps: seq<seq<int>>, b: seq<nat>, n: nat, i: nat) returns (k: nat)
    requires CutAtRoots(S, parent, comps, b) && n <= |comps| && b[n] <= i < |S|
    ensures k < n && b[k + 1] <= i < b[k]
    decreases n
  {
    if i < b[n - 1] {
      k := n - 1;
    } else {
      k := BlockOf(S, parent, comps, b, n - 1, i);
    }
  }

  lemma SameVertexSameBlock(S: seq<int>, parent: seq<int>, comps: seq<seq<int>>, b: seq<nat>, k: nat, l: nat, i: nat, j: nat)
    requires CutAtRoots(S, parent, comps, b) && Distinct(S)
    requires k < |comps| && i < |comps[k]| && l < |comps| && j < |comps[l]| && comps[k][i] == comps[l][j]
    ensures k == l && i == j
  {
    assert S[b[k + 1] + i] == S[b[l + 1] + j];
    if k + 1 < l {
      BoundsFall(S, parent, comps, b, k + 1, l);
    }
    if l + 1 < k {
      BoundsFall(S, parent, comps, b, l + 1, k);
    }
  }

  /** What cutting the second order at its roots gives. */
  ghost predicate Cut(r: Passes, comps: seq<seq<int>>, b: seq<nat>) {
    CutAtRoots(r.S2, r.second.parent, comps, b) && b[|comps|] == 0
  }

  lemma BlockAt(S: seq<int>, parent: seq<int>, comps: seq<seq<int>>, b: seq<nat>, k: nat, i: nat)
    requires CutAtRoots(S, parent, comps, b) && k < |comps| && i < |comps[k]|
    ensures comps[k] != [] && b[k + 1] < b[k] <= |S| && b[k + 1] + i < b[k]
    ensures comps[k][i] == S[b[k + 1] + i]
  {
  }

  /** Position i of block k: its vertex, and the root its tree has. */
  lemma InBlock(r: Passes, comps: seq<seq<int>>, b: seq<nat>, k: nat, i: nat)
    requires SecondPass(r) && Cut(r, comps, b) && k < |comps| && i < |comps[k]|
    ensures comps[k] != [] && b[k + 1] < b[k] <= |r.S2| && comps[k][0] == r.S2[b[k + 1]]
    ensures IsRoot(r.t, r.second, comps[k][0])
    ensures Vertex(r.t, comps[k][i]) && Inside(r.second, comps[k][i], comps[k][0])
  {
    BlockAt(r.S2, r.second.parent, comps, b, k, 0);
    BlockAt(r.S2, r.second.parent, comps, b, k, i);
    BlockInTree(r, b[k + 1], b[k + 1] + i, comps[k][0], comps[k][i]);
  }

  lemma MutualIffSameBlock(r: Passes, comps: seq<seq<int>>, b: seq<nat>, k: nat, l: nat, i: nat, j: nat)
    requires FirstPass(r) && SecondPass(r) && Cut(r, comps, b)
    requires k < |comps| && i < |comps[k]| && l < |comps| && j < |comps[l]|
    ensures Mutual(r.g, comps[k][i], comps[l][j]) <==> k == l
  {
    InBlock(r, comps, b, k, i);
    InBlock(r, comps, b, l, j);
    var v, w, u, q := comps[k][i], comps[l][j], comps[k][0], comps[l][0];
    TreeIsMutual(r, u, v);
    TreeIsMutual(r, q, w);
    if k == l {
      ReachTrans(r.g, v, u, w);
      ReachTrans(r.g, w, u, v);
    } else if Mutual(r.g, v, w) {
      MutualSameRoot(r, u, q, v, w);
      SameVertexSameBlock(r.S2, r.second.parent, comps, b, k, l, 0, 0);
    }
  }

  /** Of two different trees the one discovered later finishes later, so no arc
      of t leads into it from the earlier one. */
  lemma ArcsForward(r: Passes, comps: seq<seq<int>>, b: seq<nat>, k: nat, l: nat, i: nat, j: nat)
    requires Reversed(r.g, r.t) && SecondPass(r) && Cut(r, comps, b)
    requires k < |comps| && i < |comps[k]| && l < |comps| && j < |comps[l]|
    requires Arc(r.g, comps[k][i], comps[l][j])
    ensures k <= l
  {
    InBlock(r, comps, b, k, i);
    InBlock(r, comps, b, l, j);
    if l < k {
      BoundsFall(r.S2, r.second.parent, comps, b, l + 1, k + 1);
      LaterTree(r, comps[k][i], comps[l][j], comps[k][0], comps[l][0], b[k + 1], b[l + 1]);
    }
  }

  lemma LaterTree(r: Passes, v: int, w: int, u: int, q: int, lo: nat, hi: nat)
    requires SecondPass(r) && lo < hi < |r.S2| && u == r.S2[lo] && q == r.S2[hi]
    requires IsRoot(r.t, r.second, u) && IsRoot(r.t, r.second, q)
    requires Vertex(r.t, v) && Vertex(r.t, w) && Inside(r.second, v, u) && Inside(r.second, w, q)
    ensures !Arc(r.t, w, v)
  {
    assert r.second.finish[u] > r.second.finish[q];
  }

  lemma VertexInBlock(r: Passes, comps: seq<seq<int>>, b: seq<nat>, v: int) returns (k: nat, i: nat)
    requires IsOrder(r.t, r.S2) && Cut(r, comps, b) && Vertex(r.t, v)
    ensures k < |comps| && i < |comps[k]| && comps[k][i] == v
    ensures r.second.parent[v] == NIL ==> i == 0
  {
    assert v in r.S2;
    var j :| 0 <= j < |r.S2| && r.S2[j] == v;
    k := BlockOf(r.S2, r.second.parent, comps, b, |comps|, j);
    i := j - b[k + 1];
    assert comps[k][i] == v;
  }

  lemma AnyPair(r: Passes, comps: seq<seq<int>>, b: seq<nat>, k: nat, l: nat, i: nat, j: nat)
    requires FirstPass(r) && SecondPass(r) && Cut(r, comps, b)
    requires k < |comps| && i < |comps[k]| && l < |comps| && j < |comps[l]|
    ensures PairOk(r.g, comps, k, l, i, j)
  {
    assert Distinct(r.S2) && Reversed(r.g, r.t);
    hide FirstPass, SecondPass, CutAtRoots, Mutual, Distinct;
    if comps[k][i] == comps[l][j] {
      SameVertexSameBlock(r.S2, r.second.parent, comps, b, k, l, i, j);
    }
    MutualIffSameBlock(r, comps, b, k, l, i, j);
    if Arc(r.g, comps[k][i], comps[l][j]) {
      ArcsForward(r, comps, b, k, l, i, j);
    }
  }

  /** Main theorem: the blocks are the strongly connected components of g. */
  lemma BlocksAreComponents(r: Passes, comps: seq<seq<int>>, b: seq<nat>)
    requires FirstPass(r) && SecondPass(r) && Cut(r, comps, b)
    ensures IsSccList(r.g, comps)
  {
    assert IsOrder(r.t, r.S2) && Reversed(r.g, r.t);
    hide FirstPass, SecondPass, CutAtRoots, IsOrder, PairOk, Mutual, IsRoot;
    forall v | Vertex(r.g, v)
      ensures exists k, i :: 0 <= k < |comps| && 0 <= i < |comps[k]| && comps[k][i] == v
    {
      var k, i := VertexInBlock(r, comps, b, v);
    }
    forall k, i | 0 <= k < |comps| && 0 <= i < |comps[k]| ensures Vertex(r.g, comps[k][i]) {
      InBlock(r, comps, b, k, i);
    }
    forall k, l, i, j | 0 <= k < |comps| && 0 <= l < |comps| && 0 <= i < |comps[k]| && 0 <= j < |comps[l]|
      ensures PairOk(r.g, comps, k, l, i, j)
    {
      AnyPair(r, comps, b, k, l, i, j);
    }
  }

  // The order of the vertices

  /** The components one after the other, the last one first. */
  ghost function Joined(comps: seq<seq<int>>): seq<int> {
    if comps == [] then [] else Joined(comps[1..]) + comps[0]
  }

  lemma {:induction false} JoinedFrom(S: seq<int>, parent: seq<int>, comps: seq<seq<int>>, b: seq<nat>, k: nat)
    requires CutAtRoots(S, parent, comps, b) && b[|comps|] == 0 && k <= |comps|
    ensures b[k] <= |S| && Joined(comps[k..]) == S[..b[k]]
    decreases |comps| - k
  {
    if k < |comps| {
      JoinedFrom(S, parent, comps, b, k + 1);
      assert IsBlock(S, parent, comps[k], b[k + 1], b[k]);
      assert comps[k..][1..] == comps[k + 1..] && S[..b[k]] == S[..b[k + 1]] + S[b[k + 1]..b[k]];
    }
  }

  /** The blocks are S, from the back: no vertex changes places with another. */
  lemma BlocksJoin(r: Passes, comps: seq<seq<int>>, b: seq<nat>)
    requires Cut(r, comps, b)
    ensures Joined(comps) == r.S2
  {
    JoinedFrom(r.S2, r.second.parent, comps, b, 0);
    assert comps[0..] == comps && r.S2[..|r.S2|] == r.S2;
  }

  // The number of components

  ghost function Roots(parent: seq<int>): set<int> {
    set v | 1 <= v < |parent| && parent[v] == NIL
  }

  ghost function FirstOf(comps: seq<seq<int>>, n: nat): set<int>
    requires n <= |comps| && forall k :: 0 <= k < |comps| ==> comps[k] != []
  {
    set k | 0 <= k < n :: comps[k][0]
  }

  lemma {:induction false} FirstOfCount(comps: seq<seq<int>>, n: nat)
    requires n <= |comps| && forall k :: 0 <= k < |comps| ==> comps[k] != []
    requires forall k, l :: 0 <= k < l < |comps| ==> comps[k][0] != comps[l][0]
    ensures |FirstOf(comps, n)| == n
  {
    if n > 0 {
      FirstOfCount(comps, n - 1);
      assert FirstOf(comps, n) == FirstOf(comps, n - 1) + {comps[n - 1][0]};
    }
  }

  /** As many components as vertices whose parent is NIL. */
  lemma ComponentCount(r: Passes, comps: seq<seq<int>>, b: seq<nat>)
    requires SecondPass(r) && Cut(r, comps, b)
    ensures |comps| == |Roots(r.second.parent)|
  {
    forall k, l | 0 <= k < l < |comps| ensures comps[k][0] != comps[l][0] {
      if comps[k][0] == comps[l][0] {
        SameVertexSameBlock(r.S2, r.second.parent, comps, b, k, l, 0, 0);
      }
    }
    FirstOfCount(comps, |comps|);
    forall v | v in Roots(r.second.parent) ensures v in FirstOf(comps, |comps|) {
      var k, i := VertexInBlock(r, comps, b, v);
    }
    forall v | v in FirstOf(comps, |comps|) ensures v in Roots(r.second.parent) {
      var k :| 0 <= k < |comps| && comps[k][0] == v;
      InBlock(r, comps, b, k, 0);
    }
    assert FirstOf(comps, |comps|) == Roots(r.second.parent);
  }
}
