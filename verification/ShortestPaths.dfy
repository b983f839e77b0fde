/** What BFS keeps true of its arrays and its queue, and why the distances it ends
    with are least. */
module ShortestPaths {
  import opened Digraphs

  const INF := -1

  datatype Marks = Marks(color: seq<Color>, distance: seq<int>, parent: seq<int>)

  ghost predicate Shaped(g: Adjacency, m: Marks) {
    |m.color| == |m.distance| == |m.parent| == |g|
  }

  /** White vertices have no distance; the others have one. */
  ghost predicate Coloured(g: Adjacency, m: Marks)
    requires Shaped(g, m)
  {
    forall v {:trigger m.color[v]} {:trigger m.distance[v]} :: Vertex(g, v) ==>
      && (m.color[v] == White <==> m.distance[v] == INF) && m.distance[v] >= INF
  }

  /** The parent of v is one step nearer to the source, along an arc. */
  ghost predicate ParentFits(g: Adjacency, s: int, m: Marks, v: int)
    requires Shaped(g, m) && Vertex(g, v)
  {
    if v == s then m.parent[v] == NIL && m.distance[v] == 0
    else if m.distance[v] == INF then m.parent[v] == NIL
    else
      var p := m.parent[v];
      Arc(g, p, v) && m.distance[p] >= 0 && m.distance[v] == m.distance[p] + 1
  }

  /** What the arrays say after BFS, and what getPath relies on. */
  ghost predicate Tree(g: Adjacency, s: int, m: Marks) {
    && Shaped(g, m) && Vertex(g, s)
    && forall v :: Vertex(g, v) ==> ParentFits(g, s, m, v)
  }

  predicate InGraph(g: Adjacency, Q: seq<int>) {
    forall i :: 0 <= i < |Q| ==> 1 <= Q[i] < |g|
  }

  /** The gray vertices are those in the queue, each once. */
  ghost predicate GrayList(g: Adjacency, m: Marks, Q: seq<int>)
    requires Shaped(g, m)
  {
    && (forall i, j :: 0 <= i < j < |Q| ==> Q[i] != Q[j])
    && InGraph(g, Q) && (forall i :: 0 <= i < |Q| ==> m.color[Q[i]] == Gray)
    && forall v :: Vertex(g, v) && m.color[v] == Gray ==> v in Q
  }

  /** Distances in the queue do not decrease and differ by at most one; nothing
      finished is farther away than its head. */
  ghost predicate Levels(g: Adjacency, m: Marks, Q: seq<int>)
    requires Shaped(g, m) && InGraph(g, Q)
  {
    && (forall i, j :: 0 <= i <= j < |Q| ==> m.distance[Q[i]] <= m.distance[Q[j]] <= m.distance[Q[0]] + 1)
    && (Q != [] ==> forall x :: Vertex(g, x) && m.color[x] == Black ==> m.distance[x] <= m.distance[Q[0]])
  }

  /** y has been met from a vertex at distance d. */
  ghost predicate Met(m: Marks, d: int, y: int)
    requires 0 <= y < |m.color| == |m.distance|
  {
    m.color[y] != White && m.distance[y] <= d + 1
  }

  /** Every neighbour of a black vertex has been met, and so have the first k
      neighbours of the head of the queue. */
  ghost predicate Explored(g: Adjacency, m: Marks, Q: seq<int>, k: nat)
    requires Shaped(g, m) && InGraph(g, Q)
  {
    && (forall x, y :: Arc(g, x, y) && m.color[x] == Black ==> Met(m, m.distance[x], y))
    && (Q != [] ==>
          && k <= |g[Q[0]]|
          && forall i :: 0 <= i < k && Vertex(g, g[Q[0]][i]) ==> Met(m, m.distance[Q[0]], g[Q[0]][i]))
  }

  /** The invariant of BFS.  Q is the queue, with the vertex that is being explored,
      if there is one, in front; k of its neighbours have been met. */
  ghost predicate Searching(g: Adjacency, s: int, m: Marks, Q: seq<int>, k: nat) {
    && Tree(g, s, m) && Coloured(g, m) && GrayList(g, m, Q) && Levels(g, m, Q) && Explored(g, m, Q, k)
  }

  ghost function Unfinished(m: Marks): set<int> {
    set v | 1 <= v < |m.color| && m.color[v] != Black
  }

  lemma SearchShape(g: Adjacency, s: int, m: Marks, Q: seq<int>, k: nat)
    requires Searching(g, s, m, Q, k)
    ensures Tree(g, s, m) && InGraph(g, Q) && forall i :: 0 <= i < |Q| ==> m.color[Q[i]] == Gray
    ensures forall v :: Vertex(g, v) ==> (m.color[v] == White <==> m.distance[v] == INF)
  {
  }

  lemma StartSearching(g: Adjacency, s: int, m: Marks)
    requires Vertex(g, s) && Shaped(g, m)
    requires forall v :: Vertex(g, v) ==>
               && m.color[v] == (if v == s then Gray else White)
               && m.distance[v] == (if v == s then 0 else INF) && m.parent[v] == NIL
    ensures Searching(g, s, m, [s], 0)
  {
  }

  /** The update of a white neighbour v of u. */
  function Discover(m: Marks, u: int, v: int): (r: Marks)
    requires |m.color| == |m.distance| == |m.parent| && 0 <= u < |m.color| && 0 <= v < |m.color|
  {
    Marks(m.color[v := Gray], m.distance[v := m.distance[u] + 1], m.parent[v := u])
  }

  /** v is the next neighbour of the head of the queue. */
  ghost predicate Next(g: Adjacency, Q: seq<int>, k: nat, v: int) {
    Q != [] && Vertex(g, Q[0]) && k < |g[Q[0]]| && g[Q[0]][k] == v && Vertex(g, v)
  }

  lemma DiscoverKeepsTree(g: Adjacency, s: int, m: Marks, u: int, v: int)
    requires Tree(g, s, m) && Coloured(g, m) && Arc(g, u, v) && m.color[u] != White && m.color[v] == White
    ensures Tree(g, s, Discover(m, u, v)) && Coloured(g, Discover(m, u, v))
  {
    var r := Discover(m, u, v);
    forall x | Vertex(g, x) ensures ParentFits(g, s, r, x) {
      assert ParentFits(g, s, m, x) && ParentFits(g, s, m, v);
    }
  }

  lemma DiscoverKeepsGrays(g: Adjacency, m: Marks, Q: seq<int>, k: nat, v: int)
    requires Shaped(g, m) && GrayList(g, m, Q) && Next(g, Q, k, v) && m.color[v] == White
    ensures GrayList(g, Discover(m, Q[0], v), Q + [v])
  {
    var r, T := Discover(m, Q[0], v), Q + [v];
    assert forall i :: 0 <= i < |Q| ==> T[i] == Q[i];
    forall x | Vertex(g, x) && r.color[x] == Gray ensures x in T {
      assert x != v ==> m.color[x] == Gray;
    }
  }

  lemma DiscoverKeepsLevels(g: Adjacency, m: Marks, Q: seq<int>, k: nat, v: int)
    requires Shaped(g, m) && GrayList(g, m, Q) && Levels(g, m, Q) && Next(g, Q, k, v) && m.color[v] == White
    ensures InGraph(g, Q + [v]) && Levels(g, Discover(m, Q[0], v), Q + [v])
  {
    var r, T := Discover(m, Q[0], v), Q + [v];
    assert forall i :: 0 <= i < |Q| ==> T[i] == Q[i] && T[i] != v && r.distance[T[i]] == m.distance[Q[i]];
    assert InGraph(g, T) && r.distance[T[|Q|]] == m.distance[Q[0]] + 1;
    forall i, j | 0 <= i <= j < |T| ensures r.distance[T[i]] <= r.distance[T[j]] <= r.distance[T[0]] + 1 {
      if j < |Q| {
        assert m.distance[Q[i]] <= m.distance[Q[j]] <= m.distance[Q[0]] + 1;
      } else if i < |Q| {
        assert m.distance[Q[0]] <= m.distance[Q[i]] <= m.distance[Q[0]] + 1;
      }
    }
  }

  lemma DiscoverKeepsExplored(g: Adjacency, m: Marks, Q: seq<int>, k: nat, v: int)
    requires Shaped(g, m) && Coloured(g, m) && GrayList(g, m, Q) && Explored(g, m, Q, k) && Next(g, Q, k, v)
    requires m.color[v] == White
    ensures GrayList(g, Discover(m, Q[0], v), Q + [v]) ==> Explored(g, Discover(m, Q[0], v), Q + [v], k + 1)
  {
    var r := Discover(m, Q[0], v);
    forall x, y | Arc(g, x, y) && r.color[x] == Black ensures Met(r, r.distance[x], y) {
      assert m.color[x] == Black && Met(m, m.distance[x], y);
    }
  }

  lemma DiscoverKeeps(g: Adjacency, s: int, m: Marks, Q: seq<int>, k: nat, v: int)
    requires Searching(g, s, m, Q, k) && Next(g, Q, k, v) && m.color[v] == White
    ensures Searching(g, s, Discover(m, Q[0], v), Q + [v], k + 1)
  {
    assert v in g[Q[0]] && m.color[Q[0]] == Gray;
    DiscoverKeepsTree(g, s, m, Q[0], v);
    DiscoverKeepsGrays(g, m, Q, k, v);
    DiscoverKeepsLevels(g, m, Q, k, v);
    DiscoverKeepsExplored(g, m, Q, k, v);
  }

  /** A neighbour that is not white is near enough already. */
  lemma SkipKeeps(g: Adjacency, s: int, m: Marks, Q: seq<int>, k: nat, v: int)
    requires Searching(g, s, m, Q, k) && Next(g, Q, k, v) && m.color[v] != White
    ensures Searching(g, s, m, Q, k + 1)
  {
    if m.color[v] == Gray {
      var i :| 0 <= i < |Q| && Q[i] == v;
      assert m.distance[Q[i]] <= m.distance[Q[0]] + 1;
    }
  }

  /** The head is explored. */
  function Finish(m: Marks, u: int): Marks
    requires 0 <= u < |m.color|
  {
    m.(color := m.color[u := Black])
  }

  lemma TailInQueue(Q: seq<int>, x: int)
    requires x in Q && x != Q[0]
    ensures x in Q[1..]
  {
    var i :| 0 <= i < |Q| && Q[i] == x;
    assert Q[1..][i - 1] == x;
  }

  lemma FinishKeepsGrays(g: Adjacency, m: Marks, Q: seq<int>)
    requires Shaped(g, m) && Q != [] && Vertex(g, Q[0]) && GrayList(g, m, Q)
    ensures GrayList(g, Finish(m, Q[0]), Q[1..])
  {
    var r, T := Finish(m, Q[0]), Q[1..];
    assert forall i :: 0 <= i < |T| ==> T[i] == Q[i + 1];
    forall x | Vertex(g, x) && r.color[x] == Gray ensures x in T {
      assert m.color[x] == Gray;
      TailInQueue(Q, x);
    }
  }

  lemma FinishKeepsLevels(g: Adjacency, m: Marks, Q: seq<int>)
    requires Shaped(g, m) && Q != [] && Vertex(g, Q[0]) && InGraph(g, Q) && Levels(g, m, Q)
    ensures InGraph(g, Q[1..]) && Levels(g, Finish(m, Q[0]), Q[1..])
  {
    var T := Q[1..];
    assert forall i :: 0 <= i < |T| ==> T[i] == Q[i + 1];
    assert T != [] ==> m.distance[Q[0]] <= m.distance[Q[1]];
  }

  lemma FinishKeepsExplored(g: Adjacency, m: Marks, Q: seq<int>)
    requires Shaped(g, m) && Q != [] && Vertex(g, Q[0]) && GrayList(g, m, Q) && Explored(g, m, Q, |g[Q[0]]|)
    ensures GrayList(g, Finish(m, Q[0]), Q[1..]) ==> Explored(g, Finish(m, Q[0]), Q[1..], 0)
  {
    var u, r := Q[0], Finish(m, Q[0]);
    forall x, y | Arc(g, x, y) && r.color[x] == Black ensures Met(r, r.distance[x], y) {
      if x == u {
        var i :| 0 <= i < |g[u]| && g[u][i] == y;
      } else {
        assert Met(m, m.distance[x], y);
      }
    }
  }

  lemma FinishKeeps(g: Adjacency, s: int, m: Marks, Q: seq<int>)
    requires Q != [] && Vertex(g, Q[0]) && Searching(g, s, m, Q, |g[Q[0]]|)
    ensures Searching(g, s, Finish(m, Q[0]), Q[1..], 0)
  {
    forall v | Vertex(g, v) ensures ParentFits(g, s, Finish(m, Q[0]), v) {
      assert ParentFits(g, s, m, v);
    }
    FinishKeepsGrays(g, m, Q);
    FinishKeepsLevels(g, m, Q);
    FinishKeepsExplored(g, m, Q);
  }

  // What the search ends with

  /** d is the least number of arcs of a walk from s to v, or INF if there is none. */
  ghost predicate IsDistance(g: Adjacency, s: int, v: int, d: int) {
    if Reach(g, s, v) then
      && (exists p :: IsPath(g, p, s, v) && |p| == d + 1)
      && forall p :: IsPath(g, p, s, v) ==> d + 1 <= |p|
    else d == INF
  }

  ghost predicate Distances(g: Adjacency, s: int, m: Marks) {
    Tree(g, s, m) && forall v :: Vertex(g, v) ==> IsDistance(g, s, v, m.distance[v])
  }

  /** The path that the parents spell, from the source to v. */
  ghost function TreePath(g: Adjacency, s: int, m: Marks, v: int): (p: seq<int>)
    requires Tree(g, s, m) && Vertex(g, v) && m.distance[v] >= 0
    decreases m.distance[v]
  {
    assert ParentFits(g, s, m, v);
    if v == s then [s] else TreePath(g, s, m, m.parent[v]) + [v]
  }

  /** It is a path, of as many arcs as the distance says. */
  lemma {:induction false} TreePathIsPath(g: Adjacency, s: int, m: Marks, v: int)
    requires Tree(g, s, m) && Vertex(g, v) && m.distance[v] >= 0
    ensures IsPath(g, TreePath(g, s, m, v), s, v) && |TreePath(g, s, m, v)| == m.distance[v] + 1
    ensures forall i :: 0 <= i <= m.distance[v] ==>
              && Vertex(g, TreePath(g, s, m, v)[i]) && m.distance[TreePath(g, s, m, v)[i]] == i
    decreases m.distance[v]
  {
    assert ParentFits(g, s, m, v);
    if v != s {
      TreePathIsPath(g, s, m, m.parent[v]);
    }
  }

  /** No walk is shorter than the distances say. */
  lemma {:induction false} WalksAreLonger(g: Adjacency, s: int, m: Marks, p: seq<int>, v: int)
    requires Searching(g, s, m, [], 0) && IsPath(g, p, s, v)
    ensures m.color[v] == Black && m.distance[v] + 1 <= |p|
    decreases |p|
  {
    assert ParentFits(g, s, m, s);
    if |p| > 1 {
      var q, x := p[..|p| - 1], p[|p| - 2];
      forall i | 0 <= i < |q| - 1 ensures Arc(g, q[i], q[i + 1]) {
        assert Arc(g, p[i], p[i + 1]);
      }
      WalksAreLonger(g, s, m, q, x);
      assert Arc(g, x, p[|p| - 2 + 1]);
      assert Met(m, m.distance[x], v);
    }
  }

  /** BFS optimality: with nothing left in the queue, every distance is least, and
      the white vertices are exactly those out of reach. */
  lemma SearchIsOptimal(g: Adjacency, s: int, m: Marks)
    requires Searching(g, s, m, [], 0)
    ensures Distances(g, s, m)
    ensures forall v :: Vertex(g, v) ==> (m.color[v] == White <==> !Reach(g, s, v)) && m.color[v] != Gray
  {
    forall v | Vertex(g, v)
      ensures IsDistance(g, s, v, m.distance[v]) && (m.color[v] == White <==> !Reach(g, s, v)) && m.color[v] != Gray
    {
      forall p | IsPath(g, p, s, v) ensures m.color[v] == Black && m.distance[v] + 1 <= |p| {
        WalksAreLonger(g, s, m, p, v);
      }
      assert ParentFits(g, s, m, v);
      if m.distance[v] != INF {
        TreePathIsPath(g, s, m, v);
        assert Reach(g, s, v);
      }
    }
  }

  // A list that has path put before it reads as if path had been put behind it

  /** L is the path some number of times over. */
  predicate Repeats(L: seq<int>, path: seq<int>)
    decreases |L|
  {
    L == [] || (path != [] && path <= L && Repeats(L[|path|..], path))
  }

  lemma {:induction false} PrependIsAppendIff(path: seq<int>, L: seq<int>)
    requires path != [] && forall i :: 0 < i < |path| ==> path[i] != path[0]
    ensures path + L == L + path <==> Repeats(L, path)
    decreases |L|
  {
    if L != [] {
      if path <= L {
        var M := L[|path|..];
        PrependIsAppendIff(path, M);
        assert L == path + M;
        assert path + L == path + (path + M) && L + path == path + (M + path);
        assert path + L == L + path <==> path + M == M + path by {
          assert (path + (path + M))[|path|..] == path + M;
          assert (path + (M + path))[|path|..] == M + path;
        }
      } else if |L| < |path| {
        assert (L + path)[|L|] == path[0] && (path + L)[|L|] == path[|L|];
      } else {
        assert (L + path)[..|path|] == L[..|path|] && (path + L)[..|path|] == path;
      }
    }
  }
}
