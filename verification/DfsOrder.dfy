/** In which order depth-first search takes the neighbours of a vertex. */
module DfsOrder {
  import opened Digraphs
  import opened DfsModel
  import opened Forests

  /** Every child of a new vertex u was discovered after all that stands before it
      among the neighbours of u. */
  ghost predicate ChildrenInOrder(g: Adjacency, s: State, t: State)
    requires Shaped(g, s) && Shaped(g, t)
  {
    forall u :: New(s, t, u) ==> TakenInOrder(u, g[u], s, t)
  }

  lemma ChildrenTrans(g: Adjacency, p: int, s: State, t: State, r: State)
    requires WellFormed(g) && Shaped(g, s) && Shaped(g, t) && Shaped(g, r)
    requires Grown(g, p, s, t) && Grown(g, p, t, r) && !New(s, r, p)
    requires ChildrenInOrder(g, s, t) && ChildrenInOrder(g, t, r)
    ensures ChildrenInOrder(g, s, r)
  {
    hide Nested, Innermost;
    NewSplit(g, s, t, r);
    forall u | New(s, r, u) ensures TakenInOrder(u, g[u], s, r) {
      if New(s, t, u) {
        EarlierPart(g, p, s, t, r, u);
      } else {
        LaterPart(g, p, s, t, r, u);
      }
    }
  }

  /** The children of u belong to the same part as u, and so does what u has arcs to,
      if it is new at all. */
  lemma EarlierPart(g: Adjacency, p: int, s: State, t: State, r: State, u: int)
    requires WellFormed(g) && Shaped(g, s) && Shaped(g, t) && Shaped(g, r)
    requires Grown(g, p, s, t) && Grown(g, p, t, r) && New(s, t, u) && u != p && TakenInOrder(u, g[u], s, t)
    ensures TakenInOrder(u, g[u], s, r)
  {
    hide Nested, Innermost;
    NewSplit(g, s, t, r);
    forall i | 0 <= i < |g[u]| && New(s, r, g[u][i])
      ensures New(s, t, g[u][i]) && Same(g, t, r, g[u][i])
    {
      HeadIsVertex(g, u, i);
      assert Arc(g, u, g[u][i]);
    }
  }

  lemma LaterPart(g: Adjacency, p: int, s: State, t: State, r: State, u: int)
    requires WellFormed(g) && Shaped(g, s) && Shaped(g, t) && Shaped(g, r)
    requires Grown(g, p, s, t) && Grown(g, p, t, r) && New(t, r, u) && u != p && TakenInOrder(u, g[u], t, r)
    ensures TakenInOrder(u, g[u], s, r)
  {
    hide Nested, Innermost, ArcsMet;
    NewSplit(g, s, t, r);
    forall x | New(s, t, x) ensures r.parent[x] != u {
      assert Same(g, t, r, x);
      assert t.parent[x] != p ==> ChildOf(g, s, t, t.parent[x], x);
    }
    assert forall x :: New(s, t, x) ==> Same(g, t, r, x) && r.discover[x] <= t.time;
    assert forall x :: New(t, r, x) ==> t.time < r.discover[x];
  }

  lemma {:induction false} VisitChildren(g: Adjacency, p: int, u: int, s: State)
    requires WellFormed(g) && Shaped(g, s) && Vertex(g, u) && s.color[u] == White
    requires Settled(s, p) && s.parent[u] == p
    ensures ChildrenInOrder(g, s, Visit(g, u, s))
    decreases Whites(s), 0, 0
  {
    var s1 := Open(s, u);
    assert Whites(s1) == Whites(s) - {u};
    var t := VisitAll(g, u, g[u], s1);
    VisitAllGrown(g, u, g[u], s1);
    VisitAllInOrder(g, u, g[u], s1);
    VisitAllChildren(g, u, g[u], s1);
    assert Same(g, s1, t, u);
    ClosedChildren(g, p, u, s, t);
  }

  lemma ClosedChildren(g: Adjacency, p: int, u: int, s: State, t: State)
    requires VisitBody(g, p, u, s, t) && ChildrenInOrder(g, Open(s, u), t) && TakenInOrder(u, g[u], Open(s, u), t)
    ensures Shaped(g, Close(t, u)) && ChildrenInOrder(g, s, Close(t, u))
  {
    hide Nested, Innermost, ArcsMet, TreeArcs;
    ClosedKept(g, p, u, s, t);
    var s1, r := Open(s, u), Close(t, u);
    assert !New(s1, t, u);
    assert r.discover[u] == s.time + 1;
    assert forall x :: New(s1, t, x) ==> r.discover[x] == t.discover[x] > s.time + 1;
    forall x | New(s, r, x) ensures TakenInOrder(x, g[x], s, r) {
      assert x == u || TakenInOrder(x, g[x], s1, t);
    }
  }

  lemma {:induction false} MeetChildren(g: Adjacency, p: int, v: int, s: State)
    requires WellFormed(g) && Shaped(g, s) && Vertex(g, v) && Settled(s, p)
    ensures ChildrenInOrder(g, s, Meet(g, p, v, s))
    decreases Whites(s), 0, 1
  {
    if s.color[v] == White {
      var s0 := s.(parent := s.parent[v := p]);
      assert Whites(s0) == Whites(s);
      VisitChildren(g, p, v, s0);
      var t := Visit(g, v, s0);
      assert forall x :: New(s, t, x) <==> New(s0, t, x);
    }
  }

  lemma {:induction false} VisitAllChildren(g: Adjacency, p: int, vs: seq<int>, s: State)
    requires WellFormed(g) && Shaped(g, s) && Settled(s, p) && forall v <- vs :: Vertex(g, v)
    ensures ChildrenInOrder(g, s, VisitAll(g, p, vs, s))
    decreases Whites(s), |vs|
  {
    if vs != [] {
      var t := Meet(g, p, vs[0], s);
      MeetGrown(g, p, vs[0], s);
      MeetChildren(g, p, vs[0], s);
      VisitAllGrown(g, p, vs[1..], t);
      VisitAllChildren(g, p, vs[1..], t);
      ChildrenTrans(g, p, s, t, VisitAll(g, p, vs[1..], t));
    }
  }

  /** In the finished forest, a child of u is discovered after everything that stands
      before it in the list of u.  So of two children, the one that stands first is
      discovered, and finished, first. */
  lemma NeighborsInOrder(g: Adjacency, S: seq<int>, s: State, u: int, i: nat, j: nat)
    requires WellFormed(g) && Shaped(g, s) && IsOrder(g, S) && Vertex(g, u) && i < j < |g[u]|
    requires g[u][j] !in g[u][..j] && Vertex(g, g[u][j]) && Dfs(g, S, s).parent[g[u][j]] == u
    ensures Vertex(g, g[u][i]) && Dfs(g, S, s).discover[g[u][i]] < Dfs(g, S, s).discover[g[u][j]]
    ensures Dfs(g, S, s).parent[g[u][i]] == u ==> Dfs(g, S, s).finish[g[u][i]] < Dfs(g, S, s).discover[g[u][j]]
  {
    var s0, f := Reset(s), Dfs(g, S, s);
    HeadIsVertex(g, u, i);
    var x, y := g[u][i], g[u][j];
    DfsIsForest(g, S, s);
    VisitAllChildren(g, NIL, S, s0);
    assert New(s0, f, u) && New(s0, f, x) && New(s0, f, y);
    assert TakenInOrder(u, g[u], s0, f);
    if f.parent[x] == u {
      SiblingsApart(g, f, u, x, y);
    }
  }

  lemma InnermostAround(g: Adjacency, f: State, x: int, y: int)
    requires Forest(g, f) && Vertex(g, x) && Vertex(g, y)
    ensures f.discover[y] < f.discover[x] < f.finish[y] ==>
              f.parent[x] != NIL && f.discover[y] <= f.discover[f.parent[x]]
  {
  }

  lemma SiblingsApart(g: Adjacency, f: State, u: int, x: int, y: int)
    requires Forest(g, f) && Vertex(g, x) && Vertex(g, y) && f.parent[x] == u == f.parent[y] && Vertex(g, u)
    requires f.discover[x] < f.discover[y]
    ensures f.finish[x] < f.discover[y]
  {
    InnermostAround(g, f, y, x);
  }
}
