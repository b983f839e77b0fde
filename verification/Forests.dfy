/** The classical theorems about depth-first search, for the states that
    DfsModel computes. */
module Forests {
  import opened Digraphs
  import opened DfsModel

  // White paths

  ghost predicate WhitePath(g: Adjacency, s: State, p: seq<int>, u: int, x: int)
    requires Shaped(g, s)
  {
    IsPath(g, p, u, x) && forall i :: 0 <= i < |p| ==> s.color[p[i]] == White
  }

  ghost predicate WhiteReach(g: Adjacency, s: State, u: int, x: int)
    requires Shaped(g, s)
  {
    exists p :: WhitePath(g, s, p, u, x)
  }

  lemma {:induction false} WhitePathVisited(g: Adjacency, s: State, r: State, p: seq<int>, u: int, x: int)
    requires Shaped(g, s) && Shaped(g, r) && ArcsMet(g, s, r) && New(s, r, u)
    requires WhitePath(g, s, p, u, x)
    ensures New(s, r, x)
    decreases |p|
  {
    if |p| > 1 {
      assert Arc(g, p[0], p[1]);
      assert WhitePath(g, s, p[1..], p[1], x) by {
        forall i | 0 <= i < |p| - 2 ensures Arc(g, p[1..][i], p[1..][i + 1]) {
          assert Arc(g, p[i + 1], p[i + 2]);
        }
      }
      WhitePathVisited(g, s, r, p[1..], p[1], x);
    }
  }

  lemma {:induction false} VisitedHasWhitePath(g: Adjacency, s: State, r: State, q: int, u: int, x: int)
    requires Shaped(g, s) && Shaped(g, r) && TreeArcs(g, q, s, r) && OnlyChild(q, u, s, r)
    requires New(s, r, u) && New(s, r, x) && Stamped(g, s, r)
    ensures WhiteReach(g, s, u, x)
    decreases r.discover[x] - s.time
  {
    if x == u {
      assert WhitePath(g, s, [u], u, u);
    } else {
      var z := r.parent[x];
      assert ChildOf(g, s, r, z, x);
      VisitedHasWhitePath(g, s, r, q, u, z);
      var p :| WhitePath(g, s, p, u, z);
      PathConcat(g, p, [z, x], u, z, x);
      assert WhitePath(g, s, p + [z, x][1..], u, x);
    }
  }

  /** The white-path theorem: a visit of u visits exactly the vertices that a path
      of then white vertices joins to u, and blackens them all. */
  lemma WhitePathTheorem(g: Adjacency, u: int, s: State, x: int)
    requires WellFormed(g) && Shaped(g, s) && Vertex(g, u) && s.color[u] == White
    requires Settled(s, s.parent[u]) && Vertex(g, x)
    ensures New(s, Visit(g, u, s), x) <==> WhiteReach(g, s, u, x)
    ensures New(s, Visit(g, u, s), x) ==> Visit(g, u, s).color[x] == Black
    ensures !New(s, Visit(g, u, s), x) ==> Same(g, s, Visit(g, u, s), x)
  {
    var r := Visit(g, u, s);
    VisitGrown(g, s.parent[u], u, s);
    if New(s, r, x) {
      VisitedHasWhitePath(g, s, r, s.parent[u], u, x);
    }
    if WhiteReach(g, s, u, x) {
      var p :| WhitePath(g, s, p, u, x);
      WhitePathVisited(g, s, r, p, u, x);
    }
  }

  // The whole search

  /** The fields that DFS resets before its first visit; slot 0 is not touched. */
  function Reset(s: State): (r: State)
    requires |s.color| == |s.parent| == |s.discover| == |s.finish| >= 1
  {
    var n := |s.color| - 1;
    State([s.color[0]] + seq(n, _ => White), [s.parent[0]] + seq(n, _ => NIL),
          [s.discover[0]] + seq(n, _ => UNDEF), [s.finish[0]] + seq(n, _ => UNDEF), 0)
  }

  ghost predicate Distinct(vs: seq<int>) {
    forall i, j :: 0 <= i < j < |vs| ==> vs[i] != vs[j]
  }

  /** S lists every vertex once. */
  ghost predicate IsOrder(g: Adjacency, S: seq<int>) {
    Distinct(S) && (forall i :: 0 <= i < |S| ==> Vertex(g, S[i])) && forall v :: Vertex(g, v) ==> v in S
  }

  lemma DistinctSoFar(vs: seq<int>)
    requires Distinct(vs)
    ensures forall j :: 0 <= j < |vs| ==> vs[j] !in vs[..j]
  {
  }

  /** The state DFS(G, S) ends in. */
  ghost function Dfs(g: Adjacency, S: seq<int>, s: State): (r: State)
    requires WellFormed(g) && Shaped(g, s) && IsOrder(g, S)
    ensures Shaped(g, r)
  {
    VisitAll(g, NIL, S, Reset(s))
  }

  /** y's interval holds x's. */
  predicate Inside(f: State, x: int, y: int)
    requires 0 <= x < |f.discover| == |f.finish| && 0 <= y < |f.discover|
  {
    f.discover[y] <= f.discover[x] && f.finish[x] <= f.finish[y]
  }

  /** What the stamps and parents of a finished search satisfy. */
  ghost predicate Forest(g: Adjacency, f: State) {
    && WellFormed(g) && Shaped(g, f)
    && (forall x :: Vertex(g, x) ==>
          f.color[x] == Black && 0 < f.discover[x] < f.finish[x] <= f.time)
    && (forall x, y :: Vertex(g, x) && Vertex(g, y) && x != y ==>
          Parenthesised(f.discover[x], f.finish[x], f.discover[y], f.finish[y]))
    && (forall x, y :: Arc(g, x, y) ==> f.discover[y] < f.finish[x])
    && (forall x {:trigger f.parent[x]} :: Vertex(g, x) && f.parent[x] != NIL ==>
          Arc(g, f.parent[x], x) && Inside(f, x, f.parent[x]) && f.parent[x] != x)
    && (forall x, y {:trigger f.parent[x], f.discover[y]} ::
          Vertex(g, x) && Vertex(g, y) && f.discover[y] < f.discover[x] < f.finish[y] ==>
          f.parent[x] != NIL && f.discover[y] <= f.discover[f.parent[x]])
  }

  ghost predicate IsRoot(g: Adjacency, f: State, r: int) {
    Vertex(g, r) && r < |f.parent| && f.parent[r] == NIL
  }

  /** A root is discovered after everything that stands before it in S. */
  ghost predicate RootsFollow(g: Adjacency, S: seq<int>, f: State)
    requires Shaped(g, f)
  {
    forall i, j :: 0 <= i < j < |S| && IsRoot(g, f, S[j]) && Vertex(g, S[i]) ==>
      f.discover[S[i]] < f.discover[S[j]]
  }

  lemma GrownIsForest(g: Adjacency, s: State, f: State)
    requires WellFormed(g) && Shaped(g, s) && Shaped(g, f) && Grown(g, NIL, s, f) && s.time == 0
    requires forall x :: Vertex(g, x) ==> New(s, f, x)
    ensures Forest(g, f)
  {
    GrownParents(g, s, f);
    assert forall x, y :: Arc(g, x, y) ==> New(s, f, x) && New(s, f, y);
  }

  lemma GrownParents(g: Adjacency, s: State, f: State)
    requires Shaped(g, s) && Shaped(g, f) && TreeArcs(g, NIL, s, f)
    requires forall x :: Vertex(g, x) ==> New(s, f, x)
    ensures forall x :: Vertex(g, x) && f.parent[x] != NIL ==>
              Arc(g, f.parent[x], x) && Inside(f, x, f.parent[x]) && f.parent[x] != x
  {
    forall x | Vertex(g, x) && f.parent[x] != NIL
      ensures Arc(g, f.parent[x], x) && Inside(f, x, f.parent[x]) && f.parent[x] != x
    {
      assert ChildOf(g, s, f, f.parent[x], x);
    }
  }

  lemma DfsIsForest(g: Adjacency, S: seq<int>, s: State)
    requires WellFormed(g) && Shaped(g, s) && IsOrder(g, S)
    ensures Forest(g, Dfs(g, S, s)) && RootsFollow(g, S, Dfs(g, S, s))
  {
    var s0, f := Reset(s), Dfs(g, S, s);
    VisitAllGrown(g, NIL, S, s0);
    DistinctSoFar(S);
    forall x | Vertex(g, x) ensures New(s0, f, x) {
      assert x in S;
    }
    GrownIsForest(g, s0, f);
    VisitAllInOrder(g, NIL, S, s0);
  }

  // The parenthesis theorem

  /** x is y or a descendant of y along parents. */
  ghost predicate Descends(g: Adjacency, f: State, x: int, y: int)
    requires Forest(g, f) && Vertex(g, x)
    decreases f.discover[x]
  {
    x == y || (f.parent[x] != NIL && Descends(g, f, f.parent[x], y))
  }

  /** Intervals are nested exactly along the trees. */
  lemma {:induction false} NestedIffDescends(g: Adjacency, f: State, x: int, y: int)
    requires Forest(g, f) && Vertex(g, x) && Vertex(g, y)
    ensures Inside(f, x, y) <==> Descends(g, f, x, y)
    decreases f.discover[x]
  {
    if x != y && f.parent[x] != NIL {
      var z := f.parent[x];
      NestedIffDescends(g, f, z, y);
      assert z != y ==> Parenthesised(f.discover[z], f.finish[z], f.discover[y], f.finish[y]);
    }
  }

  /** The tree path from y down to x, which never leaves y's interval. */
  lemma {:induction false} TreePath(g: Adjacency, f: State, x: int, y: int) returns (p: seq<int>)
    requires Forest(g, f) && Vertex(g, x) && Vertex(g, y) && Inside(f, x, y)
    ensures IsPath(g, p, y, x) && forall i :: 0 <= i < |p| ==> Inside(f, p[i], y)
    decreases f.discover[x]
  {
    if x == y {
      p := [x];
    } else {
      var z := f.parent[x];
      assert Inside(f, z, y) by {
        NestedIffDescends(g, f, x, y);
        NestedIffDescends(g, f, z, y);
      }
      var q := TreePath(g, f, z, y);
      PathConcat(g, q, [z, x], y, z, x);
      p := q + [z, x][1..];
    }
  }

  /** Every vertex lies in the tree of exactly one root. */
  lemma {:induction false} RootExists(g: Adjacency, f: State, x: int) returns (r: int)
    requires Forest(g, f) && Vertex(g, x)
    ensures IsRoot(g, f, r) && Inside(f, x, r)
    decreases f.discover[x]
  {
    if f.parent[x] == NIL {
      r := x;
    } else {
      r := RootExists(g, f, f.parent[x]);
    }
  }

  /** A path from a to b runs through a vertex, discovered no later than a, whose
      interval holds b's. */
  lemma {:induction false} PathEnclosed(g: Adjacency, f: State, p: seq<int>, a: int, b: int) returns (k: nat)
    requires Forest(g, f) && IsPath(g, p, a, b)
    ensures k < |p| && f.discover[p[k]] <= f.discover[a] && Inside(f, b, p[k])
    decreases |p|
  {
    if |p| == 1 {
      k := 0;
    } else {
      var q := p[1..];
      forall i | 0 <= i < |q| - 1 ensures Arc(g, q[i], q[i + 1]) {
        assert Arc(g, p[i + 1], p[i + 2]);
      }
      var j := PathEnclosed(g, f, q, q[0], b);
      assert q[j] == p[j + 1] && Arc(g, a, q[0]);
      if f.discover[p[j + 1]] <= f.discover[a] {
        k := j + 1;
      } else {
        k := 0;
        assert Parenthesised(f.discover[a], f.finish[a], f.discover[p[j + 1]], f.finish[p[j + 1]]);
      }
    }
  }
}
