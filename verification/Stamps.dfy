/** The discover and finish times of a search are 1 .. 2n, each used once. */
module Stamps {
  import opened Digraphs
  import opened DfsModel
  import opened Forests

  /** Stamp number m is x's discover or finish time, and x is new. */
  ghost predicate Bears(s: State, r: State, x: int, m: int)
    requires |r.discover| == |r.finish| == |r.color|
  {
    New(s, r, x) && (r.discover[x] == m || r.finish[x] == m)
  }

  ghost predicate Borne(s: State, r: State, m: int)
    requires |r.discover| == |r.finish| == |r.color|
  {
    exists x :: Bears(s, r, x, m)
  }

  /** The clock moved by two for each new vertex. */
  ghost predicate Counted(s: State, r: State) {
    r.time == s.time + 2 * |Whites(s) - Whites(r)|
  }

  /** Every tick marked a vertex. */
  ghost predicate Marked(s: State, r: State)
    requires |r.discover| == |r.finish| == |r.color|
  {
    forall m :: s.time < m <= r.time ==> Borne(s, r, m)
  }

  ghost predicate Ticked(g: Adjacency, s: State, r: State)
    requires Shaped(g, r)
  {
    Counted(s, r) && Marked(s, r)
  }

  lemma CountedTrans(s: State, t: State, r: State)
    requires Counted(s, t) && Counted(t, r) && Whites(r) <= Whites(t) <= Whites(s)
    ensures Counted(s, r)
  {
    assert Whites(s) - Whites(r) == (Whites(s) - Whites(t)) + (Whites(t) - Whites(r));
  }

  lemma MarkedTrans(g: Adjacency, s: State, t: State, r: State)
    requires Shaped(g, s) && Shaped(g, t) && Shaped(g, r)
    requires Kept(g, s, t) && Kept(g, t, r) && Stamped(g, s, t)
    requires Marked(s, t) && Marked(t, r)
    ensures Marked(s, r)
  {
    NewSplit(g, s, t, r);
    forall m | s.time < m <= r.time ensures Borne(s, r, m) {
      if m <= t.time {
        assert Borne(s, t, m);
        var x :| Bears(s, t, x, m);
        assert Bears(s, r, x, m);
      } else {
        assert Borne(t, r, m);
        var x :| Bears(t, r, x, m);
        assert Bears(s, r, x, m);
      }
    }
  }

  lemma ClosedMarks(g: Adjacency, p: int, u: int, s: State, t: State)
    requires VisitBody(g, p, u, s, t) && Marked(Open(s, u), t)
    ensures Marked(s, Close(t, u))
  {
    ClosedKept(g, p, u, s, t);
    var s1, r := Open(s, u), Close(t, u);
    forall m | s.time < m <= r.time ensures Borne(s, r, m) {
      if m == s.time + 1 || m == r.time {
        assert Bears(s, r, u, m);
      } else {
        assert Borne(s1, t, m);
        var x :| Bears(s1, t, x, m);
        assert Bears(s, r, x, m);
      }
    }
  }

  lemma OneMore(A: set<int>, B: set<int>, u: int)
    requires u in A && B <= A - {u}
    ensures |A - B| == |(A - {u}) - B| + 1
  {
    assert A - B == ((A - {u}) - B) + {u};
  }

  lemma ClosedCounts(u: int, s: State, t: State)
    requires |s.color| == |t.color| == |s.discover| == |t.finish| && 1 <= u < |s.color| && s.color[u] == White
    requires Counted(Open(s, u), t) && Whites(t) <= Whites(s) - {u}
    ensures Counted(s, Close(t, u))
  {
    var A, B := Whites(s), Whites(t);
    assert Whites(Open(s, u)) == A - {u};
    assert Whites(Close(t, u)) == B;
    OneMore(A, B, u);
  }

  lemma {:induction false} VisitTicks(g: Adjacency, p: int, u: int, s: State)
    requires WellFormed(g) && Shaped(g, s) && Vertex(g, u) && s.color[u] == White
    requires Settled(s, p) && s.parent[u] == p
    ensures Ticked(g, s, Visit(g, u, s))
    decreases Whites(s), 0, 0
  {
    var s1 := Open(s, u);
    assert Whites(s1) == Whites(s) - {u};
    VisitAllTicks(g, u, g[u], s1);
    VisitAllGrown(g, u, g[u], s1);
    ClosedMarks(g, p, u, s, VisitAll(g, u, g[u], s1));
    ClosedCounts(u, s, VisitAll(g, u, g[u], s1));
  }

  lemma {:induction false} MeetTicks(g: Adjacency, p: int, v: int, s: State)
    requires WellFormed(g) && Shaped(g, s) && Settled(s, p) && Vertex(g, v)
    ensures Ticked(g, s, Meet(g, p, v, s))
    decreases Whites(s), 0, 1
  {
    if s.color[v] == White {
      var s0 := s.(parent := s.parent[v := p]);
      var t := Meet(g, p, v, s);
      assert Whites(s0) == Whites(s);
      VisitTicks(g, p, v, s0);
      forall m | s.time < m <= t.time ensures Borne(s, t, m) {
        assert Borne(s0, t, m);
        var x :| Bears(s0, t, x, m);
        assert Bears(s, t, x, m);
      }
    }
  }

  lemma {:induction false} VisitAllTicks(g: Adjacency, p: int, vs: seq<int>, s: State)
    requires WellFormed(g) && Shaped(g, s) && Settled(s, p) && forall v <- vs :: Vertex(g, v)
    ensures Ticked(g, s, VisitAll(g, p, vs, s))
    decreases Whites(s), |vs|
  {
    if vs != [] {
      var t := Meet(g, p, vs[0], s);
      var r := VisitAll(g, p, vs[1..], t);
      MeetGrown(g, p, vs[0], s);
      MeetTicks(g, p, vs[0], s);
      VisitAllGrown(g, p, vs[1..], t);
      VisitAllTicks(g, p, vs[1..], t);
      CountedTrans(s, t, r);
      MarkedTrans(g, s, t, r);
    }
  }

  ghost function UpTo(n: nat): set<int> {
    if n <= 1 then {} else UpTo(n - 1) + {n - 1}
  }

  lemma {:induction false} UpToCount(n: nat)
    ensures |UpTo(n)| == (if n == 0 then 0 else n - 1)
    ensures forall x :: x in UpTo(n) <==> 1 <= x < n
  {
    if n > 1 {
      UpToCount(n - 1);
    }
  }

  /** Stamp number m belongs to vertex x. */
  ghost predicate Stamps(g: Adjacency, f: State, x: int, m: int)
    requires Shaped(g, f)
  {
    Vertex(g, x) && (f.discover[x] == m || f.finish[x] == m)
  }

  ghost predicate IsStamp(g: Adjacency, f: State, m: int)
    requires Shaped(g, f)
  {
    exists x :: Stamps(g, f, x, m)
  }

  /** The 2n stamps of DFS are a bijection onto 1 .. 2n: the last is 2n, each number
      belongs to some vertex, and no two stamps agree. */
  lemma StampsAreABijection(g: Adjacency, S: seq<int>, s: State)
    requires WellFormed(g) && Shaped(g, s) && IsOrder(g, S)
    ensures Dfs(g, S, s).time == 2 * (|g| - 1)
    ensures forall m :: 1 <= m <= 2 * (|g| - 1) ==> IsStamp(g, Dfs(g, S, s), m)
    ensures forall x, y :: Vertex(g, x) && Vertex(g, y) ==>
              && Dfs(g, S, s).discover[x] != Dfs(g, S, s).finish[y]
              && (Dfs(g, S, s).discover[x] == Dfs(g, S, s).discover[y] ==> x == y)
              && (Dfs(g, S, s).finish[x] == Dfs(g, S, s).finish[y] ==> x == y)
  {
    var s0, f := Reset(s), Dfs(g, S, s);
    DfsIsForest(g, S, s);
    VisitAllTicks(g, NIL, S, s0);
    UpToCount(|g|);
    assert Whites(s0) - Whites(f) == UpTo(|g|) by {
      assert forall x :: x in Whites(f) ==> Vertex(g, x);
    }
    forall m | 1 <= m <= f.time ensures IsStamp(g, f, m) {
      assert Borne(s0, f, m);
      var x :| Bears(s0, f, x, m);
      assert Stamps(g, f, x, m);
    }
  }
}
