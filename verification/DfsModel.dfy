/** What the depth-first search of Graph.c computes, as functions on snapshots of
    its arrays, and what one visit does to them. */
module DfsModel {
  import opened Digraphs

  const UNDEF := -1

  datatype State = State(
    color: seq<Color>,
    parent: seq<int>,
    discover: seq<int>,
    finish: seq<int>,
    time: int)

  predicate Shaped(g: Adjacency, s: State) {
    |s.color| == |s.parent| == |s.discover| == |s.finish| == |g|
  }

  ghost function Whites(s: State): set<int> {
    set x | 1 <= x < |s.color| && s.color[x] == White
  }

  function Open(s: State, u: int): (r: State)
    requires 0 <= u < |s.color| == |s.discover|
  {
    s.(time := s.time + 1, discover := s.discover[u := s.time + 1], color := s.color[u := Gray])
  }

  function Close(s: State, u: int): (r: State)
    requires 0 <= u < |s.color| == |s.finish|
  {
    s.(time := s.time + 1, finish := s.finish[u := s.time + 1], color := s.color[u := Black])
  }

  /** DFS_Visit(u). */
  ghost function Visit(g: Adjacency, u: int, s: State): (r: State)
    requires WellFormed(g) && Shaped(g, s) && Vertex(g, u) && s.color[u] == White
    ensures Shaped(g, r) && Whites(r) <= Whites(s) - {u}
    decreases Whites(s), 0, 0
  {
    assert Whites(Open(s, u)) == Whites(s) - {u};
    var t := VisitAll(g, u, g[u], Open(s, u));
    assert Whites(Close(t, u)) <= Whites(t);
    Close(t, u)
  }

  /** The loop over a vertex list: every white vertex met becomes a child of p and
      is visited.  The loop of DFS over S is this with p = NIL. */
  ghost function VisitAll(g: Adjacency, p: int, vs: seq<int>, s: State): (r: State)
    requires WellFormed(g) && Shaped(g, s) && forall v <- vs :: Vertex(g, v)
    ensures Shaped(g, r) && Whites(r) <= Whites(s)
    decreases Whites(s), |vs|
  {
    if vs == [] then s
    else
      var t := Meet(g, p, vs[0], s);
      VisitAll(g, p, vs[1..], t)
  }

  /** One round of that loop. */
  ghost function Meet(g: Adjacency, p: int, v: int, s: State): (r: State)
    requires WellFormed(g) && Shaped(g, s) && Vertex(g, v)
    ensures Shaped(g, r) && Whites(r) <= Whites(s) - {v}
    decreases Whites(s), 0, 1
  {
    if s.color[v] == White then
      var t := s.(parent := s.parent[v := p]);
      assert Whites(t) == Whites(s);
      Visit(g, v, t)
    else s
  }

  /** x was white in s and is not any more in t. */
  ghost predicate New(s: State, t: State, x: int) {
    1 <= x < |s.color| && x < |t.color| && s.color[x] == White && t.color[x] != White
  }

  /** Vertex x keeps all its fields. */
  ghost predicate Same(g: Adjacency, s: State, t: State, x: int)
    requires Shaped(g, s) && Shaped(g, t) && Vertex(g, x)
  {
    && t.color[x] == s.color[x] && t.parent[x] == s.parent[x]
    && t.discover[x] == s.discover[x] && t.finish[x] == s.finish[x]
  }

  /** Two intervals are nested or disjoint, with all four stamps different. */
  predicate Parenthesised(d1: int, f1: int, d2: int, f2: int) {
    || f1 < d2
    || f2 < d1
    || (d1 < d2 && f2 < f1)
    || (d2 < d1 && f1 < f2)
  }

  /** Vertices that are not newly visited keep their fields. */
  ghost predicate Kept(g: Adjacency, s: State, t: State)
    requires Shaped(g, s) && Shaped(g, t)
  {
    s.time <= t.time && forall x :: Vertex(g, x) && !New(s, t, x) ==> Same(g, s, t, x)
  }

  /** New vertices end black, stamped within the time that passed. */
  ghost predicate Stamped(g: Adjacency, s: State, t: State)
    requires Shaped(g, s) && Shaped(g, t)
  {
    forall x :: New(s, t, x) ==>
      t.color[x] == Black && s.time < t.discover[x] < t.finish[x] <= t.time
  }

  /** The parenthesis theorem, for the new vertices. */
  ghost predicate Nested(g: Adjacency, s: State, t: State)
    requires Shaped(g, s) && Shaped(g, t)
  {
    forall x, y :: New(s, t, x) && New(s, t, y) && x != y ==>
      Parenthesised(t.discover[x], t.finish[x], t.discover[y], t.finish[y])
  }

  /** No arc from a new vertex leads to a white one, and one that leads to a new
      vertex is met before its tail finishes. */
  ghost predicate ArcsMet(g: Adjacency, s: State, t: State)
    requires Shaped(g, s) && Shaped(g, t)
  {
    forall x, y :: New(s, t, x) && Arc(g, x, y) ==>
      t.color[y] != White && (New(s, t, y) ==> t.discover[y] < t.finish[x])
  }

  /** A new vertex is a child of p or, by an arc, of a new vertex around it. */
  ghost predicate TreeArcs(g: Adjacency, p: int, s: State, t: State)
    requires Shaped(g, s) && Shaped(g, t)
  {
    forall x {:trigger t.parent[x]} :: New(s, t, x) && t.parent[x] != p ==>
      ChildOf(g, s, t, t.parent[x], x)
  }

  ghost predicate ChildOf(g: Adjacency, s: State, t: State, z: int, x: int)
    requires Shaped(g, s) && Shaped(g, t)
  {
    && New(s, t, z) && New(s, t, x) && Arc(g, z, x)
    && t.discover[z] < t.discover[x] && t.finish[x] < t.finish[z]
  }

  /** The parent's interval is the innermost one around a vertex. */
  ghost predicate Innermost(g: Adjacency, s: State, t: State)
    requires Shaped(g, s) && Shaped(g, t)
  {
    forall x, y {:trigger t.parent[x], t.discover[y]} ::
      New(s, t, x) && New(s, t, y) && t.discover[y] < t.discover[x] < t.finish[y] ==>
      New(s, t, t.parent[x]) && t.discover[y] <= t.discover[t.parent[x]]
  }

  /** How visits take s to t, when the vertices they start from become children of p. */
  ghost predicate Grown(g: Adjacency, p: int, s: State, t: State)
    requires Shaped(g, s) && Shaped(g, t)
  {
    Kept(g, s, t) && Stamped(g, s, t) && Nested(g, s, t) && ArcsMet(g, s, t) && TreeArcs(g, p, s, t) && Innermost(g, s, t)
  }

  lemma GrownRefl(g: Adjacency, p: int, s: State)
    requires Shaped(g, s)
    ensures Grown(g, p, s, s)
  {
  }

  lemma NewSplit(g: Adjacency, s: State, t: State, r: State)
    requires Shaped(g, s) && Shaped(g, t) && Shaped(g, r)
    requires Kept(g, s, t) && Kept(g, t, r) && Stamped(g, s, t)
    ensures forall x :: New(s, r, x) <==> New(s, t, x) || New(t, r, x)
    ensures forall x :: New(s, t, x) ==> !New(t, r, x) && Same(g, t, r, x)
    ensures forall x :: New(t, r, x) ==> !New(s, t, x) && Same(g, s, t, x)
    ensures Kept(g, s, r)
  {
    forall x | Vertex(g, x)
      ensures New(s, r, x) <==> New(s, t, x) || New(t, r, x)
      ensures New(s, t, x) ==> !New(t, r, x) && Same(g, t, r, x)
      ensures New(t, r, x) ==> !New(s, t, x) && Same(g, s, t, x)
      ensures !New(s, r, x) ==> Same(g, s, r, x)
    {
      assert !New(s, t, x) ==> Same(g, s, t, x);
      assert !New(t, r, x) ==> Same(g, t, r, x);
    }
  }

  lemma NestedTrans(g: Adjacency, s: State, t: State, r: State)
    requires Shaped(g, s) && Shaped(g, t) && Shaped(g, r)
    requires Kept(g, s, t) && Stamped(g, s, t) && Nested(g, s, t)
    requires Kept(g, t, r) && Stamped(g, t, r) && Nested(g, t, r)
    ensures Stamped(g, s, r) && Nested(g, s, r)
  {
    NewSplit(g, s, t, r);
  }

  lemma ArcsMetTrans(g: Adjacency, s: State, t: State, r: State)
    requires Shaped(g, s) && Shaped(g, t) && Shaped(g, r)
    requires Kept(g, s, t) && Stamped(g, s, t) && ArcsMet(g, s, t)
    requires Kept(g, t, r) && Stamped(g, t, r) && ArcsMet(g, t, r)
    ensures ArcsMet(g, s, r)
  {
    NewSplit(g, s, t, r);
    forall x, y | New(s, r, x) && Arc(g, x, y)
      ensures r.color[y] != White && (New(s, r, y) ==> r.discover[y] < r.finish[x])
    {
      if New(s, t, x) {
        assert t.color[y] != White;
        assert !New(t, r, y) && Same(g, t, r, y);
      } else {
        assert New(t, r, x);
        if New(s, t, y) {
          assert Same(g, t, r, y);
        }
      }
    }
  }

  lemma TreeTrans(g: Adjacency, p: int, s: State, t: State, r: State)
    requires Shaped(g, s) && Shaped(g, t) && Shaped(g, r)
    requires Kept(g, s, t) && Stamped(g, s, t) && TreeArcs(g, p, s, t)
    requires Kept(g, t, r) && Stamped(g, t, r) && TreeArcs(g, p, t, r)
    requires !New(s, r, p)
    ensures TreeArcs(g, p, s, r)
  {
    NewSplit(g, s, t, r);
    forall x | New(s, r, x) && r.parent[x] != p
      ensures ChildOf(g, s, r, r.parent[x], x)
    {
      if New(s, t, x) {
        assert ChildOf(g, s, t, t.parent[x], x);
      } else {
        assert ChildOf(g, t, r, r.parent[x], x);
      }
    }
  }

  lemma InnermostTrans(g: Adjacency, s: State, t: State, r: State)
    requires Shaped(g, s) && Shaped(g, t) && Shaped(g, r)
    requires Kept(g, s, t) && Stamped(g, s, t) && Innermost(g, s, t)
    requires Kept(g, t, r) && Stamped(g, t, r) && Innermost(g, t, r)
    ensures Innermost(g, s, r)
  {
    NewSplit(g, s, t, r);
    forall x, y | New(s, r, x) && New(s, r, y) && r.discover[y] < r.discover[x] < r.finish[y]
      ensures New(s, r, r.parent[x]) && r.discover[y] <= r.discover[r.parent[x]]
    {
      if New(s, t, x) {
        assert New(s, t, y);
        assert New(s, t, t.parent[x]);
      } else {
        assert New(t, r, y);
      }
    }
  }

  lemma GrownTrans(g: Adjacency, p: int, s: State, t: State, r: State)
    requires Shaped(g, s) && Shaped(g, t) && Shaped(g, r)
    requires Grown(g, p, s, t) && Grown(g, p, t, r) && !New(s, r, p)
    ensures Grown(g, p, s, r)
  {
    NewSplit(g, s, t, r);
    NestedTrans(g, s, t, r);
    ArcsMetTrans(g, s, t, r);
    TreeTrans(g, p, s, t, r);
    InnermostTrans(g, s, t, r);
  }

  /** Of the new vertices only u may be a child of p. */
  ghost predicate OnlyChild(p: int, u: int, s: State, t: State)
    requires |t.parent| == |t.color|
  {
    forall x :: New(s, t, x) && x != u ==> t.parent[x] != p
  }

  /** p is no white vertex, so nothing that happens makes it new. */
  predicate Settled(s: State, p: int) {
    1 <= p < |s.color| ==> s.color[p] != White
  }

  /** The white-path theorem's raw form: everything a visit of u does. */
  lemma {:induction false} VisitGrown(g: Adjacency, p: int, u: int, s: State)
    requires WellFormed(g) && Shaped(g, s) && Vertex(g, u) && s.color[u] == White
    requires Settled(s, p) && s.parent[u] == p
    ensures Grown(g, p, s, Visit(g, u, s)) && New(s, Visit(g, u, s), u)
    ensures Visit(g, u, s).parent[u] == p && OnlyChild(p, u, s, Visit(g, u, s))
    decreases Whites(s), 0, 0
  {
    var s1 := Open(s, u);
    assert Whites(s1) == Whites(s) - {u};
    var t := VisitAll(g, u, g[u], s1);
    VisitAllGrown(g, u, g[u], s1);
    assert Same(g, s1, t, u);
    ClosedKept(g, p, u, s, t);
    ClosedNested(g, p, u, s, t);
    ClosedTree(g, p, u, s, t);
    ClosedInnermost(g, p, u, s, t);
  }

  ghost predicate VisitBody(g: Adjacency, p: int, u: int, s: State, t: State) {
    && WellFormed(g) && Shaped(g, s) && Shaped(g, t) && Vertex(g, u)
    && s.color[u] == White && s.parent[u] == p && Settled(s, p)
    && Grown(g, u, Open(s, u), t)
    && (forall v :: Arc(g, u, v) ==> t.color[v] != White)
    && (forall x :: New(Open(s, u), t, x) && t.parent[x] == u ==> x in g[u])
  }

  lemma ClosedKept(g: Adjacency, p: int, u: int, s: State, t: State)
    requires VisitBody(g, p, u, s, t)
    ensures forall x :: New(s, Close(t, u), x) <==> x == u || New(Open(s, u), t, x)
    ensures forall x :: New(Open(s, u), t, x) ==> Same(g, t, Close(t, u), x)
    ensures Close(t, u).parent[u] == p && Close(t, u).discover[u] == s.time + 1
    ensures Kept(g, s, Close(t, u)) && Stamped(g, s, Close(t, u))
  {
    var s1, r := Open(s, u), Close(t, u);
    assert !New(s1, t, u) && Same(g, s1, t, u);
    forall x | Vertex(g, x) && !New(s, r, x) ensures Same(g, s, r, x) {
      assert !New(s1, t, x) && Same(g, s1, t, x);
    }
  }

  lemma ClosedNested(g: Adjacency, p: int, u: int, s: State, t: State)
    requires VisitBody(g, p, u, s, t)
    ensures Nested(g, s, Close(t, u)) && ArcsMet(g, s, Close(t, u))
  {
    ClosedKept(g, p, u, s, t);
  }

  lemma ClosedTree(g: Adjacency, p: int, u: int, s: State, t: State)
    requires VisitBody(g, p, u, s, t)
    ensures TreeArcs(g, p, s, Close(t, u)) && OnlyChild(p, u, s, Close(t, u))
  {
    ClosedKept(g, p, u, s, t);
    var s1, r := Open(s, u), Close(t, u);
    forall x | New(s, r, x) && x != u
      ensures r.parent[x] != p && ChildOf(g, s, r, r.parent[x], x)
    {
      assert New(s1, t, x);
      assert r.parent[x] != u ==> ChildOf(g, s1, t, r.parent[x], x);
      assert r.parent[x] == u ==> Arc(g, u, x);
    }
  }

  lemma ClosedInnermost(g: Adjacency, p: int, u: int, s: State, t: State)
    requires VisitBody(g, p, u, s, t)
    ensures Innermost(g, s, Close(t, u))
  {
    ClosedKept(g, p, u, s, t);
    var s1, r := Open(s, u), Close(t, u);
    forall x, y | New(s, r, x) && New(s, r, y) && r.discover[y] < r.discover[x] < r.finish[y]
      ensures New(s, r, r.parent[x]) && r.discover[y] <= r.discover[r.parent[x]]
    {
      assert New(s1, t, x);
      if y == u {
        assert r.parent[x] != u ==> ChildOf(g, s1, t, r.parent[x], x);
      } else {
        assert New(s1, t, t.parent[x]);
      }
    }
  }

  /** The parent that v gets before its visit does not show. */
  lemma GrownFromParent(g: Adjacency, p: int, v: int, s: State, s0: State, t: State)
    requires Shaped(g, s) && Shaped(g, t) && Vertex(g, v) && s0 == s.(parent := s.parent[v := p])
    requires Grown(g, p, s0, t) && New(s0, t, v)
    ensures Grown(g, p, s, t) && forall x :: New(s, t, x) <==> New(s0, t, x)
  {
    assert Kept(g, s, t) by {
      assert forall x :: Vertex(g, x) && !New(s, t, x) ==> Same(g, s0, t, x);
    }
    forall x | New(s, t, x) && t.parent[x] != p
      ensures ChildOf(g, s, t, t.parent[x], x)
    {
      assert ChildOf(g, s0, t, t.parent[x], x);
    }
  }

  lemma {:induction false} MeetGrown(g: Adjacency, p: int, v: int, s: State)
    requires WellFormed(g) && Shaped(g, s) && Vertex(g, v) && Settled(s, p)
    ensures Grown(g, p, s, Meet(g, p, v, s)) && Meet(g, p, v, s).color[v] != White
    ensures Settled(Meet(g, p, v, s), p)
    ensures New(s, Meet(g, p, v, s), v) ==> Meet(g, p, v, s).parent[v] == p
    ensures OnlyChild(p, v, s, Meet(g, p, v, s))
    decreases Whites(s), 0, 1
  {
    hide Stamped, Nested, ArcsMet, TreeArcs, Innermost;
    if s.color[v] == White {
      var s0 := s.(parent := s.parent[v := p]);
      assert Whites(s0) == Whites(s);
      VisitGrown(g, p, v, s0);
      GrownFromParent(g, p, v, s, s0, Visit(g, v, s0));
    } else {
      GrownRefl(g, p, s);
    }
    assert Vertex(g, p) ==> !New(s, Meet(g, p, v, s), p) && Same(g, s, Meet(g, p, v, s), p);
  }

  lemma {:induction false} VisitAllGrown(g: Adjacency, p: int, vs: seq<int>, s: State)
    requires WellFormed(g) && Shaped(g, s) && Settled(s, p) && forall v <- vs :: Vertex(g, v)
    ensures Grown(g, p, s, VisitAll(g, p, vs, s))
    ensures forall v <- vs :: VisitAll(g, p, vs, s).color[v] != White
    ensures forall x :: New(s, VisitAll(g, p, vs, s), x) && VisitAll(g, p, vs, s).parent[x] == p ==> x in vs
    decreases Whites(s), |vs|
  {
    if vs == [] {
      GrownRefl(g, p, s);
    } else {
      var t := Meet(g, p, vs[0], s);
      var r := VisitAll(g, p, vs[1..], t);
      MeetGrown(g, p, vs[0], s);
      VisitAllGrown(g, p, vs[1..], t);
      assert !New(s, r, p);
      GrownTrans(g, p, s, t, r);
      NewSplit(g, s, t, r);
      assert !New(t, r, vs[0]) && Same(g, t, r, vs[0]);
      forall v <- vs ensures r.color[v] != White {
        assert v != vs[0] ==> v in vs[1..];
      }
    }
  }

  /** A child of p is discovered after all that stands before it in the list. */
  ghost predicate TakenInOrder(p: int, vs: seq<int>, s: State, t: State)
    requires |t.parent| == |t.discover| == |t.color|
  {
    forall i, j :: 0 <= i < j < |vs| && vs[j] !in vs[..j]
                   && New(s, t, vs[i]) && New(s, t, vs[j]) && t.parent[vs[j]] == p ==>
      t.discover[vs[i]] < t.discover[vs[j]]
  }

  lemma FirstOccurrence(vs: seq<int>, j: nat)
    requires 0 < j < |vs| && vs[j] !in vs[..j]
    ensures vs[j] != vs[0] && vs[1..][j - 1] == vs[j] && vs[1..][j - 1] !in vs[1..][..j - 1]
  {
    assert vs[0] in vs[..j];
    assert vs[1..][..j - 1] == vs[..j][1..];
  }

  /** The list goes on after its first vertex. */
  lemma TakenNext(g: Adjacency, p: int, vs: seq<int>, s: State, t: State, r: State, i: nat, j: nat)
    requires vs != [] && Vertex(g, vs[0]) && Shaped(g, s) && Shaped(g, t) && Shaped(g, r)
    requires Kept(g, s, t) && Kept(g, t, r) && Stamped(g, s, t) && Stamped(g, t, r)
    requires OnlyChild(p, vs[0], s, t) && t.color[vs[0]] != White && TakenInOrder(p, vs[1..], t, r)
    requires i < j < |vs| && vs[j] !in vs[..j] && New(s, r, vs[i]) && New(s, r, vs[j]) && r.parent[vs[j]] == p
    ensures r.discover[vs[i]] < r.discover[vs[j]]
  {
    NewSplit(g, s, t, r);
    FirstOccurrence(vs, j);
    assert New(t, r, vs[j]);
    if New(s, t, vs[i]) {
      assert Same(g, t, r, vs[i]);
    } else {
      assert i > 0 && vs[1..][i - 1] == vs[i];
    }
  }

  lemma {:induction false} VisitAllInOrder(g: Adjacency, p: int, vs: seq<int>, s: State)
    requires WellFormed(g) && Shaped(g, s) && Settled(s, p) && forall v <- vs :: Vertex(g, v)
    ensures TakenInOrder(p, vs, s, VisitAll(g, p, vs, s))
    decreases |vs|
  {
    hide Nested, ArcsMet, TreeArcs, Innermost, Kept, Stamped, OnlyChild;
    if vs != [] {
      var t := Meet(g, p, vs[0], s);
      var r := VisitAll(g, p, vs[1..], t);
      MeetGrown(g, p, vs[0], s);
      VisitAllGrown(g, p, vs[1..], t);
      VisitAllInOrder(g, p, vs[1..], t);
      forall i, j | 0 <= i < j < |vs| && vs[j] !in vs[..j]
                    && New(s, r, vs[i]) && New(s, r, vs[j]) && r.parent[vs[j]] == p
        ensures r.discover[vs[i]] < r.discover[vs[j]]
      {
        TakenNext(g, p, vs, s, t, r, i, j);
      }
    }
  }
}
