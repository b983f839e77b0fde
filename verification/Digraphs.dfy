/** Directed graphs as adjacency lists, and reachability in them. */
module Digraphs {

  /** g[u] lists the heads of the arcs that leave u.  Vertices are 1 .. |g|-1;
      slot 0 is not a vertex, as in the source's arrays. */
  type Adjacency = seq<seq<int>>

  const NIL := 0

  /** The marks of both searches. */
  datatype Color = White | Gray | Black

  predicate Vertex(g: Adjacency, v: int) {
    1 <= v < |g|
  }

  ghost predicate WellFormed(g: Adjacency) {
    && |g| >= 1 && g[0] == []
    && forall u, v :: Vertex(g, u) && v in g[u] ==> Vertex(g, v)
  }

  ghost predicate Arc(g: Adjacency, u: int, v: int) {
    Vertex(g, u) && Vertex(g, v) && v in g[u]
  }

  lemma HeadIsVertex(g: Adjacency, u: int, k: int)
    requires WellFormed(g) && Vertex(g, u) && 0 <= k < |g[u]|
    ensures Vertex(g, g[u][k])
  {
    assert g[u][k] in g[u];
  }

  ghost predicate IsPath(g: Adjacency, p: seq<int>, a: int, b: int) {
    && |p| > 0 && p[0] == a && p[|p| - 1] == b
    && (forall i :: 0 <= i < |p| ==> Vertex(g, p[i]))
    && (forall i :: 0 <= i < |p| - 1 ==> Arc(g, p[i], p[i + 1]))
  }

  ghost predicate Reach(g: Adjacency, a: int, b: int) {
    exists p :: IsPath(g, p, a, b)
  }

  ghost predicate Mutual(g: Adjacency, a: int, b: int) {
    Reach(g, a, b) && Reach(g, b, a)
  }

  lemma PathConcat(g: Adjacency, p: seq<int>, q: seq<int>, a: int, b: int, c: int)
    requires IsPath(g, p, a, b) && IsPath(g, q, b, c)
    ensures IsPath(g, p + q[1..], a, c)
  {
    var r := p + q[1..];
    forall i | 0 <= i < |r|
      ensures Vertex(g, r[i]) && (i < |r| - 1 ==> Arc(g, r[i], r[i + 1]))
    {
      if i >= |p| - 1 {
        assert r[i] == q[i - |p| + 1];
        assert i < |r| - 1 ==> r[i + 1] == q[i - |p| + 2];
      }
    }
  }

  lemma ReachRefl(g: Adjacency, a: int)
    requires Vertex(g, a)
    ensures Reach(g, a, a)
  {
    assert IsPath(g, [a], a, a);
  }

  lemma ReachArc(g: Adjacency, a: int, b: int)
    requires Arc(g, a, b)
    ensures Reach(g, a, b)
  {
    assert IsPath(g, [a, b], a, b);
  }

  lemma ReachTrans(g: Adjacency, a: int, b: int, c: int)
    requires Reach(g, a, b) && Reach(g, b, c)
    ensures Reach(g, a, c)
  {
    var p :| IsPath(g, p, a, b);
    var q :| IsPath(g, q, b, c);
    PathConcat(g, p, q, a, b, c);
  }

  /** The same vertices, every arc reversed. */
  ghost predicate Reversed(g: Adjacency, t: Adjacency) {
    && |t| == |g|
    && forall u, v :: Arc(t, v, u) <==> Arc(g, u, v)
  }

  function Backwards(p: seq<int>): (r: seq<int>)
    ensures |r| == |p|
    ensures forall i :: 0 <= i < |p| ==> r[i] == p[|p| - 1 - i]
  {
    if p == [] then [] else Backwards(p[1..]) + [p[0]]
  }

  lemma ReversedReach(g: Adjacency, t: Adjacency, a: int, b: int)
    requires Reversed(g, t) && Reach(t, a, b)
    ensures Reach(g, b, a)
  {
    var p :| IsPath(t, p, a, b);
    var r := Backwards(p);
    forall i | 0 <= i < |r| - 1
      ensures Arc(g, r[i], r[i + 1])
    {
      assert Arc(t, p[|p| - 2 - i], p[|p| - 2 - i + 1]);
    }
    assert IsPath(g, r, b, a);
  }

  lemma ReversedReachIff(g: Adjacency, t: Adjacency, a: int, b: int)
    requires Reversed(g, t)
    ensures Reach(t, a, b) <==> Reach(g, b, a)
  {
    if Reach(t, a, b) {
      ReversedReach(g, t, a, b);
    }
    if Reach(g, b, a) {
      ReversedReach(t, g, b, a);
    }
  }
}
