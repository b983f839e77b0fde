/** How many arcs a graph has, counted by tails and counted by heads. */
module ArcCounts {
  import opened Digraphs
  import opened SortedLists
  import opened Sums

  /** Neighbour lists in increasing order, without repeats. */
  ghost predicate Canonical(g: Adjacency) {
    forall u :: 0 <= u < |g| ==> StrictlySorted(g[u])
  }

  ghost function ArcCount(g: Adjacency): nat {
    if g == [] then 0 else ArcCount(g[..|g| - 1]) + |g[|g| - 1]|
  }

  lemma {:induction false} ArcCountUpdate(g: Adjacency, u: int, s: seq<int>)
    requires 0 <= u < |g|
    ensures ArcCount(g[u := s]) == ArcCount(g) - |g[u]| + |s|
  {
    var n := |g| - 1;
    if u < n {
      ArcCountUpdate(g[..n], u, s);
      assert g[u := s][..n] == g[..n][u := s];
    } else {
      assert g[u := s][..n] == g[..n];
    }
  }

  lemma {:induction false} EmptyArcCount(g: Adjacency)
    requires forall i :: 0 <= i < |g| ==> g[i] == []
    ensures ArcCount(g) == 0
  {
    if g != [] {
      EmptyArcCount(g[..|g| - 1]);
    }
  }

  function OneIf(b: bool): real {
    if b then 1.0 else 0.0
  }

  function Occurs(s: seq<int>): int -> real {
    v => OneIf(v in s)
  }

  /** A strictly sorted list of vertices is as long as it has vertices. */
  lemma {:induction false} LengthIsTotal(s: seq<int>, n: nat)
    requires StrictlySorted(s) && forall i :: 0 <= i < |s| ==> 1 <= s[i] <= n
    ensures |s| as real == Total(Occurs(s), n)
  {
    if s == [] {
      TotalZero(Occurs(s), n);
    } else {
      var t, last := s[..|s| - 1], s[|s| - 1];
      StrictLast(s);
      LengthIsTotal(t, n);
      assert last in s && last !in t;
      forall v | v != last ensures Occurs(t)(v) == Occurs(s)(v) {
        assert v in t <==> v in s;
      }
      TotalPoint(Occurs(t), Occurs(s), n, last);
    }
  }

  function HasArc(g: Adjacency): (int, int) -> real {
    (u, v) => OneIf(1 <= u < |g| && v in g[u])
  }

  lemma {:induction false} ArcPrefix(g: Adjacency, m: nat)
    requires WellFormed(g) && Canonical(g) && 1 <= m <= |g|
    ensures ArcCount(g[..m]) as real == Total(Inner(HasArc(g), |g| - 1), m - 1)
  {
    var n := |g| - 1;
    assert g[..m][..m - 1] == g[..m - 1];
    if m == 1 {
      assert ArcCount(g[..0]) == 0;
    } else {
      ArcPrefix(g, m - 1);
      var row := g[m - 1];
      forall i | 0 <= i < |row| ensures 1 <= row[i] <= n {
        HeadIsVertex(g, m - 1, i);
      }
      LengthIsTotal(row, n);
      TotalSame(Occurs(g[m - 1]), Along(HasArc(g), m - 1), n);
    }
  }

  lemma ArcCountIsTotal(g: Adjacency)
    requires WellFormed(g) && Canonical(g)
    ensures ArcCount(g) as real == Total(Inner(HasArc(g), |g| - 1), |g| - 1)
  {
    hide Total, ArcCount, Canonical, Inner;
    ArcPrefix(g, |g|);
    assert g[..|g|] == g;
  }

  /** A transpose has as many arcs, so transpose may copy size. */
  lemma TransposeArcCount(g: Adjacency, t: Adjacency)
    requires WellFormed(g) && WellFormed(t) && Canonical(g) && Canonical(t) && Reversed(g, t)
    ensures ArcCount(t) == ArcCount(g)
  {
    hide Total, ArcCount, Canonical, Inner;
    var n := |g| - 1;
    ArcCountIsTotal(g);
    ArcCountIsTotal(t);
    Interchange(HasArc(g), n, n);
    forall v | 1 <= v <= n ensures Inner(Flip(HasArc(g)), n)(v) == Inner(HasArc(t), n)(v) {
      SameHeads(g, t, v);
    }
    TotalSame(Inner(Flip(HasArc(g)), n), Inner(HasArc(t), n), n);
  }

  lemma SameHeads(g: Adjacency, t: Adjacency, v: int)
    requires Reversed(g, t) && WellFormed(g) && WellFormed(t) && Vertex(g, v)
    ensures Inner(Flip(HasArc(g)), |g| - 1)(v) == Inner(HasArc(t), |g| - 1)(v)
  {
    forall u | 1 <= u <= |g| - 1 ensures Along(Flip(HasArc(g)), v)(u) == Along(HasArc(t), v)(u) {
      assert Arc(t, v, u) <==> Arc(g, u, v);
    }
    TotalSame(Along(Flip(HasArc(g)), v), Along(HasArc(t), v), |g| - 1);
  }
}
