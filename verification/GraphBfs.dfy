/** Graph.c of the breadth-first-search project. */
module GraphBfs {
  import opened Lists
  import opened ListArrays
  import opened Digraphs
  import opened SortedLists
  import opened ArcCounts
  import opened ShortestPaths
  import opened BfsQueue

  /** The graph with one more arc from u to v; repeats are kept. */
  function WithArc(g: Adjacency, u: int, v: int): (r: Adjacency)
    requires Vertex(g, u)
  {
    g[u := SortedInsert(g[u], v)]
  }

  lemma WithArcAdds(g: Adjacency, u: int, v: int)
    requires WellFormed(g) && Vertex(g, u) && Vertex(g, v)
    ensures WellFormed(WithArc(g, u, v)) && |WithArc(g, u, v)| == |g|
    ensures forall x, y :: Arc(WithArc(g, u, v), x, y) <==> Arc(g, x, y) || (x == u && y == v)
  {
    SortedInsertAdds(g[u], v);
    var h := WithArc(g, u, v);
    forall x, y | Vertex(h, x) && y in h[x] ensures Vertex(h, y) {
      assert Vertex(g, x);
      if x != u || y != v {
        assert y in g[x];
      }
      assert Vertex(g, y);
    }
  }

  /** Every neighbour list is in ascending order; repeats are allowed. */
  ghost predicate Ascending(g: Adjacency) {
    forall u :: 0 <= u < |g| ==> Sorted(g[u])
  }

  /** b is a with one more v, and nothing else. */
  ghost predicate OneMore(a: seq<int>, b: seq<int>, v: int) {
    multiset(b) == multiset(a) + multiset{v}
  }

  /** The list of u gains v, once more if it was there, stays in order, and no other
      list changes. */
  lemma WithArcOrdered(g: Adjacency, u: int, v: int)
    requires Ascending(g) && Vertex(g, u)
    ensures |WithArc(g, u, v)| == |g| && Ascending(WithArc(g, u, v)) && OneMore(g[u], WithArc(g, u, v)[u], v)
    ensures forall x :: 0 <= x < |g| && x != u ==> WithArc(g, u, v)[x] == g[x]
  {
    SortedInsertKeeps(g[u], v);
    SortedInsertCounts(g[u], v);
  }

  /** New arcs do not spoil a tree. */
  lemma TreeStays(g: Adjacency, h: Adjacency, s: int, m: Marks)
    requires Tree(g, s, m) && |h| == |g| && forall x, y :: Arc(g, x, y) ==> Arc(h, x, y)
    ensures Tree(h, s, m)
  {
    forall v | Vertex(h, v) ensures ParentFits(h, s, m, v) {
      assert ParentFits(g, s, m, v);
    }
  }

  lemma ArcAdded(g: Adjacency, u: int, v: int, s: int, m: Marks)
    requires WellFormed(g) && Vertex(g, u) && Vertex(g, v) && (s != NIL ==> Tree(g, s, m))
    ensures WellFormed(WithArc(g, u, v)) && |WithArc(g, u, v)| == |g|
    ensures ArcCount(WithArc(g, u, v)) == ArcCount(g) + 1 && (s != NIL ==> Tree(WithArc(g, u, v), s, m))
  {
    WithArcAdds(g, u, v);
    SortedInsertAdds(g[u], v);
    ArcCountUpdate(g, u, SortedInsert(g[u], v));
    if s != NIL {
      TreeStays(g, WithArc(g, u, v), s, m);
    }
  }

  class Graph {
    const order: nat
    var size: int
    var source: int
    const neighbors: ListArray<int>
    const color: array<Color>
    const parent: array<int>
    const distance: array<int>
    ghost var met: seq<Meeting>  // what the last BFS took into its queue, in order

    ghost function Adj(): Adjacency
      reads neighbors
    {
      neighbors.Rows
    }

    ghost function Snapshot(): Marks
      reads color, distance, parent
    {
      Marks(color[..], distance[..], parent[..])
    }

    ghost predicate Sized()
      reads neighbors
    {
      && |neighbors.lists| == order + 1 == |Adj()| && !neighbors.deletes
      && color.Length == parent.Length == distance.Length == order + 1
      && parent != distance && WellFormed(Adj())
    }

    ghost predicate Sound()
      reads neighbors, neighbors.Nodes, neighbors.Lists
    {
      Sized() && neighbors.Sound()
    }

    /** Once BFS has run, parents and distances make a tree.  `size` counts the arcs,
        and the neighbour lists ascend. */
    ghost predicate Valid()
      reads this, color, parent, distance
      reads neighbors, neighbors.Nodes, neighbors.Lists
    {
      Sound() && size == ArcCount(Adj()) && Ascending(Adj()) && (source != NIL ==> Tree(Adj(), source, Snapshot()))
    }

    /** newGraph. */
    constructor (n: nat)
      ensures Valid() && order == n && size == 0 && source == NIL && Adj() == seq(n + 1, _ => [])
      ensures forall i :: 1 <= i <= n ==> color[i] == White && parent[i] == NIL && distance[i] == INF
      ensures fresh(neighbors) && fresh(neighbors.Lists) && fresh(neighbors.Nodes)
      ensures fresh(color) && fresh(parent) && fresh(distance)
    {
      hide ListArray.Sound;
      order, size, source, met := n, 0, NIL, [];
      color := new Color[n + 1](_ => White);
      parent := new int[n + 1](_ => NIL);
      distance := new int[n + 1](i => if i == 0 then 0 else INF);
      neighbors := new ListArray<int>(n + 1, false);
      new;
      EmptyArcCount(Adj());
    }

    lemma InFrame(u: int)
      requires Sound() && Vertex(Adj(), u)
      ensures 1 <= u <= order && Sized() && neighbors.Sound() && !neighbors.deletes && |neighbors.lists| == |Adj()| == order + 1
      ensures neighbors.At(u) in neighbors.Lists && neighbors.At(u).Repr <= neighbors.Nodes
    {
    }

    lemma SoundAgain()
      requires Sized() && neighbors.Sound()
      ensures Sound()
    {
    }

    twostate lemma ListsKept()
      requires old(Sound())
      requires unchanged(neighbors) && unchanged(neighbors.Lists) && unchanged(old(neighbors.Nodes))
      ensures Sound()
    {
      neighbors.Kept();
    }

    /** The list part of addArc. */
    method Link(u: int, v: int)
      requires Sound() && Vertex(Adj(), u) && Vertex(Adj(), v)
      modifies neighbors, neighbors.At(u), neighbors.At(u).Repr
      ensures Sound() && fresh(neighbors.Nodes - old(neighbors.Nodes))
      ensures Adj() == WithArc(old(Adj()), u, v)
    {
      hide List.Linked, List.CursorAgrees, ListArray.Sound, ListArray.SoundBut, SortedInsert;
      neighbors.InFrame(u);
      WithArcAdds(Adj(), u, v);
      InsertAgain(neighbors.At(u), v);
      neighbors.OthersKept(u);
      neighbors.Adopt(u);
    }

    /** addArc: into the sorted list of u, and nowhere else. */
    method AddArc(u: int, v: int)
      requires Valid() && Vertex(Adj(), u) && Vertex(Adj(), v)
      modifies this`size, neighbors, neighbors.At(u), neighbors.At(u).Repr
      ensures Valid() && fresh(neighbors.Nodes - old(neighbors.Nodes))
      ensures Adj() == WithArc(old(Adj()), u, v) && size == old(size) + 1
      ensures |Adj()| == old(|Adj()|) && OneMore(old(Adj()[u]), Adj()[u], v)
      ensures forall x :: 0 <= x < |Adj()| && x != u ==> Adj()[x] == old(Adj()[x])
    {
      hide ListArray.Sound, Tree, ArcCount, WithArc, Ascending, OneMore;
      WithArcOrdered(Adj(), u, v);
      ArcAdded(Adj(), u, v, source, Snapshot());
      Link(u, v);
      size := size + 1;
    }

    /** l is none of the graph's own lists. */
    ghost predicate Apart(l: List<int>)
      reads neighbors, l`Repr
    {
      l !in neighbors.Lists && l.Repr !! neighbors.Nodes
    }

    /** The first lines of BFS. */
    method Reset(s: int)
      requires Sound() && Vertex(Adj(), s)
      modifies this`source, this`met, color, distance, parent
      ensures Sound() && source == s && Queueing(Adj(), s, Snapshot(), [s], 0, met)
    {
      hide ListArray.Sound;
      for i := 1 to order + 1
        invariant forall k :: 1 <= k < i ==> color[k] == White && distance[k] == INF && parent[k] == NIL
      {
        color[i] := White;
        distance[i] := INF;
        parent[i] := NIL;
      }
      color[s] := Gray;
      distance[s] := 0;
      source, met := s, [Meeting(s, 0, 0)];
      ListsKept();
      StartQueueing(Adj(), s, Snapshot());
    }

    /** The updates of v, a white neighbour of u. */
    method Mark(u: int, v: int)
      requires Sound() && Vertex(Adj(), u) && Vertex(Adj(), v)
      modifies color, distance, parent
      ensures Sound() && |old(Snapshot()).color| == |Adj()| && Shaped(Adj(), old(Snapshot()))
      ensures Snapshot() == Discover(old(Snapshot()), u, v)
      ensures old(color[v]) == White ==> Unfinished(Snapshot()) == old(Unfinished(Snapshot()))
    {
      hide ListArray.Sound;
      color[v] := Gray;
      distance[v] := distance[u] + 1;
      parent[v] := u;
      ListsKept();
    }

    /** The body of the inner loop of BFS, for the neighbour v of u. */
    method Meet(u: int, v: int, l: List<int>, ghost Q: seq<int>, ghost k: nat) returns (ghost R: seq<int>)
      requires Sound() && l.Valid() && Apart(l)
      requires Next(Adj(), Q, k, v) && Q[0] == u && l.Contents == Q[1..]
      requires Queueing(Adj(), source, Snapshot(), Q, k, met)
      modifies this`met, color, distance, parent, l, l.Repr
      ensures Sound() && l.Valid() && Apart(l) && fresh(l.Repr - old(l.Repr))
      ensures R != [] && R[0] == u && l.Contents == R[1..]
      ensures Queueing(Adj(), source, Snapshot(), R, k + 1, met)
      ensures Unfinished(Snapshot()) == old(Unfinished(Snapshot()))
    {
      hide Sound, Sized, ListArray.Sound, List.Linked, List.CursorAgrees, Queueing, Discover, Unfinished;
      R := Q;
      InFrame(u);
      QueueingShape(Adj(), source, Snapshot(), Q, k, met);
      if color[v] == White {
        DiscoverQueueing(Adj(), source, Snapshot(), Q, k, met, v);
        Mark(u, v);
        met := met + [Meeting(v, |met| - |Q|, k)];
        label marked:
        l.Append(v);
        ListsKept@marked();
        R := Q + [v];
      } else {
        SkipQueueing(Adj(), source, Snapshot(), Q, k, met, v);
      }
    }

    /** One round of the inner loop of BFS. */
    method Step(u: int, l: List<int>, ghost Q: seq<int>, ghost k: nat) returns (ghost R: seq<int>)
      requires Sound() && l.Valid() && Apart(l)
      requires Q != [] && Q[0] == u && Vertex(Adj(), u) && k < |Adj()[u]| && neighbors.At(u).index == k
      requires l.Contents == Q[1..] && Queueing(Adj(), source, Snapshot(), Q, k, met)
      modifies this`met, color, distance, parent, l, l.Repr, neighbors.At(u)`cursor, neighbors.At(u)`index
      ensures Sound() && l.Valid() && Apart(l) && fresh(l.Repr - old(l.Repr))
      ensures R != [] && R[0] == u && l.Contents == R[1..]
      ensures Queueing(Adj(), source, Snapshot(), R, k + 1, met)
      ensures Unfinished(Snapshot()) == old(Unfinished(Snapshot()))
      ensures neighbors.At(u).index == NextIndex(k, |Adj()[u]|)
    {
      hide ListArray.Sound, List.Linked, List.CursorAgrees, Queueing;
      neighbors.InFrame(u);
      HeadIsVertex(Adj(), u, k);
      var v := neighbors.Get(u);
      R := Meet(u, v, l, Q, k);
      neighbors.MoveNext(u);
    }

    /** The inner loop of BFS. */
    method MeetNeighbors(u: int, l: List<int>, ghost Q: seq<int>) returns (ghost R: seq<int>)
      requires Sound() && l.Valid() && Apart(l) && Vertex(Adj(), u)
      requires Q != [] && Q[0] == u && l.Contents == Q[1..] && Queueing(Adj(), source, Snapshot(), Q, 0, met)
      modifies this`met, color, distance, parent, l, l.Repr, neighbors.At(u)`cursor, neighbors.At(u)`index
      ensures Sound() && l.Valid() && Apart(l) && fresh(l.Repr - old(l.Repr))
      ensures R != [] && R[0] == u && l.Contents == R[1..]
      ensures Queueing(Adj(), source, Snapshot(), R, |Adj()[u]|, met)
      ensures Unfinished(Snapshot()) == old(Unfinished(Snapshot()))
    {
      hide Sound, Sized, ListArray.Sound, List.Linked, List.CursorAgrees, Queueing, Unfinished;
      R := Q;
      InFrame(u);
      neighbors.MoveFront(u);
      SoundAgain();
      ghost var k := 0;
      while 0 <= neighbors.At(u).index
        invariant Sound() && l.Valid() && Apart(l) && fresh(l.Repr - old(l.Repr))
        invariant R != [] && R[0] == u && l.Contents == R[1..]
        invariant k <= |Adj()[u]| && neighbors.At(u).index == if k < |Adj()[u]| then k else -1
        invariant Queueing(Adj(), source, Snapshot(), R, k, met)
        invariant Unfinished(Snapshot()) == old(Unfinished(Snapshot()))
        decreases |Adj()[u]| - k
      {
        R := Step(u, l, R, k);
        k := k + 1;
      }
    }

    /** The body of the outer loop of BFS: u leaves the queue, its neighbours are
        met, and it turns black. */
    method Explore(l: List<int>)
      requires Sound() && l.Valid() && Apart(l) && l.Contents != []
      requires Queueing(Adj(), source, Snapshot(), l.Contents, 0, met)
      modifies this`met, color, distance, parent, l, l.Repr, neighbors.Lists`cursor, neighbors.Lists`index
      ensures Sound() && l.Valid() && Apart(l) && fresh(l.Repr - old(l.Repr))
      ensures Queueing(Adj(), source, Snapshot(), l.Contents, 0, met)
      ensures Unfinished(Snapshot()) < old(Unfinished(Snapshot()))
    {
      hide Sound, Sized, ListArray.Sound, List.Linked, List.CursorAgrees, Queueing, Unfinished;
      ghost var Q := l.Contents;
      QueueingShape(Adj(), source, Snapshot(), Q, 0, met);
      var u := l.Front();
      InFrame(u);
      l.DeleteFront();
      ListsKept();
      Q := MeetNeighbors(u, l, Q);
      Blacken(u, Q);
    }

    /** u has been explored. */
    method Blacken(u: int, ghost Q: seq<int>)
      requires Sound() && Vertex(Adj(), u) && Q != [] && Q[0] == u
      requires Queueing(Adj(), source, Snapshot(), Q, |Adj()[u]|, met)
      modifies color
      ensures Sound() && Queueing(Adj(), source, Snapshot(), Q[1..], 0, met)
      ensures Unfinished(Snapshot()) < old(Unfinished(Snapshot()))
    {
      hide ListArray.Sound, Queueing;
      QueueingShape(Adj(), source, Snapshot(), Q, |Adj()[u]|, met);
      FinishQueueing(Adj(), source, Snapshot(), Q, met);
      color[u] := Black;
      ListsKept();
      assert Snapshot() == Finish(old(Snapshot()), u);
      assert u in old(Unfinished(Snapshot())) && u !in Unfinished(Snapshot());
    }

    /** The outer loop of BFS. */
    method Run(l: List<int>)
      requires Sound() && l.Valid() && Apart(l) && Queueing(Adj(), source, Snapshot(), l.Contents, 0, met)
      modifies this`met, color, distance, parent, l, l.Repr, neighbors.Lists`cursor, neighbors.Lists`index
      ensures Sound() && Queueing(Adj(), source, Snapshot(), [], 0, met)
    {
      hide Sound, ListArray.Sound, List.Linked, List.CursorAgrees, Queueing, Unfinished;
      var n := l.Length();
      while n > 0
        invariant Sound() && l.Valid() && Apart(l) && fresh(l.Repr - old(l.Repr)) && n == |l.Contents|
        invariant Queueing(Adj(), source, Snapshot(), l.Contents, 0, met)
        decreases Unfinished(Snapshot())
      {
        Explore(l);
        n := l.Length();
      }
    }

    lemma ColorsAndDistances(s: int)
      requires Sound() && Queueing(Adj(), s, Snapshot(), [], 0, met)
      ensures Tree(Adj(), s, Snapshot()) && Distances(Adj(), s, Snapshot()) && QueueOrder(Adj(), s, Snapshot(), met)
      ensures forall v :: Vertex(Adj(), v) ==>
                && (color[v] == White <==> distance[v] == INF) && (color[v] == White <==> !Reach(Adj(), s, v))
                && color[v] != Gray
    {
      hide History, Tied, Accounted, QueueOrder;
      QueueingShape(Adj(), s, Snapshot(), [], 0, met);
      SearchIsInOrder(Adj(), s, Snapshot(), met);
      SearchIsOptimal(Adj(), s, Snapshot());
    }

    /** BFS.  The distances are least over all walks from s; INF, white and out of
        reach are one and the same.  `met` is the order of the queue, by which each
        vertex has the first possible parent. */
    method Bfs(s: int)
      requires Valid() && Vertex(Adj(), s)
      modifies this`source, this`met, color, distance, parent, neighbors.Lists`cursor, neighbors.Lists`index
      ensures Valid() && source == s && Distances(Adj(), s, Snapshot()) && QueueOrder(Adj(), s, Snapshot(), met)
      ensures forall v :: Vertex(Adj(), v) ==>
                && (color[v] == White <==> distance[v] == INF) && (color[v] == White <==> !Reach(Adj(), s, v))
                && color[v] != Gray
    {
      hide ListArray.Sound, List.Linked, List.CursorAgrees, Queueing, Distances, Tree, QueueOrder;
      Reset(s);
      var l := new List<int>();
      l.Append(s);
      assert l.Contents == [s];
      ListsKept();
      Run(l);
      ColorsAndDistances(s);
    }

    /** getDist.  After BFS it is the distance from the source; INF means that there
        is no source or no path to u. */
    method GetDist(u: int) returns (d: int)
      requires Valid() && Vertex(Adj(), u)
      ensures d == if source == NIL then INF else distance[u]
      ensures source == NIL ==> d == INF
      ensures source != NIL && Distances(Adj(), source, Snapshot()) ==> IsDistance(Adj(), source, u, d)
      ensures d != INF ==> source != NIL && exists p :: IsPath(Adj(), p, source, u) && |p| == d + 1
    {
      if source == NIL {
        return INF;
      }
      d := distance[u];
      TreeNeverBelow(Adj(), source, Snapshot(), u);
      if d != INF {
        TreePathIsPath(Adj(), source, Snapshot(), u);
      }
    }

    /** getParent.  It is NIL exactly without a source, for the source, and for what
        the search did not reach; otherwise it is one arc nearer to the source. */
    method GetParent(u: int) returns (p: int)
      requires Valid() && Vertex(Adj(), u)
      ensures p == if source == NIL then NIL else parent[u]
      ensures p == NIL <==> source == NIL || u == source || distance[u] == INF
      ensures p != NIL ==> Arc(Adj(), p, u) && distance[u] == distance[p] + 1
    {
      if source == NIL {
        return NIL;
      }
      p := parent[u];
      assert ParentFits(Adj(), source, Snapshot(), u);
    }

    /** The loop of getPath that looks for the source among the ancestors of u. */
    method HasPath(u: int) returns (found: bool)
      requires Valid() && source != NIL && Vertex(Adj(), u) && u != source
      ensures found <==> distance[u] != INF
    {
      hide ListArray.Sound;
      found := false;
      var p := parent[u];
      assert ParentFits(Adj(), source, Snapshot(), u);
      while p != NIL
        invariant p == NIL ==> distance[u] == INF
        invariant p != NIL ==> Vertex(Adj(), p) && distance[p] >= 0 && distance[u] >= 0
        invariant !found
        decreases if p == NIL then 0 else distance[p] + 1
      {
        if p == source {
          found := true;
          break;
        } else {
          assert ParentFits(Adj(), source, Snapshot(), p);
          p := parent[p];
        }
      }
    }

    /** The loop of getPath that puts u and its ancestors before the list. */
    method PrependPath(L: List<int>, u: int)
      requires Valid() && source != NIL && Vertex(Adj(), u) && distance[u] >= 0
      requires L.Usable() && Apart(L)
      modifies L, L.Repr
      ensures Valid() && L.Usable() && Apart(L) && fresh(L.Repr - old(L.Repr))
      ensures L.Contents == TreePath(Adj(), source, Snapshot(), u) + old(L.Contents)
    {
      hide ListArray.Sound, List.Linked, List.CursorAgrees, List.CursorStale, Tree, TreePath;
      var v := u;
      ghost var tail: seq<int> := [];
      while v != source
        invariant Valid() && L.Usable() && Apart(L) && fresh(L.Repr - old(L.Repr))
        invariant Vertex(Adj(), v) && distance[v] >= 0
        invariant L.Contents == tail + old(L.Contents)
        invariant TreePath(Adj(), source, Snapshot(), u) == TreePath(Adj(), source, Snapshot(), v) + tail
        decreases distance[v]
      {
        TreePathStep(Adj(), source, Snapshot(), v);
        L.Prepend(v);
        ListsKept();
        tail := [v] + tail;
        v := parent[v];
      }
      TreePathStep(Adj(), source, Snapshot(), v);
      L.Prepend(v);
      ListsKept();
    }

    /** getPath.  It terminates, whatever arcs were added since BFS ran.  The header
        says that it appends; where there is a path of at least one arc it
        prepends. */
    method GetPath(L: List<int>, u: int)
      requires Valid() && source != NIL && Vertex(Adj(), u)
      requires L.Usable() && Apart(L)
      modifies L, L.Repr
      ensures Valid() && L.Usable() && Apart(L) && fresh(L.Repr - old(L.Repr))
      ensures L.Contents == PathAdded(Adj(), source, Snapshot(), u, old(L.Contents))
    {
      hide ListArray.Sound, List.Linked, List.CursorAgrees, List.CursorStale, Tree, TreePath;
      if u == source {
        L.Append(u);
        ListsKept();
        return;
      }
      var hasPath := HasPath(u);
      TreeNeverBelow(Adj(), source, Snapshot(), u);
      if hasPath {
        PrependPath(L, u);
      } else {
        L.Append(NIL);
        ListsKept();
      }
    }
  }

  lemma TreePathStep(g: Adjacency, s: int, m: Marks, v: int)
    requires Tree(g, s, m) && Vertex(g, v) && m.distance[v] >= 0
    ensures v == s ==> TreePath(g, s, m, v) == [s]
    ensures v != s ==>
              && Vertex(g, m.parent[v]) && 0 <= m.distance[m.parent[v]] < m.distance[v]
              && TreePath(g, s, m, v) == TreePath(g, s, m, m.parent[v]) + [v]
  {
    assert ParentFits(g, s, m, v);
  }

  lemma TreeNeverBelow(g: Adjacency, s: int, m: Marks, v: int)
    requires Tree(g, s, m) && Vertex(g, v)
    ensures m.distance[v] != INF ==> m.distance[v] >= 0
    ensures m.distance[s] == 0
  {
    assert ParentFits(g, s, m, v) && ParentFits(g, s, m, s);
  }

  /** What getPath makes of the list L. */
  ghost function PathAdded(g: Adjacency, s: int, m: Marks, u: int, L: seq<int>): (r: seq<int>)
    requires Tree(g, s, m) && Vertex(g, u)
  {
    TreeNeverBelow(g, s, m, u);
    if u == s then L + [u]
    else if m.distance[u] == INF then L + [NIL]
    else TreePath(g, s, m, u) + L
  }

  /** getPath into an empty list, after BFS: a path from the source to u, of
      getDist(u) + 1 vertices, no longer than any other; or NIL alone, exactly when
      u is out of reach. */
  lemma PathFound(g: Adjacency, s: int, m: Marks, u: int)
    requires Distances(g, s, m) && Vertex(g, u)
    ensures var L := PathAdded(g, s, m, u, []);
            if Reach(g, s, u) then
              IsPath(g, L, s, u) && |L| == m.distance[u] + 1 && forall p :: IsPath(g, p, s, u) ==> |L| <= |p|
            else L == [NIL] && m.distance[u] == INF
  {
    TreeNeverBelow(g, s, m, u);
    assert IsDistance(g, s, u, m.distance[u]);
    if u == s {
      ReachRefl(g, s);
      assert IsPath(g, [s], s, s);
    } else if m.distance[u] != INF {
      TreePathIsPath(g, s, m, u);
      assert PathAdded(g, s, m, u, []) == TreePath(g, s, m, u);
    }
  }

  /** getPath appends, as its header says, exactly if u is the source, or out of
      reach, or the list holds nothing but copies of the path. */
  lemma AppendsIff(g: Adjacency, s: int, m: Marks, u: int, L: seq<int>)
    requires Tree(g, s, m) && Vertex(g, u)
    ensures PathAdded(g, s, m, u, L) == L + PathAdded(g, s, m, u, []) <==>
            u == s || m.distance[u] == INF || Repeats(L, TreePath(g, s, m, u))
  {
    TreeNeverBelow(g, s, m, u);
    if u == s || m.distance[u] == INF {
      assert [] + PathAdded(g, s, m, u, []) == PathAdded(g, s, m, u, []);
    } else {
      TreePathIsPath(g, s, m, u);
      PrependIsAppendIff(TreePath(g, s, m, u), L);
      assert TreePath(g, s, m, u) + [] == TreePath(g, s, m, u);
    }
  }

  /** Where it does not: with 7 in the list, the path 1, 2 ends up before it. */
  lemma PrependsSometimes()
    ensures var m := Marks([White, Black, Black], [0, 0, 1], [NIL, NIL, 1]);
            Tree([[], [2], []], 1, m) && PathAdded([[], [2], []], 1, m, 2, [7]) == [1, 2, 7]
  {
    var g: Adjacency := [[], [2], []];
    var m := Marks([White, Black, Black], [0, 0, 1], [NIL, NIL, 1]);
    assert 2 in g[1] && Arc(g, 1, 2);
    assert ParentFits(g, 1, m, 1) && ParentFits(g, 1, m, 2);
    TreePathStep(g, 1, m, 2);
    TreePathStep(g, 1, m, 1);
  }
}
