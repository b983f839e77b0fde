/** Graph.c of the depth-first-search project: the graph object with its arrays
    and neighbour lists, and the methods that update them in place. */
module GraphDfs {
  import opened Lists
  import opened ListArrays
  import opened Digraphs
  import opened DfsModel
  import opened Forests
  import opened Scc
  import opened GraphSort
  import opened SortedLists
  import opened ArcCounts

  class Graph {
    const order: nat
    var size: int
    const neighbors: ListArray<int>
    const color: array<Color>
    const parent: array<int>
    const discover: array<int>
    const finish: array<int>

    /** The graph the neighbour lists represent. */
    ghost function Adj(): Adjacency
      reads neighbors
    {
      neighbors.Rows
    }

    ghost predicate Sized()
      reads neighbors
    {
      && |neighbors.lists| == order + 1 == |Adj()| && !neighbors.deletes
      && color.Length == parent.Length == discover.Length == finish.Length == order + 1
      && parent != discover && parent != finish && discover != finish
      && WellFormed(Adj())
    }

    /** `size` counts the arcs, and neighbour lists rise without repeats: true of every
        graph that is built with addArc. */
    ghost predicate Counted()
      reads this`size, neighbors
    {
      size == ArcCount(Adj()) && Canonical(Adj())
    }

    ghost predicate Sound()
      reads neighbors, neighbors.Nodes, neighbors.Lists
    {
      Sized() && neighbors.Sound()
    }

    ghost function Snapshot(time: int): (s: State)
      reads color, parent, discover, finish
    {
      State(color[..], parent[..], discover[..], finish[..], time)
    }

    /** newGraph. */
    constructor (n: nat)
      ensures Sound()
      ensures order == n && size == 0 && Adj() == seq(n + 1, _ => []) && Counted()
      ensures fresh(neighbors) && fresh(neighbors.Lists) && fresh(neighbors.Nodes)
      ensures fresh(color) && fresh(parent) && fresh(discover) && fresh(finish)
      ensures forall i :: 1 <= i <= n ==>
                color[i] == White && parent[i] == NIL && discover[i] == UNDEF && finish[i] == UNDEF
    {
      hide ListArray.Sound;
      order, size := n, 0;
      color := new Color[n + 1](_ => White);
      parent := new int[n + 1](_ => NIL);
      discover := new int[n + 1](i => if i == 0 then 0 else UNDEF);
      finish := new int[n + 1](i => if i == 0 then 0 else UNDEF);
      neighbors := new ListArray<int>(n + 1, false);
      new;
      EmptyArcCount(Adj());
    }

    /** A graph over given lists, with the fields of newGraph. */
    constructor Over(n: nat, lists: ListArray<int>)
      requires lists.Sound() && !lists.deletes && |lists.lists| == |lists.Rows| == n + 1 && WellFormed(lists.Rows)
      ensures Sound() && order == n && size == 0 && neighbors == lists
      ensures fresh(color) && fresh(parent) && fresh(discover) && fresh(finish)
    {
      hide ListArray.Sound;
      order, size := n, 0;
      color := new Color[n + 1](_ => White);
      parent := new int[n + 1](_ => NIL);
      discover := new int[n + 1](i => if i == 0 then 0 else UNDEF);
      finish := new int[n + 1](i => if i == 0 then 0 else UNDEF);
      neighbors := lists;
    }

    lemma InFrame(i: int)
      requires Sound() && 0 <= i <= order
      ensures Sized() && neighbors.Sound() && !neighbors.deletes && |neighbors.lists| == |Adj()| == order + 1
      ensures neighbors.At(i) in neighbors.Lists && neighbors.At(i).Repr <= neighbors.Nodes
    {
    }

    lemma SoundAgain()
      requires Sized() && neighbors.Sound()
      ensures Sound()
    {
    }

    lemma SoundShape(time: int)
      requires Sound()
      ensures |Adj()| == |neighbors.lists| == order + 1 && WellFormed(Adj()) && Shaped(Adj(), Snapshot(time))
    {
    }

    /** Writing into the arrays keeps the lists as they are. */
    twostate lemma ListsKept()
      requires old(Sound())
      requires unchanged(neighbors) && unchanged(neighbors.Lists) && unchanged(old(neighbors.Nodes))
      ensures Sound()
    {
      neighbors.Kept();
    }

    /** addArc. */
    method AddArc(u: int, v: int)
      requires Sound() && Vertex(Adj(), u) && Vertex(Adj(), v)
      modifies this`size, neighbors, neighbors.At(u), neighbors.At(u).Repr
      ensures Sound() && fresh(neighbors.Nodes - old(neighbors.Nodes))
      ensures Adj() == WithArc(old(Adj()), u, v)
      ensures size == old(size) + |Adj()[u]| - |old(Adj())[u]|
      ensures old(Counted()) ==> Counted()
    {
      hide ListArray.Sound, ArcCount, Canonical, WithArc;
      ArcAdded(Adj(), u, v);
      var added := Link(u, v);
      if added {
        size := size + 1;
      }
    }

    /** The list part of addArc. */
    method Link(u: int, v: int) returns (added: bool)
      requires Sound() && Vertex(Adj(), u) && Vertex(Adj(), v)
      modifies neighbors, neighbors.At(u), neighbors.At(u).Repr
      ensures Sound() && fresh(neighbors.Nodes - old(neighbors.Nodes))
      ensures Adj() == WithArc(old(Adj()), u, v)
      ensures |Adj()[u]| == |old(Adj())[u]| + if added then 1 else 0
    {
      hide List.Linked, List.CursorAgrees, ListArray.Sound, ListArray.SoundBut;
      neighbors.InFrame(u);
      added := InsertOnce(neighbors.At(u), v);
      neighbors.OthersKept(u);
      WithArcAdds(neighbors.Rows, u, v);
      neighbors.Adopt(u);
      assert Adj() == WithArc(old(Adj()), u, v);
    }

    /** The updates of u at the start of DFS_Visit. */
    method Enter(u: int, time: int) returns (now: int)
      requires Sound() && Vertex(Adj(), u) && color[u] == White
      modifies color, discover
      ensures Sound()
      ensures Snapshot(now) == Open(old(Snapshot(time)), u)
      ensures Whites(Snapshot(now)) == old(Whites(Snapshot(time))) - {u}
    {
      now := time + 1;
      discover[u] := now;
      color[u] := Gray;
      ListsKept();
    }

    /** The updates of u at the end of DFS_Visit. */
    method Leave(u: int, time: int) returns (now: int)
      requires Sound() && Vertex(Adj(), u)
      modifies color, finish
      ensures Sound()
      ensures Snapshot(now) == Close(old(Snapshot(time)), u)
    {
      now := time + 1;
      finish[u] := now;
      color[u] := Black;
      ListsKept();
    }

    /** DFS_Visit; `now` is what the source's time pointer refers to.  The cursor
        of a vertex that is already gray or black stays where it is. */
    method DfsVisit(u: int, time: int) returns (now: int)
      requires Sound() && Vertex(Adj(), u) && color[u] == White
      modifies color, parent, discover, finish, neighbors.Lists`cursor, neighbors.Lists`index
      ensures Sound()
      ensures Snapshot(now) == Visit(Adj(), u, old(Snapshot(time)))
      ensures forall x :: Vertex(Adj(), x) && x !in old(Whites(Snapshot(time))) ==>
                neighbors.At(x).index == old(neighbors.At(x).index)
      decreases Whites(Snapshot(time)), 0
    {
      hide ListArray.Sound, Visit, VisitAll, Meet, Open, Close;
      ghost var s0 := Snapshot(time);
      now := Enter(u, time);
      now := VisitNeighbors(u, now);
      VisitIs(Adj(), u, s0, Snapshot(now));
      now := Leave(u, now);
    }

    /** The loop in DFS_Visit. */
    method VisitNeighbors(u: int, time: int) returns (now: int)
      requires Sound() && Vertex(Adj(), u) && color[u] != White
      modifies color, parent, discover, finish, neighbors.Lists`cursor, neighbors.Lists`index
      ensures Sound() && Whites(Snapshot(now)) <= old(Whites(Snapshot(time)))
      ensures Snapshot(now) == VisitAll(Adj(), u, Adj()[u], old(Snapshot(time)))
      ensures forall x :: Vertex(Adj(), x) && x !in old(Whites(Snapshot(time))) && x != u ==>
                neighbors.At(x).index == old(neighbors.At(x).index)
      decreases Whites(Snapshot(time)), 2
    {
      hide ListArray.Sound, Visit, VisitAll, Meet;
      ghost var s := Snapshot(time);
      now := time;
      neighbors.InFrame(u);
      var n := neighbors.Length(u);
      if n > 0 {
        neighbors.MoveFront(u);
        while neighbors.At(u).index >= 0
          invariant Sound() && neighbors.At(u).index < n
          invariant u !in Whites(Snapshot(now)) && Whites(Snapshot(now)) <= Whites(s)
          invariant VisitAll(Adj(), u, Adj()[u], s) == VisitAll(Adj(), u, Rest(Adj()[u], neighbors.At(u).index), Snapshot(now))
          invariant forall x :: Vertex(Adj(), x) && x !in Whites(s) && x != u ==>
                      neighbors.At(x).index == old(neighbors.At(x).index)
          decreases |Rest(Adj()[u], neighbors.At(u).index)|
        {
          RestStep(Adj(), u, Adj()[u], Snapshot(now), neighbors.At(u).index);
          NotWhite(Snapshot(now), u);
          now := VisitNeighbor(u, now);
        }
      }
      NothingLeft(Adj(), u, Snapshot(now));
    }

    /** One round of the loop in DFS_Visit: the neighbour v under the cursor of u's
        list is visited if it is white, and the cursor moves on. */
    method VisitNeighbor(u: int, time: int) returns (now: int)
      requires Sound() && Vertex(Adj(), u) && color[u] != White
      requires 0 <= neighbors.At(u).index < |Adj()[u]|
      modifies color, parent, discover, finish, neighbors.Lists`cursor, neighbors.Lists`index
      ensures Sound()
      ensures Vertex(Adj(), Adj()[u][old(neighbors.At(u).index)])
      ensures Snapshot(now) == Meet(Adj(), u, Adj()[u][old(neighbors.At(u).index)], old(Snapshot(time)))
      ensures neighbors.At(u).index == NextIndex(old(neighbors.At(u).index), |Adj()[u]|)
      ensures forall x :: Vertex(Adj(), x) && x !in old(Whites(Snapshot(time))) && x != u ==>
                neighbors.At(x).index == old(neighbors.At(x).index)
      decreases Whites(Snapshot(time)), 1
    {
      hide ListArray.Sound, Visit;
      now := time;
      neighbors.InFrame(u);
      HeadIsVertex(Adj(), u, neighbors.At(u).index);
      var v := neighbors.Get(u);
      if color[v] == White {
        parent[v] := u;
        ListsKept();
        assert Whites(Snapshot(time)) == old(Whites(Snapshot(time)));
        now := DfsVisit(v, now);
      }
      neighbors.MoveNext(u);
    }

    /** The first loop of DFS. */
    method ResetArrays()
      requires Sound()
      modifies color, parent, discover, finish
      ensures Sound()
      ensures Snapshot(0) == Reset(old(Snapshot(0)))
    {
      hide ListArray.Sound;
      for i := 1 to order + 1
        invariant forall k :: 1 <= k < i ==>
                    color[k] == White && parent[k] == NIL && discover[k] == UNDEF && finish[k] == UNDEF
        invariant color[0] == old(color[0]) && parent[0] == old(parent[0])
        invariant discover[0] == old(discover[0]) && finish[0] == old(finish[0])
      {
        color[i] := White;
        parent[i] := NIL;
        discover[i] := UNDEF;
        finish[i] := UNDEF;
      }
      ListsKept();
    }

    /** S is a list of vertices apart from the graph's own lists. */
    ghost predicate Apart(S: List<int>)
      reads neighbors, S`Repr, S`Contents
    {
      && S !in neighbors.Lists && S.Repr !! neighbors.Nodes
      && forall i :: 0 <= i < |S.Contents| ==> Vertex(Adj(), S.Contents[i])
    }

    /** The branch on the colour of u in the second loop of DFS. */
    method VisitIfWhite(u: int, time: int) returns (now: int)
      requires Sound() && Vertex(Adj(), u) && WhitesUnparented(Snapshot(time))
      modifies color, parent, discover, finish, neighbors.Lists`cursor, neighbors.Lists`index
      ensures Sound() && WhitesUnparented(Snapshot(now))
      ensures Snapshot(now) == Meet(Adj(), NIL, u, old(Snapshot(time)))
    {
      hide ListArray.Sound, Visit, Meet;
      now := time;
      MeetRoot(Adj(), u, Snapshot(time));
      if color[u] == White {
        now := DfsVisit(u, now);
      }
    }

    /** One round of the second loop of DFS. */
    method SearchStep(S: List<int>, time: int) returns (now: int)
      requires Sound() && S.Valid() && Apart(S) && 0 <= S.index < |S.Contents|
      requires WhitesUnparented(Snapshot(time))
      modifies color, parent, discover, finish, neighbors.Lists`cursor, neighbors.Lists`index, S`cursor, S`index
      ensures Sound() && S.Valid() && Apart(S)
      ensures S.index == NextIndex(old(S.index), |S.Contents|) && WhitesUnparented(Snapshot(now))
      ensures Snapshot(now) == Meet(Adj(), NIL, S.Contents[old(S.index)], old(Snapshot(time)))
    {
      assert S.length == |S.Contents| && S !in neighbors.Lists && S.Repr !! neighbors.Nodes;
      assert Vertex(Adj(), S.Contents[S.index]);
      hide ListArray.Sound, Meet, Apart, WhitesUnparented;
      var u := S.Get();
      now := VisitIfWhite(u, time);
      S.MoveNext();
    }

    /** The second loop of DFS: a visit from every vertex of S that is still white. */
    method Search(S: List<int>) returns (now: int)
      requires Sound() && S.Usable() && Apart(S) && WhitesUnparented(Snapshot(0))
      modifies color, parent, discover, finish, neighbors.Lists`cursor, neighbors.Lists`index, S`cursor, S`index
      ensures Sound() && S.Valid() && Apart(S)
      ensures Snapshot(now) == VisitAll(Adj(), NIL, S.Contents, old(Snapshot(0)))
    {
      assert S.length == |S.Contents|;
      hide ListArray.Sound, VisitAll, Meet, Visit, List.Linked;
      now := 0;
      ghost var s0 := Snapshot(0);
      S.MoveFront();
      while S.index >= 0
        invariant Sound() && S.Valid() && Apart(S) && S.index < |S.Contents|
        invariant WhitesUnparented(Snapshot(now))
        invariant VisitAll(Adj(), NIL, S.Contents, s0) == VisitAll(Adj(), NIL, Rest(S.Contents, S.index), Snapshot(now))
        decreases |Rest(S.Contents, S.index)|
      {
        RestStep(Adj(), NIL, S.Contents, Snapshot(now), S.index);
        now := SearchStep(S, now);
      }
      NothingLeft(Adj(), NIL, Snapshot(now));
    }

    /** DFS.  The source checks the length of S only; that S lists every vertex is
        up to the caller, and S does again afterwards. */
    method Dfs(S: List<int>)
      requires Sound() && S.Usable() && Apart(S) && IsOrder(Adj(), S.Contents)
      modifies color, parent, discover, finish, neighbors.Lists`cursor, neighbors.Lists`index
      modifies S`cursor, S`index, S`Contents, S.Repr
      ensures Sound() && S.Valid() && Apart(S)
      ensures var f := Forests.Dfs(Adj(), old(S.Contents), old(Snapshot(0)));
              && Snapshot(f.time) == f
              && S.Contents == SortByFinish(f.finish, old(S.Contents))
    {
      hide ListArray.Sound, VisitAll, List.Linked, List.CursorAgrees, SortByFinish;
      ghost var s := Snapshot(0);
      ResetArrays();
      var now := Search(S);
      ghost var f := Snapshot(now);
      assert f == Forests.Dfs(Adj(), old(S.Contents), s);
      SortStaysInGraph(Adj(), f.finish, S.Contents);
      Reorder(S, finish);
    }

    ghost predicate Separate(T: Graph)
      reads neighbors, T.neighbors
    {
      && T != this && T.neighbors != neighbors
      && T.neighbors.Lists !! neighbors.Lists && T.neighbors.Nodes !! neighbors.Nodes
    }

    /** One round of the inner loop of transpose. */
    method TransposeStep(T: Graph, i: int, ghost k: nat)
      requires Sound() && T.Sound() && Separate(T)
      requires Vertex(Adj(), i) && k < |Adj()[i]| && neighbors.At(i).index == k
      requires |T.Adj()| == |Adj()| && PartlyReversed(Adj(), T.Adj(), i, k) && Canonical(T.Adj())
      modifies neighbors.At(i)`cursor, neighbors.At(i)`index, T`size, T.neighbors, T.neighbors.Lists, T.neighbors.Nodes
      ensures Sound() && T.Sound() && fresh(T.neighbors.Nodes - old(T.neighbors.Nodes))
      ensures neighbors.At(i).index == NextIndex(k, |Adj()[i]|)
      ensures |T.Adj()| == |Adj()| && PartlyReversed(Adj(), T.Adj(), i, k + 1) && Canonical(T.Adj())
    {
      hide ListArray.Sound, PartlyReversed, Canonical;
      HeadIsVertex(Adj(), i, k);
      var v := neighbors.Get(i);
      WithArcCanonical(T.Adj(), v, i);
      ReversedMore(Adj(), T.Adj(), i, k);
      neighbors.InFrame(i);
      T.neighbors.InFrame(v);
      T.AddArc(v, i);
      ListsKept();
      neighbors.MoveNext(i);
    }

    /** The inner loop of transpose, for vertex i. */
    method TransposeCells(T: Graph, i: int)
      requires Sound() && T.Sound() && Separate(T) && 1 <= i <= order && Vertex(Adj(), i)
      requires |T.Adj()| == |Adj()| && PartlyReversed(Adj(), T.Adj(), i, 0) && Canonical(T.Adj())
      modifies neighbors.At(i)`cursor, neighbors.At(i)`index, T`size, T.neighbors, T.neighbors.Lists, T.neighbors.Nodes
      ensures Sound() && T.Sound() && fresh(T.neighbors.Nodes - old(T.neighbors.Nodes))
      ensures |T.Adj()| == |Adj()| && PartlyReversed(Adj(), T.Adj(), i, |Adj()[i]|) && Canonical(T.Adj())
    {
      hide Sound, Sized, ListArray.Sound, PartlyReversed, Canonical;
      InFrame(i);
      neighbors.MoveFront(i);
      T.ListsKept();
      SoundAgain();
      ghost var k := 0;
      while neighbors.At(i).index >= 0
        invariant Sound() && T.Sound() && Separate(T) && fresh(T.neighbors.Nodes - old(T.neighbors.Nodes))
        invariant k <= |Adj()[i]| && neighbors.At(i).index == if k < |Adj()[i]| then k else -1
        invariant |T.Adj()| == |Adj()| && PartlyReversed(Adj(), T.Adj(), i, k) && Canonical(T.Adj())
        decreases |Adj()[i]| - k
      {
        TransposeStep(T, i, k);
        k := k + 1;
      }
    }

    /** The same, if vertex i has any neighbour. */
    method TransposeRow(T: Graph, i: int)
      requires Sound() && T.Sound() && Separate(T) && 1 <= i <= order && Vertex(Adj(), i)
      requires |T.Adj()| == |Adj()| && PartlyReversed(Adj(), T.Adj(), i, 0) && Canonical(T.Adj())
      modifies neighbors.At(i)`cursor, neighbors.At(i)`index, T`size, T.neighbors, T.neighbors.Lists, T.neighbors.Nodes
      ensures Sound() && T.Sound() && fresh(T.neighbors.Nodes - old(T.neighbors.Nodes))
      ensures |T.Adj()| == |Adj()| && PartlyReversed(Adj(), T.Adj(), i + 1, 0) && Canonical(T.Adj())
    {
      hide Sound, Sized, ListArray.Sound, PartlyReversed, Canonical;
      InFrame(i);
      var n := neighbors.Length(i);
      if n > 0 {
        TransposeCells(T, i);
      }
      RowReversed(Adj(), T.Adj(), i);
    }

    /** T has the fields of the vertices before i. */
    ghost predicate Copied(T: Graph, i: int)
      reads color, parent, discover, finish
      reads T.color, T.parent, T.discover, T.finish
    {
      && i <= color.Length == parent.Length == discover.Length == finish.Length
      && i <= T.color.Length == T.parent.Length == T.discover.Length == T.finish.Length
      && forall k :: 1 <= k < i ==>
           && T.color[k] == color[k] && T.parent[k] == parent[k]
           && T.discover[k] == discover[k] && T.finish[k] == finish[k]
    }

    ghost predicate OwnArrays(T: Graph)
    {
      && T.color != color && {T.parent, T.discover, T.finish} !! {parent, discover, finish}
    }

    /** Copies the fields of vertex i, as transpose and copyGraph do. */
    method CopyFields(T: Graph, i: int)
      requires Sized() && T.Sound() && T.order == order && 1 <= i <= order && Copied(T, i) && OwnArrays(T)
      modifies T.color, T.parent, T.discover, T.finish
      ensures T.Sound() && Copied(T, i + 1)
    {
      hide ListArray.Sound;
      T.color[i] := color[i];
      T.parent[i] := parent[i];
      T.discover[i] := discover[i];
      T.finish[i] := finish[i];
      T.ListsKept();
    }

    /** The body of transpose's loop over the vertices. */
    method TransposeVertex(T: Graph, i: int)
      requires Sound() && T.Sound() && Separate(T) && Vertex(Adj(), i) && T.order == order
      requires |T.Adj()| == |Adj()| && PartlyReversed(Adj(), T.Adj(), i, 0) && Canonical(T.Adj())
      requires Copied(T, i) && OwnArrays(T)
      modifies neighbors.At(i)`cursor, neighbors.At(i)`index, T`size, T.neighbors, T.neighbors.Lists, T.neighbors.Nodes
      modifies T.color, T.parent, T.discover, T.finish
      ensures Sound() && T.Sound() && fresh(T.neighbors.Nodes - old(T.neighbors.Nodes))
      ensures |T.Adj()| == |Adj()| && PartlyReversed(Adj(), T.Adj(), i + 1, 0) && Canonical(T.Adj())
      ensures Copied(T, i + 1)
    {
      hide ListArray.Sound, PartlyReversed, Canonical;
      TransposeRow(T, i);
      CopyFields(T, i);
    }

    lemma StartTranspose(T: Graph)
      requires Sound() && T.Sound() && T.order == order && T.Adj() == seq(order + 1, _ => [])
      ensures |Adj()| == |neighbors.lists| == |T.Adj()| == order + 1
      ensures PartlyReversed(Adj(), T.Adj(), 1, 0) && Canonical(T.Adj()) && Copied(T, 1)
    {
      hide ListArray.Sound;
      NothingReversed(Adj(), T.Adj());
    }

    lemma CountedTranspose(T: Graph)
      requires Sound() && T.Sound() && T.size == size && Reversed(Adj(), T.Adj()) && Canonical(T.Adj())
      ensures Counted() ==> T.Counted()
    {
      if Counted() {
        TransposeArcCount(Adj(), T.Adj());
      }
    }

    /** transpose. */
    method Transpose() returns (T: Graph)
      requires Sound()
      modifies neighbors.Lists`cursor, neighbors.Lists`index
      ensures Sound() && T.Sound() && fresh(T) && fresh(T.neighbors) && fresh(T.neighbors.Lists) && fresh(T.neighbors.Nodes)
      ensures fresh(T.color) && fresh(T.parent) && fresh(T.discover) && fresh(T.finish)
      ensures Reversed(Adj(), T.Adj()) && Canonical(T.Adj())
      ensures T.order == order && T.size == size && Copied(T, order + 1)
      ensures Counted() ==> T.Counted()
    {
      hide Sound, Sized, ListArray.Sound, Canonical, PartlyReversed, Copied, Counted;
      T := new Graph(order);
      ListsKept();
      StartTranspose(T);
      for i := 1 to order + 1
        invariant Sound() && T.Sound() && fresh(T) && fresh(T.neighbors) && fresh(T.neighbors.Lists) && fresh(T.neighbors.Nodes)
        invariant PartlyReversed(Adj(), T.Adj(), i, 0) && Canonical(T.Adj()) && |T.Adj()| == |Adj()|
        invariant fresh(T.color) && fresh(T.parent) && fresh(T.discover) && fresh(T.finish)
        invariant T.order == order && Copied(T, i)
      {
        InFrame(i);
        TransposeVertex(T, i);
      }
      AllReversed(Adj(), T.Adj());
      T.size := size;
      CountedTranspose(T);
    }

    /** copyGraph. */
    method CopyGraph() returns (H: Graph)
      requires Sound()
      ensures Sound() && H.Sound() && fresh(H) && fresh(H.neighbors) && fresh(H.neighbors.Lists) && fresh(H.neighbors.Nodes)
      ensures fresh(H.color) && fresh(H.parent) && fresh(H.discover) && fresh(H.finish)
      ensures H.Adj() == Adj() && H.order == order && H.size == size && Copied(H, order + 1)
      ensures Counted() ==> H.Counted()
    {
      hide ListArray.Sound, Copied;
      InFrame(0);
      var lists := new ListArray<int>.CopyOf(neighbors);
      H := new Graph.Over(order, lists);
      NothingCopied(H);
      for i := 1 to order + 1
        invariant Sized() && H.Sound() && Copied(H, i)
        invariant H.Adj() == Adj() && fresh(H.neighbors.Nodes)
      {
        CopyFields(H, i);
      }
      H.size := size;
    }

    lemma NothingCopied(T: Graph)
      requires Sized() && T.Sized() && T.order == order
      ensures Copied(T, 1)
    {
    }
  }

  lemma NothingReversed(g: Adjacency, t: Adjacency)
    requires WellFormed(g) && t == seq(|g|, _ => [])
    ensures PartlyReversed(g, t, 1, 0) && Canonical(t)
  {
  }

  lemma AllReversed(g: Adjacency, t: Adjacency)
    requires PartlyReversed(g, t, |g|, 0)
    ensures Reversed(g, t)
  {
  }

  /** t has the reversed arcs of the vertices before i, and of i those to its first
      k neighbours. */
  ghost predicate PartlyReversed(g: Adjacency, t: Adjacency, i: int, k: nat) {
    && |t| == |g|
    && forall u, v :: Arc(t, v, u) <==>
         Arc(g, u, v) && (u < i || (u == i && k <= |g[u]| && v in g[u][..k]))
  }

  lemma ReversedMore(g: Adjacency, t: Adjacency, i: int, k: nat)
    requires WellFormed(g) && WellFormed(t) && PartlyReversed(g, t, i, k) && Vertex(g, i) && k < |g[i]|
    requires Vertex(g, g[i][k])
    ensures PartlyReversed(g, WithArc(t, g[i][k], i), i, k + 1)
  {
    WithArcAdds(t, g[i][k], i);
    assert g[i][..k + 1] == g[i][..k] + [g[i][k]];
  }

  lemma RowReversed(g: Adjacency, t: Adjacency, i: int)
    requires Vertex(g, i) && PartlyReversed(g, t, i, |g[i]|)
    ensures PartlyReversed(g, t, i + 1, 0)
  {
    assert g[i][..|g[i]|] == g[i];
  }

  lemma NothingLeft(g: Adjacency, p: int, s: State)
    requires WellFormed(g) && Shaped(g, s)
    ensures VisitAll(g, p, [], s) == s
  {
  }

  /** No white vertex has a parent. */
  ghost predicate WhitesUnparented(s: State)
    requires |s.parent| == |s.color|
  {
    forall x :: 1 <= x < |s.color| && s.color[x] == White ==> s.parent[x] == NIL
  }

  lemma MeetRoot(g: Adjacency, u: int, s: State)
    requires WellFormed(g) && Shaped(g, s) && Vertex(g, u) && WhitesUnparented(s)
    ensures Meet(g, NIL, u, s) == if s.color[u] == White then Visit(g, u, s) else s
    ensures WhitesUnparented(Meet(g, NIL, u, s))
  {
    assert s.color[u] == White ==> s.(parent := s.parent[u := NIL]) == s;
    var t := Meet(g, NIL, u, s);
    MeetGrown(g, NIL, u, s);
    forall x | 1 <= x < |t.color| && t.color[x] == White ensures t.parent[x] == NIL {
      assert !New(s, t, x) && Same(g, s, t, x);
    }
  }

  /** The graph with the arc from u to v, which it may have had before. */
  function WithArc(g: Adjacency, u: int, v: int): (r: Adjacency)
    requires Vertex(g, u)
  {
    if v in g[u] then g else g[u := SortedInsert(g[u], v)]
  }

  lemma WithArcAdds(g: Adjacency, u: int, v: int)
    requires WellFormed(g) && Vertex(g, u) && Vertex(g, v)
    ensures WellFormed(WithArc(g, u, v)) && |WithArc(g, u, v)| == |g|
    ensures |WithArc(g, u, v)[u]| == |g[u]| + if v in g[u] then 0 else 1
    ensures forall x, y :: Arc(WithArc(g, u, v), x, y) <==> Arc(g, x, y) || (x == u && y == v)
  {
    SortedInsertAdds(g[u], v);
    var h := WithArc(g, u, v);
    forall x, y | Vertex(h, x) && y in h[x] ensures Vertex(h, y) {
      assert Vertex(g, x);
      if x != u || y != v {
        assert y in g[x];
      }
      assert Vertex(g, y);
    }
  }

  lemma WithArcCanonical(g: Adjacency, u: int, v: int)
    requires Canonical(g) && Vertex(g, u)
    ensures Canonical(WithArc(g, u, v))
  {
    if v !in g[u] {
      SortedInsertKeeps(g[u], v);
    }
  }

  /** addArc keeps size the number of arcs. */
  lemma WithArcCounts(g: Adjacency, u: int, v: int)
    requires Vertex(g, u)
    ensures |WithArc(g, u, v)| == |g|
    ensures ArcCount(WithArc(g, u, v)) == ArcCount(g) + |WithArc(g, u, v)[u]| - |g[u]|
  {
    if v !in g[u] {
      ArcCountUpdate(g, u, SortedInsert(g[u], v));
    }
  }

  lemma ArcAdded(g: Adjacency, u: int, v: int)
    requires Vertex(g, u)
    ensures |WithArc(g, u, v)| == |g|
    ensures ArcCount(WithArc(g, u, v)) == ArcCount(g) + |WithArc(g, u, v)[u]| - |g[u]|
    ensures Canonical(g) ==> Canonical(WithArc(g, u, v))
  {
    WithArcCounts(g, u, v);
    if Canonical(g) {
      WithArcCanonical(g, u, v);
    }
  }

  /** A graph has one canonical transpose. */
  lemma TransposeUnique(g: Adjacency, t: Adjacency, t': Adjacency)
    requires WellFormed(g) && WellFormed(t) && WellFormed(t') && Canonical(t) && Canonical(t')
    requires Reversed(g, t) && Reversed(g, t')
    ensures t == t'
  {
    forall u | 0 <= u < |t| ensures t[u] == t'[u] {
      if u > 0 {
        forall v ensures v in t[u] <==> v in t'[u] {
          assert Arc(t, u, v) <==> Arc(g, v, u);
          assert Arc(t', u, v) <==> Arc(g, v, u);
        }
        SortedUnique(t[u], t'[u]);
      }
    }
  }

  /** Transposing twice gives the graph back. */
  lemma TransposeInvolution(g: Adjacency, t: Adjacency, h: Adjacency)
    requires WellFormed(g) && WellFormed(t) && WellFormed(h) && Canonical(g) && Canonical(h)
    requires Reversed(g, t) && Reversed(t, h)
    ensures h == g
  {
    assert Reversed(t, g) by {
      forall u, v ensures Arc(g, v, u) <==> Arc(t, u, v) {}
    }
    TransposeUnique(t, h, g);
  }

  /** What a list still has to offer from its cursor on. */
  function Rest(s: seq<int>, i: int): (r: seq<int>)
    requires i < |s|
  {
    if i < 0 then [] else s[i..]
  }

  lemma NotWhite(s: State, u: int)
    requires 1 <= u < |s.color|
    ensures u !in Whites(s) <==> s.color[u] != White
  {
  }

  lemma VisitIs(g: Adjacency, u: int, s: State, t: State)
    requires WellFormed(g) && Shaped(g, s) && Vertex(g, u) && s.color[u] == White && Shaped(g, t)
    requires t == VisitAll(g, u, g[u], Open(s, u))
    ensures Visit(g, u, s) == Close(t, u)
  {
  }

  lemma RestStep(g: Adjacency, p: int, vs: seq<int>, s: State, i: int)
    requires WellFormed(g) && Shaped(g, s) && 0 <= i < |vs|
    requires forall v <- vs :: Vertex(g, v)
    ensures forall v <- Rest(vs, i) :: Vertex(g, v)
    ensures NextIndex(i, |vs|) < |vs|
    ensures VisitAll(g, p, Rest(vs, i), s) == VisitAll(g, p, Rest(vs, NextIndex(i, |vs|)), Meet(g, p, vs[i], s))
    ensures |Rest(vs, NextIndex(i, |vs|))| < |Rest(vs, i)|
  {
    assert vs[i..][1..] == Rest(vs, NextIndex(i, |vs|));
  }
}
