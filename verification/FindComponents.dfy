/** The algorithmic part of main in FindComponents.c. */
module FindComponents {
  import opened Lists
  import opened Digraphs
  import opened DfsModel
  import opened Forests
  import opened Scc
  import opened GraphDfs
  import opened ArcCounts

  /** The list 1 .. n. */
  method AllVertices(n: nat) returns (S: List<int>)
    ensures fresh(S) && fresh(S.Repr) && S.Valid()
    ensures S.Contents == seq(n, i => i + 1)
  {
    hide List.Linked, List.CursorAgrees;
    S := new List<int>();
    for i := 1 to n + 1
      invariant fresh(S) && fresh(S.Repr) && S.Valid()
      invariant S.Contents == seq(i - 1, k => k + 1)
    {
      S.Append(i);
    }
  }

  lemma AllVerticesInOrder(g: Adjacency)
    requires |g| >= 1
    ensures IsOrder(g, seq(|g| - 1, i => i + 1))
  {
    var S := seq(|g| - 1, i => i + 1);
    forall v | Vertex(g, v) ensures v in S {
      assert S[v - 1] == v;
    }
  }

  /** How many of the vertices 1 .. n have no parent. */
  method CountRoots(parent: array<int>, n: nat) returns (counter: nat)
    requires parent.Length == n + 1
    ensures counter == |Roots(parent[..])|
  {
    counter := 0;
    ghost var roots: set<int> := {};
    for j := 1 to n + 1
      invariant counter == |roots|
      invariant forall v :: v in roots <==> 1 <= v < j && parent[v] == NIL
    {
      if parent[j] == NIL {
        counter := counter + 1;
        roots := roots + {j};
      }
    }
    assert roots == Roots(parent[..]);
  }

  /** Where the last loop stands: `comps` is cut off, L holds what follows the
      cursor of S up to the last cut, none of it a root. */
  ghost predicate Cutting(S: seq<int>, parent: seq<int>, i: int, L: seq<int>, comps: seq<seq<int>>, b: seq<nat>) {
    && |b| == |comps| + 1 && CutAtRoots(S, parent, comps, b)
    && -1 <= i < b[|comps|] <= |S| && L == S[i + 1..b[|comps|]]
    && forall k {:trigger parent[S[k]]} :: i < k < b[|comps|] ==> parent[S[k]] != NIL
  }

  /** One round of the last loop. */
  method CutStep(S: List<int>, parent: array<int>, L: List<int>, comps: seq<seq<int>>, ghost b: seq<nat>)
    returns (comps': seq<seq<int>>, ghost b': seq<nat>)
    requires S.Valid() && L.Valid() && S != L && S.Repr !! L.Repr && 0 <= S.index < |S.Contents|
    requires Cutting(S.Contents, parent[..], S.index, L.Contents, comps, b)
    modifies S`cursor, S`index, L, L.Repr
    ensures S.Valid() && L.Valid() && fresh(L.Repr - old(L.Repr)) && S.index == old(S.index) - 1
    ensures Cutting(S.Contents, parent[..], S.index, L.Contents, comps', b')
  {
    hide List.Linked, List.CursorAgrees, CutAtRoots, Cutting;
    comps', b' := comps, b;
    var curr := S.Get();
    CutMore(S.Contents, parent[..], S.index, L.Contents, comps, b);
    L.Prepend(curr);
    if parent[curr] == NIL {
      var component := Elements(L);
      comps', b' := comps + [component], b + [S.index];
      L.Clear();
    }
    S.MovePrev();
  }

  /** The last loop: walks S from the back and cuts off a component at every root. */
  method CutComponents(S: List<int>, parent: array<int>) returns (comps: seq<seq<int>>, ghost b: seq<nat>)
    requires S.Usable()
    requires forall i :: 0 <= i < |S.Contents| ==> 0 <= S.Contents[i] < parent.Length
    requires S.Contents != [] ==> parent[S.Contents[0]] == NIL
    modifies S`cursor, S`index
    ensures S.Valid()
    ensures CutAtRoots(S.Contents, parent[..], comps, b) && b[|comps|] == 0
  {
    hide List.Linked, List.CursorAgrees, CutAtRoots, Cutting;
    var L := new List<int>();
    comps, b := [], [|S.Contents|];
    CutNone(S.Contents, parent[..]);
    S.MoveBack();
    while S.index >= 0
      invariant S.Valid() && L.Valid() && fresh(L) && fresh(L.Repr)
      invariant -1 <= S.index < |S.Contents|
      invariant Cutting(S.Contents, parent[..], S.index, L.Contents, comps, b)
    {
      comps, b := CutStep(S, parent, L, comps, b);
    }
    CutAll(S.Contents, parent[..], L.Contents, comps, b);
  }

  lemma CutMore(S: seq<int>, parent: seq<int>, i: int, L: seq<int>, comps: seq<seq<int>>, b: seq<nat>)
    requires Cutting(S, parent, i, L, comps, b) && 0 <= i < |S|
    ensures 0 <= S[i] < |parent|
    ensures parent[S[i]] != NIL ==> Cutting(S, parent, i - 1, [S[i]] + L, comps, b)
    ensures parent[S[i]] == NIL ==> Cutting(S, parent, i - 1, [], comps + [[S[i]] + L], b + [i])
  {
    assert [S[i]] + L == S[i..b[|comps|]];
    if parent[S[i]] == NIL {
      var comps', b' := comps + [[S[i]] + L], b + [i];
      forall k | 0 <= k < |comps'| ensures IsBlock(S, parent, comps'[k], b'[k + 1], b'[k]) {
        assert k < |comps| ==> IsBlock(S, parent, comps[k], b[k + 1], b[k]);
      }
    }
  }

  lemma CutNone(S: seq<int>, parent: seq<int>)
    requires forall i :: 0 <= i < |S| ==> 0 <= S[i] < |parent|
    ensures Cutting(S, parent, |S| - 1, [], [], [|S|])
  {
  }

  lemma CutAll(S: seq<int>, parent: seq<int>, L: seq<int>, comps: seq<seq<int>>, b: seq<nat>)
    requires Cutting(S, parent, -1, L, comps, b)
    requires S != [] ==> 0 <= S[0] < |parent| && parent[S[0]] == NIL
    ensures CutAtRoots(S, parent, comps, b) && b[|comps|] == 0
  {
  }

  /** What main does after the second search: counting and cutting. */
  method CollectComponents(S: List<int>, parent: array<int>, n: nat, ghost r: Passes)
    returns (counter: nat, comps: seq<seq<int>>)
    requires S.Usable() && FirstPass(r) && SecondPass(r)
    requires r.S2 == S.Contents && r.second.parent == parent[..] && parent.Length == n + 1
    modifies S`cursor, S`index
    ensures IsSccList(r.g, comps) && counter == |comps| && Joined(comps) == r.S2
  {
    assert forall i :: 0 <= i < |S.Contents| ==> 0 <= S.Contents[i] < parent.Length;
    hide List.Linked, List.CursorAgrees, FirstPass, CutAtRoots, IsSccList, IsRoot, Forest, Decreasing, Joined;
    counter := CountRoots(parent, n);
    if r.S2 != [] {
      LastFinishedIsRoot(r);
    }
    ghost var b;
    comps, b := CutComponents(S, parent);
    BlocksAreComponents(r, comps, b);
    ComponentCount(r, comps, b);
    BlocksJoin(r, comps, b);
  }

  /** What main does from the second search on. */
  method SearchTranspose(T: Graph, S: List<int>, ghost r: Passes) returns (counter: nat, comps: seq<seq<int>>)
    requires T.Sound() && S.Valid() && T.Apart(S) && IsOrder(T.Adj(), S.Contents)
    requires FirstPass(r) && SecondPass(r) && r.S1 == S.Contents && WellFormed(T.Adj())
    requires Shaped(T.Adj(), T.Snapshot(0)) && r.second == Dfs(T.Adj(), S.Contents, T.Snapshot(0))
    requires r.S2 == SortByFinish(r.second.finish, r.S1)
    modifies T.color, T.parent, T.discover, T.finish, T.neighbors.Lists`cursor, T.neighbors.Lists`index
    modifies S`cursor, S`index, S`Contents, S.Repr
    ensures IsSccList(r.g, comps) && counter == |comps| && Joined(comps) == r.S2
  {
    hide Graph.Sound, Joined, IsSccList, IsOrder, SortByFinish, Forests.Dfs, FirstPass, SecondPass;
    hide List.Linked, List.CursorAgrees, WellFormed, Graph.Apart;
    T.Dfs(S);
    T.SoundShape(0);
    counter, comps := CollectComponents(S, T.parent, T.order, r);
  }

  /** What main does up to the first search: S comes out in the order of finish. */
  method SearchFirst(G: Graph) returns (S: List<int>)
    requires G.Sound()
    modifies G.color, G.parent, G.discover, G.finish, G.neighbors.Lists`cursor, G.neighbors.Lists`index
    ensures G.Sound() && fresh(S) && fresh(S.Repr) && S.Valid()
    ensures WellFormed(G.Adj()) && old(Shaped(G.Adj(), G.Snapshot(0))) && IsOrder(G.Adj(), seq(G.order, i => i + 1))
    ensures S.Contents == SortByFinish(Forests.Dfs(G.Adj(), seq(G.order, i => i + 1), old(G.Snapshot(0))).finish,
                                       seq(G.order, i => i + 1))
  {
    hide Graph.Sound, IsOrder, SortByFinish, Forests.Dfs, List.Linked, List.CursorAgrees, WellFormed;
    G.SoundShape(0);
    S := AllVertices(G.order);
    G.ListsKept();
    AllVerticesInOrder(G.Adj());
    G.Dfs(S);
  }

  lemma SecondOrder(r: Passes)
    requires SecondPass(r)
    ensures Decreasing(r.second.finish, r.S2)
  {
  }

  /** Main theorem, for the method: the printed lists are the strongly connected
      components of G, as many as announced, each once, and every arc between two
      of them leads from a lower to a higher component number.  From the last list
      to the first, the vertices stand in decreasing order of the finish times of
      the second search; r and s2 say which searches these were. */
  method FindComponents(G: Graph) returns (counter: nat, comps: seq<seq<int>>, ghost r: Passes, ghost s2: State)
    requires G.Sound()
    modifies G.color, G.parent, G.discover, G.finish, G.neighbors.Lists`cursor, G.neighbors.Lists`index
    ensures G.Sound() && IsSccList(G.Adj(), comps) && counter == |comps|
    ensures r.g == G.Adj() && Reversed(r.g, r.t) && Canonical(r.t)
    ensures Searched(r, seq(G.order, i => i + 1), old(G.Snapshot(0)), s2)
    ensures Decreasing(r.second.finish, r.S2) && Joined(comps) == r.S2
  {
    hide Graph.Sound, Searched, Joined, Decreasing, IsSccList, CutAtRoots, IsOrder, SortByFinish, Forests.Dfs, FirstPass, SecondPass;
    hide List.Linked, List.CursorAgrees, WellFormed, Reversed, Canonical, Graph.Copied, Graph.Counted;
    ghost var s1 := G.Snapshot(0);
    var S := SearchFirst(G);
    var T := G.Transpose();
    T.SoundShape(0);
    s2 := T.Snapshot(0);
    r := PassesDone(G.Adj(), seq(G.order, i => i + 1), s1, T.Adj(), s2);
    SecondOrder(r);
    counter, comps := SearchTranspose(T, S, r);
  }
}
