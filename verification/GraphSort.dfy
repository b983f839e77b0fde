/** The second half of DFS in Graph.c: reordering S by decreasing finish time. */
module GraphSort {
  import opened Lists
  import opened Scc
  import opened SortedLists

  lemma {:induction false} InsertedAt(finish: seq<int>, L: seq<int>, v: int, j: int)
    requires 0 <= v < |finish| && forall i :: 0 <= i < |L| ==> 0 <= L[i] < |finish|
    requires -1 <= j < |L| && forall k :: j < k < |L| ==> finish[L[k]] < finish[v]
    requires j >= 0 ==> finish[L[j]] >= finish[v]
    ensures InsertByFinish(finish, L, v) == InsertAt(L, j + 1, v)
  {
    if j < |L| - 1 {
      var K, last := L[..|L| - 1], L[|L| - 1];
      InsertedAt(finish, K, v, j);
      assert InsertByFinish(finish, L, v) == InsertByFinish(finish, K, v) + [last];
      assert InsertAt(L, j + 1, v) == InsertAt(K, j + 1, v) + [last];
    }
  }

  ghost predicate Stamped(finish: array<int>, L: seq<int>) {
    forall i :: 0 <= i < |L| ==> 0 <= L[i] < finish.Length
  }

  /** The backward walk: to the last vertex that does not finish before v, or past
      the front. */
  method WalkBack(L: List<int>, finish: array<int>, v: int)
    requires L.Valid() && 0 <= v < finish.Length && Stamped(finish, L.Contents)
    modifies L`cursor, L`index
    ensures L.Valid() && -1 <= L.index < |L.Contents|
    ensures forall k :: L.index < k < |L.Contents| ==> finish[L.Contents[k]] < finish[v]
    ensures L.index >= 0 ==> finish[L.Contents[L.index]] >= finish[v]
  {
    hide List.Linked, List.CursorAgrees;
    L.MoveBack();
    while L.index >= 0
      invariant L.Valid() && -1 <= L.index < |L.Contents|
      invariant forall k :: L.index < k < |L.Contents| ==> finish[L.Contents[k]] < finish[v]
      decreases L.index
    {
      var x := L.Get();
      if finish[x] >= finish[v] {
        return;
      }
      L.MovePrev();
    }
  }

  /** The inner loop: v goes behind the last vertex that does not finish before it. */
  method InsertVertex(L: List<int>, finish: array<int>, v: int)
    requires L.Valid() && 0 <= v < finish.Length && Stamped(finish, L.Contents)
    modifies L, L.Repr
    ensures L.Valid() && fresh(L.Repr - old(L.Repr))
    ensures L.Contents == InsertByFinish(finish[..], old(L.Contents), v)
  {
    hide List.Linked, List.CursorAgrees, InsertByFinish, InsertAt;
    WalkBack(L, finish, v);
    InsertedAt(finish[..], L.Contents, v, L.index);
    InsertAtFront(L.Contents, v);
    if L.index < 0 {
      L.Prepend(v);
    } else {
      L.InsertAfter(v);
    }
  }

  /** The list that is built from the first n elements of S. */
  ghost function SortedPrefix(finish: seq<int>, S: seq<int>, n: nat): (r: seq<int>)
    requires n <= |S| && forall i :: 0 <= i < |S| ==> 0 <= S[i] < |finish|
    ensures forall i :: 0 <= i < |r| ==> 0 <= r[i] < |finish|
  {
    SortByFinish(finish, S[..n])
  }

  lemma SortedPrefixSteps(finish: seq<int>, S: seq<int>, n: nat)
    requires n <= |S| && forall i :: 0 <= i < |S| ==> 0 <= S[i] < |finish|
    ensures n == 0 ==> SortedPrefix(finish, S, n) == []
    ensures n < |S| ==> SortedPrefix(finish, S, n + 1) == InsertByFinish(finish, SortedPrefix(finish, S, n), S[n])
    ensures n == |S| ==> SortedPrefix(finish, S, n) == SortByFinish(finish, S)
  {
    if n < |S| {
      assert S[..n + 1][..n] == S[..n];
    } else {
      assert S[..n] == S;
    }
  }

  /** The outer loop: the list L in decreasing finish order, built from S. */
  method BuildSorted(S: List<int>, finish: array<int>) returns (L: List<int>)
    requires S.Usable() && Stamped(finish, S.Contents)
    modifies S`cursor, S`index
    ensures S.Valid() && fresh(L) && fresh(L.Repr) && L.Valid()
    ensures L.Contents == SortByFinish(finish[..], S.Contents)
  {
    hide List.Linked, List.CursorAgrees, InsertByFinish, SortByFinish, SortedPrefix;
    L := new List<int>();
    S.MoveFront();
    ghost var n := 0;
    SortedPrefixSteps(finish[..], S.Contents, n);
    while S.index >= 0
      invariant S.Valid() && L.Valid() && fresh(L) && fresh(L.Repr)
      invariant n <= |S.Contents| && S.index == if n < |S.Contents| then n else -1
      invariant L.Contents == SortedPrefix(finish[..], S.Contents, n)
      decreases |S.Contents| - n
    {
      var v := S.Get();
      SortedPrefixSteps(finish[..], S.Contents, n);
      InsertVertex(L, finish, v);
      S.MoveNext();
      n := n + 1;
    }
    SortedPrefixSteps(finish[..], S.Contents, n);
  }

  /** The last loop: S takes over the elements of L. */
  method Overwrite(S: List<int>, L: List<int>)
    requires S.Valid() && L.Valid() && S != L && S.Repr !! L.Repr && |S.Contents| == |L.Contents|
    modifies S`cursor, S`index, S`Contents, S.Repr, L`cursor, L`index
    ensures S.Valid() && S.Contents == L.Contents
  {
    hide List.Linked, List.CursorAgrees;
    L.MoveFront();
    S.MoveFront();
    ghost var n := 0;
    while L.index >= 0
      invariant S.Valid() && L.Valid() && |S.Contents| == |L.Contents|
      invariant n <= |L.Contents| && S.index == L.index == if n < |L.Contents| then n else -1
      invariant forall i :: 0 <= i < n ==> S.Contents[i] == L.Contents[i]
      decreases |L.Contents| - n
    {
      var x := L.Get();
      S.Set(x);
      S.MoveNext();
      L.MoveNext();
      n := n + 1;
    }
  }

  /** S in decreasing finish order. */
  method Reorder(S: List<int>, finish: array<int>)
    requires S.Usable()
    requires Stamped(finish, S.Contents)
    modifies S`cursor, S`index, S`Contents, S.Repr
    ensures S.Valid() && S.Contents == SortByFinish(finish[..], old(S.Contents))
  {
    hide List.Linked, List.CursorAgrees, SortByFinish;
    var L := BuildSorted(S, finish);
    SortLength(finish[..], S.Contents);
    Overwrite(S, L);
  }
}
