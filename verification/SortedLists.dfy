/** Insertion into the sorted neighbour lists, as both addArc functions do it. */
module SortedLists {
  import opened Lists

  /** Where the backward walk of addArc leaves v: after the last element not above it. */
  function SortedInsert(s: seq<int>, v: int): (r: seq<int>) {
    if s == [] then [v]
    else if s[|s| - 1] > v then SortedInsert(s[..|s| - 1], v) + [s[|s| - 1]]
    else s + [v]
  }

  ghost predicate Sorted(s: seq<int>) {
    forall i, j :: 0 <= i < j < |s| ==> s[i] <= s[j]
  }

  ghost predicate StrictlySorted(s: seq<int>) {
    forall i, j :: 0 <= i < j < |s| ==> s[i] < s[j]
  }

  lemma {:induction false} InsertedAtIndex(s: seq<int>, v: int, j: int)
    requires -1 <= j < |s| && (forall k :: j < k < |s| ==> s[k] > v) && (j >= 0 ==> s[j] <= v)
    ensures SortedInsert(s, v) == InsertAt(s, j + 1, v)
  {
    if j < |s| - 1 {
      var t, last := s[..|s| - 1], s[|s| - 1];
      InsertedAtIndex(t, v, j);
      assert SortedInsert(s, v) == SortedInsert(t, v) + [last];
      assert InsertAt(s, j + 1, v) == InsertAt(t, j + 1, v) + [last];
    }
  }

  /** The insertion adds v and nothing else. */
  lemma {:induction false} SortedInsertAdds(s: seq<int>, v: int)
    ensures |SortedInsert(s, v)| == |s| + 1
    ensures forall x :: x in SortedInsert(s, v) <==> x in s || x == v
  {
    if s != [] && s[|s| - 1] > v {
      assert s == s[..|s| - 1] + [s[|s| - 1]];
      SortedInsertAdds(s[..|s| - 1], v);
    }
  }

  /** Not even an element more than once, or one less of another. */
  lemma {:induction false} SortedInsertCounts(s: seq<int>, v: int)
    ensures multiset(SortedInsert(s, v)) == multiset(s) + multiset{v}
  {
    if s != [] && s[|s| - 1] > v {
      assert s == s[..|s| - 1] + [s[|s| - 1]];
      SortedInsertCounts(s[..|s| - 1], v);
    }
  }

  lemma AppendSorted(s: seq<int>, v: int)
    requires Sorted(s) && forall x <- s :: x <= v
    ensures Sorted(s + [v])
    ensures StrictlySorted(s) && v !in s ==> StrictlySorted(s + [v])
  {
    assert forall i :: 0 <= i < |s| ==> s[i] in s;
  }

  /** The insertion keeps the order. */
  lemma {:induction false} SortedInsertKeeps(s: seq<int>, v: int)
    requires Sorted(s)
    ensures Sorted(SortedInsert(s, v))
    ensures StrictlySorted(s) && v !in s ==> StrictlySorted(SortedInsert(s, v))
  {
    if s != [] && s[|s| - 1] > v {
      var t, last := s[..|s| - 1], s[|s| - 1];
      SortedInsertKeeps(t, v);
      SortedInsertAdds(t, v);
      AppendSorted(SortedInsert(t, v), last);
    } else if s != [] {
      AppendSorted(s, v);
    }
  }

  lemma StrictLast(s: seq<int>)
    requires StrictlySorted(s) && s != []
    ensures StrictlySorted(s[..|s| - 1])
    ensures forall x :: x in s[..|s| - 1] <==> x in s && x != s[|s| - 1]
    ensures forall x <- s :: x <= s[|s| - 1]
  {
    assert s == s[..|s| - 1] + [s[|s| - 1]];
  }

  lemma EmptyTogether(s: seq<int>, t: seq<int>)
    requires forall x :: x in s <==> x in t
    ensures s == [] <==> t == []
  {
    if s != [] {
      var x := s[0];
      assert x in s && x in t;
    }
    if t != [] {
      var x := t[0];
      assert x in t && (x in s <==> x in t);
    }
  }

  /** A strictly sorted list is determined by its elements. */
  lemma {:induction false} SortedUnique(s: seq<int>, t: seq<int>)
    requires StrictlySorted(s) && StrictlySorted(t) && forall x :: x in s <==> x in t
    ensures s == t
  {
    if s != [] && t != [] {
      StrictLast(s);
      StrictLast(t);
      assert s[|s| - 1] in s && s[|s| - 1] in t && t[|t| - 1] in t && t[|t| - 1] in s;
      var s', t' := s[..|s| - 1], t[..|t| - 1];
      forall x ensures x in s' <==> x in t' {
        assert x in s <==> x in t;
      }
      SortedUnique(s', t');
      assert s == s[..|s| - 1] + [s[|s| - 1]] && t == t[..|t| - 1] + [t[|t| - 1]];
    } else {
      EmptyTogether(s, t);
    }
  }

  lemma InsertAtFront(s: seq<int>, v: int)
    ensures [v] + s == InsertAt(s, 0, v)
  {
  }

  /** The backward walk: to the last element not above v, or past the front. */
  method WalkBack(L: List<int>, v: int)
    requires L.Valid()
    modifies L`cursor, L`index
    ensures L.Valid() && -1 <= L.index < |L.Contents|
    ensures forall k :: L.index < k < |L.Contents| ==> L.Contents[k] > v
    ensures L.index >= 0 ==> L.Contents[L.index] <= v
  {
    hide List.Linked, List.CursorAgrees;
    L.MoveBack();
    while L.index >= 0
      invariant L.Valid() && -1 <= L.index < |L.Contents|
      invariant forall k :: L.index < k < |L.Contents| ==> L.Contents[k] > v
      decreases L.index
    {
      var x := L.Get();
      if x <= v {
        return;
      }
      L.MovePrev();
    }
  }

  /** The backward walk and the insertion at its end, on a non-empty list. */
  method InsertSorted(L: List<int>, v: int)
    requires L.Valid() && L.Contents != []
    modifies L, L.Repr
    ensures L.Valid() && fresh(L.Repr - old(L.Repr))
    ensures L.Contents == SortedInsert(old(L.Contents), v)
  {
    hide List.Linked, List.CursorAgrees, SortedInsert, InsertAt;
    WalkBack(L, v);
    InsertedAtIndex(L.Contents, v, L.index);
    InsertAtFront(L.Contents, v);
    if L.index < 0 {
      L.Prepend(v);
    } else {
      L.InsertAfter(v);
    }
  }

  /** Inserts v unless the list has it: addArc of the depth-first-search project. */
  method InsertOnce(L: List<int>, v: int) returns (added: bool)
    requires L.Valid()
    modifies L, L.Repr
    ensures L.Valid() && fresh(L.Repr - old(L.Repr))
    ensures added <==> v !in old(L.Contents)
    ensures L.Contents == if added then SortedInsert(old(L.Contents), v) else old(L.Contents)
  {
    hide List.Linked, List.CursorAgrees;
    var n := L.Length();
    if n == 0 {
      L.Append(v);
      return true;
    }
    L.MoveFront();
    ghost var k := 0;
    while L.index >= 0
      invariant L.Valid() && L.Contents == old(L.Contents) && L.Repr == old(L.Repr)
      invariant k <= |L.Contents| && L.index == if k < |L.Contents| then k else -1
      invariant v !in L.Contents[..k]
      decreases |L.Contents| - k
    {
      var x := L.Get();
      if x == v {
        return false;
      }
      L.MoveNext();
      k := k + 1;
    }
    assert L.Contents[..k] == L.Contents;
    InsertSorted(L, v);
    added := true;
  }

  /** Inserts v, whether the list has it or not: addArc of the breadth-first-search
      project. */
  method InsertAgain(L: List<int>, v: int)
    requires L.Valid()
    modifies L, L.Repr
    ensures L.Valid() && fresh(L.Repr - old(L.Repr))
    ensures L.Contents == SortedInsert(old(L.Contents), v)
  {
    hide List.Linked, List.CursorAgrees;
    var n := L.Length();
    if n == 0 {
      L.Append(v);
    } else {
      InsertSorted(L, v);
    }
  }
}
