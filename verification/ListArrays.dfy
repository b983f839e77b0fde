/** An array of lists, as the graphs keep for their neighbours and the matrices for
    their rows.  Slot 0 is not used. */
module ListArrays {
  import opened Lists

  /** n empty lists. */
  method NewLists<T>(n: nat) returns (lists: seq<List<T>>, ghost all: set<List<T>>)
    ensures |lists| == n && fresh(all)
    ensures forall i :: 0 <= i < n ==>
              lists[i] in all && lists[i].Valid() && lists[i].Contents == [] && lists[i].Repr == {}
    ensures forall i, j :: 0 <= i < j < n ==> lists[i] != lists[j]
  {
    hide List.Linked, List.CursorAgrees, List.CursorStale;
    lists, all := [], {};
    while |lists| < n
      invariant |lists| <= n && fresh(all)
      invariant forall i :: 0 <= i < |lists| ==>
                  lists[i] in all && lists[i].Valid() && lists[i].Contents == [] && lists[i].Repr == {}
      invariant forall i, j :: 0 <= i < j < |lists| ==> lists[i] != lists[j]
    {
      var l := new List<T>();
      lists, all := lists + [l], all + {l};
    }
  }

  /** The lists of a copy, and the nodes they are made of. */
  method CopyLists<T>(src: ListArray<T>) returns (lists: seq<List<T>>, ghost all: set<List<T>>, ghost nodes: set<Node<T>>)
    requires src.Sound()
    ensures src.Sound() && |lists| == |src.lists| == |src.Rows| && fresh(all) && fresh(nodes)
    ensures forall i :: 0 <= i < |lists| ==> lists[i] in all && lists[i].Repr <= nodes && lists[i].Valid()
    ensures forall i :: 0 <= i < |lists| ==> lists[i].Contents == src.Rows[i]
    ensures forall i, j :: 0 <= i < j < |lists| ==> lists[i] != lists[j] && lists[i].Repr !! lists[j].Repr
  {
    hide List.Linked, List.CursorAgrees;
    lists, all, nodes := [], {}, {};
    while |lists| < |src.lists|
      invariant src.Sound() && |lists| <= |src.lists| && fresh(all) && fresh(nodes)
      invariant forall i :: 0 <= i < |lists| ==> lists[i] in all && lists[i].Repr <= nodes && lists[i].Valid()
      invariant forall i :: 0 <= i < |lists| ==> lists[i].Contents == src.Rows[i]
      invariant forall i, j :: 0 <= i < j < |lists| ==> lists[i] != lists[j] && lists[i].Repr !! lists[j].Repr
    {
      var l := CopyList(src.lists[|lists|]);
      src.Kept();
      lists, all, nodes := lists + [l], all + {l}, nodes + l.Repr;
    }
  }

  class ListArray<T> {
    const lists: seq<List<T>>
    ghost const Lists: set<List<T>>
    ghost var Nodes: set<Node<T>>
    ghost var Rows: seq<seq<T>>
    ghost const deletes: bool  // whether elements are deleted, so that a cursor may be stale

    function At(i: int): List<T>
      requires 0 <= i < |lists|
    {
      lists[i]
    }

    /** The lists represent Rows and share nothing.  Cursors do not matter here. */
    ghost predicate Wired()
      reads this, Nodes
      reads Lists`length, Lists`front, Lists`back, Lists`nodes, Lists`Contents, Lists`Repr
    {
      && |lists| == |Rows|
      && (forall i :: 0 <= i < |lists| ==> lists[i] in Lists && lists[i].Repr <= Nodes)
      && (forall i :: 0 <= i < |lists| ==> lists[i].Linked() && lists[i].Contents == Rows[i])
      && (forall i, j :: 0 <= i < j < |lists| ==> lists[i] != lists[j] && lists[i].Repr !! lists[j].Repr)
    }

    /** The cursor of l is defined and agrees with its index, or is undefined. */
    ghost predicate Tame(l: List<T>)
      reads l`index, l`cursor, l`length, l`nodes
    {
      l.CursorAgrees() || (deletes && l.CursorStale())
    }

    ghost predicate Steady()
      reads Lists`index, Lists`cursor, Lists`length, Lists`nodes
    {
      forall i :: 0 <= i < |lists| ==> lists[i] in Lists && Tame(lists[i])
    }

    ghost predicate Sound()
      reads this, Nodes
      reads Lists`length, Lists`front, Lists`back, Lists`nodes, Lists`Contents, Lists`Repr
      reads Lists`index, Lists`cursor
    {
      Wired() && Steady()
    }

    constructor (n: nat, ghost deletes: bool)
      ensures this.deletes == deletes && Sound() && |lists| == n && Rows == seq(n, _ => [])
      ensures fresh(Lists) && fresh(Nodes)
    {
      hide List.Linked, List.CursorAgrees, List.CursorStale;
      var ls, all := NewLists<T>(n);
      lists, Lists, this.deletes := ls, all, deletes;
      Nodes, Rows := {}, seq(n, _ => []);
    }

    /** A copy of every list, as copyGraph makes them. */
    constructor CopyOf(src: ListArray<T>)
      requires src.Sound()
      ensures src.Sound() && Sound() && !deletes && Rows == src.Rows
      ensures |lists| == |src.lists| && fresh(Lists) && fresh(Nodes)
    {
      var ls, all, nodes := CopyLists(src);
      lists, Lists, Nodes, Rows, deletes := ls, all, nodes, src.Rows, false;
      new;
      hide List.Linked, List.CursorAgrees, List.CursorStale;
      assert Rows == src.Rows && |lists| == |Rows|;
      assert Wired() && Steady();
    }

    lemma InFrame(i: int)
      requires Sound() && 0 <= i < |lists|
      ensures |lists| == |Rows| && At(i) in Lists && At(i).Repr <= Nodes && At(i).Contents == Rows[i]
      ensures At(i).Usable() && (!deletes ==> At(i).Valid())
    {
    }

    /** Writing elsewhere keeps the lists as they are. */
    twostate lemma Kept()
      requires old(Sound())
      requires unchanged(this) && unchanged(Lists) && unchanged(old(Nodes))
      ensures Sound()
    {
      forall i | 0 <= i < |lists| ensures lists[i].Linked() && Tame(lists[i]) {
        assert old(lists[i].Linked() && Tame(lists[i]));
      }
    }

    /** Sound but for list u, which may hold anything. */
    ghost predicate SoundBut(u: int)
      reads this, Lists, Nodes
    {
      && 0 <= u < |lists| == |Rows|
      && (forall i :: 0 <= i < |lists| ==> lists[i] in Lists)
      && (forall i, j :: 0 <= i < j < |lists| ==> lists[i] != lists[j] && lists[i].Repr !! lists[j].Repr)
      && forall i :: 0 <= i < |lists| && i != u ==>
           lists[i].Repr <= Nodes && lists[i].Linked() && Tame(lists[i]) && lists[i].Contents == Rows[i]
    }

    /** Changing one list keeps the others. */
    twostate lemma OthersKept(u: int)
      requires old(Sound()) && unchanged(this) && 0 <= u < |lists|
      requires unchanged(Lists - {At(u)})
      requires unchanged(old(Nodes) - old(At(u).Repr))
      requires fresh(At(u).Repr - old(At(u).Repr))
      ensures SoundBut(u)
    {
      hide List.Linked, List.CursorAgrees, List.CursorStale;
      forall i | 0 <= i < |lists| && i != u
        ensures lists[i].Repr <= Nodes && lists[i].Linked() && Tame(lists[i]) && lists[i].Contents == Rows[i]
        ensures lists[i].Repr !! lists[u].Repr
      {
        assert lists[i] in Lists && lists[i] != lists[u];
        assert old(lists[i].Linked() && Tame(lists[i]) && lists[i].Repr !! lists[u].Repr);
      }
    }

    /** Takes over what list u holds after a change. */
    ghost method Adopt(u: int)
      requires SoundBut(u) && At(u).Linked() && Tame(At(u))
      modifies this`Rows, this`Nodes
      ensures Sound() && Rows == old(Rows)[u := At(u).Contents] && Nodes == old(Nodes) + At(u).Repr
    {
      hide List.Linked, List.CursorAgrees, List.CursorStale;
      Rows, Nodes := Rows[u := At(u).Contents], Nodes + At(u).Repr;
    }

    /** length of list i. */
    method Length(i: int) returns (n: nat)
      requires Sound() && 0 <= i < |lists|
      ensures Sound() && |lists| == |Rows| && n == |Rows[i]|
    {
      n := lists[i].Length();
    }

    /** moveFront on list i. */
    method MoveFront(i: int)
      requires Sound() && 0 <= i < |lists|
      modifies At(i)`cursor, At(i)`index
      ensures Sound() && |lists| == |Rows| && At(i).CursorAgrees()
      ensures At(i).index == if Rows[i] == [] then -1 else 0
      ensures forall k :: 0 <= k < |lists| && k != i ==> At(k).index == old(At(k).index)
    {
      lists[i].MoveFront();
    }

    /** get on list i. */
    method Get(i: int) returns (x: T)
      requires Sound() && 0 <= i < |lists| && (!deletes || At(i).CursorAgrees()) && At(i).index >= 0
      ensures Sound() && |lists| == |Rows|
      ensures 0 <= At(i).index < |Rows[i]| && x == Rows[i][At(i).index]
    {
      x := lists[i].Get();
    }

    /** moveNext on list i. */
    method MoveNext(i: int)
      requires Sound() && 0 <= i < |lists| && (!deletes || At(i).CursorAgrees())
      modifies At(i)`cursor, At(i)`index
      ensures Sound() && |lists| == |Rows| && At(i).CursorAgrees()
      ensures At(i).index == NextIndex(old(At(i).index), |Rows[i]|)
      ensures forall k :: 0 <= k < |lists| && k != i ==> At(k).index == old(At(k).index)
    {
      lists[i].MoveNext();
    }
  }
}
