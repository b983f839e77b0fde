/** The entries of Matrix.c, as objects, and changeEntry's walk along a row of them. */
module EntryLists {
  import opened Lists
  import opened SparseRows

  /** An entry belongs to one row for good; only its data changes. */
  class Entry {
    const col: int
    var data: real
    ghost const row: int

    constructor (col: int, data: real, ghost row: int)
      ensures this.col == col && this.data == data && this.row == row
    {
      this.col, this.data, this.row := col, data, row;
    }
  }

  /** The entries of row i carry the cells of r; all of them are in S. */
  ghost predicate Carries(es: seq<Entry>, S: set<Entry>, i: int, r: seq<Cell>)
    reads S`data
  {
    && |es| == |r|
    && forall k :: 0 <= k < |es| ==>
         es[k] in S && es[k].row == i && es[k].col == r[k].col && es[k].data == r[k].val
  }

  lemma CarriesMore(es: seq<Entry>, S: set<Entry>, T: set<Entry>, i: int, r: seq<Cell>)
    requires Carries(es, S, i, r) && S <= T
    ensures Carries(es, T, i, r)
  {
  }

  lemma CarriesInsert(es: seq<Entry>, S: set<Entry>, i: int, r: seq<Cell>, k: nat, e: Entry)
    requires Carries(es, S, i, r) && k <= |es| && e.row == i
    ensures |es| == |r| && Carries(InsertAt(es, k, e), S + {e}, i, InsertAt(r, k, Cell(e.col, e.data)))
  {
  }

  lemma CarriesRemove(es: seq<Entry>, S: set<Entry>, i: int, r: seq<Cell>, k: nat)
    requires Carries(es, S, i, r) && k < |es|
    ensures |es| == |r| && Carries(RemoveAt(es, k), S, i, RemoveAt(r, k))
  {
  }

  /** E->data = x, for the entry in position k: no other entry of the row has its
      column, so no other cell changes. */
  method SetData(e: Entry, x: real, ghost es: seq<Entry>, ghost S: set<Entry>, ghost i: int, ghost r: seq<Cell>, ghost n: int, ghost k: nat)
    requires Carries(es, S, i, r) && Canonical(r, n) && k < |es| && e == es[k]
    modifies S`data
    ensures |es| == |r| && Carries(es, S, i, r[k := Cell(e.col, x)])
    ensures forall f :: f in S && f != e ==> f.data == old(f.data)
  {
    e.data := x;
  }

  lemma CarriesAt(es: seq<Entry>, S: set<Entry>, i: int, r: seq<Cell>, k: int)
    requires Carries(es, S, i, r) && 0 <= k < |es|
    ensures |es| == |r| && es[k] in S && es[k].row == i && es[k].col == r[k].col && es[k].data == r[k].val
  {
  }

  /** changeEntry where the cursor stands at an entry of the column. */
  method ChangeFound(L: List<Entry>, E: Entry, ghost i: int, x: real, ghost S: set<Entry>, ghost r: seq<Cell>, ghost n: int)
    returns (delta: int)
    requires L.Valid() && Carries(L.Contents, S, i, r) && Canonical(r, n)
    requires 0 <= L.index < |L.Contents| == |r| && E == L.Contents[L.index]
    modifies L, L.Repr, S`data
    ensures L.Usable() && fresh(L.Repr - old(L.Repr))
    ensures Carries(L.Contents, S, i, if x == 0.0 then RemoveAt(r, old(L.index)) else r[old(L.index) := Cell(E.col, x)])
    ensures delta == if x == 0.0 then -1 else 0
    ensures forall e :: e in S && e != E ==> e.data == old(e.data)
  {
    hide List.Linked, List.CursorAgrees, List.CursorStale, Carries;
    if x == 0.0 {
      CarriesRemove(L.Contents, S, i, r, L.index);
      L.Delete();
      delta := -1;
    } else {
      SetData(E, x, L.Contents, S, i, r, n, L.index);
      delta := 0;
    }
  }

  /** changeEntry where the cursor stands at the first entry of a higher column. */
  method ChangeBefore(L: List<Entry>, ghost i: int, j: int, x: real, ghost S: set<Entry>, ghost r: seq<Cell>)
    returns (delta: int, ghost more: set<Entry>)
    requires L.Valid() && Carries(L.Contents, S, i, r) && 0 <= L.index < |L.Contents| == |r|
    modifies L, L.Repr
    ensures L.Usable() && fresh(L.Repr - old(L.Repr)) && fresh(more)
    ensures Carries(L.Contents, S + more, i, if x != 0.0 then InsertAt(r, old(L.index), Cell(j, x)) else r)
    ensures delta == if x != 0.0 then 1 else 0
  {
    hide List.Linked, List.CursorAgrees, List.CursorStale, Carries, InsertAt;
    delta, more := 0, {};
    assert S + {} == S;
    if x != 0.0 {
      var E1 := new Entry(j, x, i);
      CarriesInsert(L.Contents, S, i, r, L.index, E1);
      L.InsertBefore(E1);
      delta, more := 1, {E1};
    }
  }

  /** changeEntry where no entry is left. */
  method ChangeBehind(L: List<Entry>, ghost i: int, j: int, x: real, ghost S: set<Entry>, ghost r: seq<Cell>)
    returns (delta: int, ghost more: set<Entry>)
    requires L.Usable() && Carries(L.Contents, S, i, r) && |L.Contents| == |r|
    modifies L, L.Repr
    ensures L.Usable() && fresh(L.Repr - old(L.Repr)) && fresh(more)
    ensures Carries(L.Contents, S + more, i, if x != 0.0 then InsertAt(r, |r|, Cell(j, x)) else r)
    ensures delta == if x != 0.0 then 1 else 0
  {
    hide List.Linked, List.CursorAgrees, List.CursorStale, Carries;
    delta, more := 0, {};
    assert S + {} == S;
    if x != 0.0 {
      var E2 := new Entry(j, x, i);
      CarriesInsert(L.Contents, S, i, r, |r|, E2);
      L.Append(E2);
      assert L.Contents == InsertAt(old(L.Contents), |r|, E2);
      delta, more := 1, {E2};
    }
  }

  /** The loop of changeEntry: stops at column j itself, or at the first column
      above, or past the end. */
  method Walk(L: List<Entry>, ghost i: int, j: int, ghost S: set<Entry>, ghost r: seq<Cell>)
    requires L.Usable() && Carries(L.Contents, S, i, r)
    modifies L`cursor, L`index
    ensures L.Valid() && -1 <= L.index < |L.Contents| == |r|
    ensures Below(r, j, if L.index < 0 then |r| else L.index)
    ensures L.index >= 0 ==> j <= r[L.index].col
  {
    assert |L.Contents| == |r|;
    hide List.Linked, List.CursorAgrees, List.CursorStale, Carries;
    L.MoveFront();
    ghost var k := 0;
    while L.index >= 0
      invariant L.Valid() && Carries(L.Contents, S, i, r) && Below(r, j, k)
      invariant L.index == if k < |r| then k else -1
      decreases |r| - k
    {
      var E := L.Get();
      CarriesAt(L.Contents, S, i, r, k);
      if j <= E.col {
        return;
      }
      L.MoveNext();
      k := k + 1;
    }
  }

  /** changeEntry on a row.  `delta` is what it adds to nnz. */
  method ChangeRow(L: List<Entry>, ghost i: int, j: int, x: real, ghost S: set<Entry>, ghost r: seq<Cell>, ghost n: int)
    returns (delta: int, ghost more: set<Entry>)
    requires L.Usable() && Carries(L.Contents, S, i, r) && Canonical(r, n)
    modifies L, L.Repr, S`data
    ensures L.Usable() && fresh(L.Repr - old(L.Repr)) && fresh(more)
    ensures Carries(L.Contents, S + more, i, SetCell(r, j, x))
    ensures delta == |SetCell(r, j, x)| - |r|
    ensures forall e :: e in S && e.row != i ==> e.data == old(e.data)
  {
    hide List.Linked, List.CursorAgrees, List.CursorStale, Carries, SetCell, Canonical, RemoveAt, InsertAt;
    Walk(L, i, j, S, r);
    SetCellAt(r, j, x, if L.index < 0 then |r| else L.index);
    if L.index < 0 {
      delta, more := ChangeBehind(L, i, j, x, S, r);
      return;
    }
    var E := L.Get();
    CarriesAt(L.Contents, S, i, r, L.index);
    if j == E.col {
      delta := ChangeFound(L, E, i, x, S, r, n);
      more := {};
      assert S + {} == S;
    } else {
      delta, more := ChangeBefore(L, i, j, x, S, r);
    }
  }
}
