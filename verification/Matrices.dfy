/** The matrix object of Matrix.c and its operations. */
module Matrices {
  import opened Lists
  import opened ListArrays
  import opened SparseRows
  import opened SparseMatrices
  import opened EntryLists

  class Matrix {
    const dimension: nat
    var nnz: int
    const rows: ListArray<Entry>
    ghost var cells: Rows
    ghost var Entries: set<Entry>

    /** The row lists carry `cells`. */
    ghost predicate Holding()
      reads this`cells, this`Entries, rows, rows.Nodes, rows.Lists, Entries`data
    {
      && rows.deletes && rows.Sound()
      && |rows.lists| == dimension + 1 == |rows.Rows| == |cells|
      && forall i :: 0 <= i <= dimension ==> Carries(rows.Rows[i], Entries, i, cells[i])
    }

    /** The row lists carry a canonical matrix, and nnz counts its cells. */
    ghost predicate Valid()
      reads this, rows, rows.Nodes, rows.Lists, Entries`data
    {
      Holding() && CanonicalMatrix(cells) && nnz == Count(cells)
    }

    /** newMatrix. */
    constructor (n: nat)
      ensures Valid() && dimension == n && cells == Zeros(n + 1) && nnz == 0
      ensures fresh(rows) && fresh(rows.Lists) && fresh(rows.Nodes) && Entries == {}
    {
      hide ListArray.Sound;
      dimension, nnz := n, 0;
      rows := new ListArray<Entry>(n + 1, true);
      cells, Entries := Zeros(n + 1), {};
      new;
      EmptyCount(cells);
    }

    lemma Shape(i: int)
      requires Holding() && 0 <= i <= dimension
      ensures rows.deletes && rows.Sound() && |rows.lists| == dimension + 1 == |rows.Rows| == |cells|
      ensures rows.At(i) in rows.Lists && rows.At(i).Repr <= rows.Nodes
      ensures rows.At(i).Usable() && rows.At(i).Contents == rows.Rows[i]
      ensures Carries(rows.Rows[i], Entries, i, cells[i])
    {
      rows.InFrame(i);
    }

    lemma HoldingAgain()
      requires rows.deletes && rows.Sound() && |rows.lists| == dimension + 1 == |rows.Rows| == |cells|
      requires forall i :: 0 <= i <= dimension ==> Carries(rows.Rows[i], Entries, i, cells[i])
      ensures Holding()
    {
    }

    /** Writing elsewhere keeps the matrix as it is. */
    twostate lemma Kept()
      requires old(Holding())
      requires unchanged(this`cells) && unchanged(this`Entries) && unchanged(rows) && unchanged(rows.Lists)
      requires unchanged(old(rows.Nodes)) && unchanged(old(Entries))
      ensures Holding()
    {
      rows.Kept();
      forall i | 0 <= i <= dimension ensures Carries(rows.Rows[i], Entries, i, cells[i]) {
        assert old(Carries(rows.Rows[i], Entries, i, cells[i]));
      }
    }

    // A row under its cursor

    method RowFront(i: int)
      requires Holding() && 0 <= i <= dimension
      modifies rows.At(i)`cursor, rows.At(i)`index
      ensures Holding() && rows.At(i).CursorAgrees()
      ensures rows.At(i).index == if cells[i] == [] then -1 else 0
    {
      hide ListArray.Sound, List.CursorAgrees;
      rows.MoveFront(i);
    }

    method RowCell(i: int) returns (col: int, data: real)
      requires Holding() && 0 <= i <= dimension && rows.At(i).CursorAgrees() && rows.At(i).index >= 0
      ensures Holding() && 0 <= rows.At(i).index < |cells[i]| && cells[i][rows.At(i).index] == Cell(col, data)
    {
      hide ListArray.Sound, List.CursorAgrees;
      var E := rows.Get(i);
      assert Carries(rows.Rows[i], Entries, i, cells[i]);
      col, data := E.col, E.data;
    }

    method RowNext(i: int)
      requires Holding() && 0 <= i <= dimension && rows.At(i).CursorAgrees()
      modifies rows.At(i)`cursor, rows.At(i)`index
      ensures Holding() && rows.At(i).CursorAgrees()
      ensures rows.At(i).index == NextIndex(old(rows.At(i).index), |cells[i]|)
    {
      hide ListArray.Sound, List.CursorAgrees;
      rows.MoveNext(i);
    }

    // changeEntry

    /** What changeEntry does to the lists; `delta` is what it adds to nnz. */
    method ChangeCell(i: int, j: int, x: real) returns (delta: int)
      requires Holding() && 1 <= i <= dimension && Canonical(cells[i], dimension)
      modifies this`cells, this`Entries, rows, rows.Lists, rows.Nodes, Entries`data
      ensures Holding() && fresh(rows.Nodes - old(rows.Nodes)) && fresh(Entries - old(Entries))
      ensures cells == old(cells)[i := SetCell(old(cells)[i], j, x)]
      ensures delta == |cells[i]| - |old(cells)[i]|
    {
      hide ListArray.Sound, ListArray.SoundBut, List.Linked, List.CursorAgrees, List.CursorStale, Carries, SetCell, Canonical;
      Shape(i);
      ghost var more;
      delta, more := ChangeRow(rows.At(i), i, j, x, Entries, cells[i], dimension);
      rows.OthersKept(i);
      rows.Adopt(i);
      OtherRows(i);
      forall k | 0 <= k <= dimension && k != i ensures Carries(rows.Rows[k], Entries + more, k, cells[k]) {
        CarriesMore(rows.Rows[k], Entries, Entries + more, k, cells[k]);
      }
      cells, Entries := cells[i := SetCell(cells[i], j, x)], Entries + more;
      HoldingAgain();
    }

    /** Changing row i leaves the cells of the others. */
    twostate lemma OtherRows(i: int)
      requires old(Holding()) && unchanged(this`cells, this`Entries)
      requires |rows.Rows| == |cells|
      requires forall k :: 0 <= k <= dimension && k != i ==> rows.Rows[k] == old(rows.Rows)[k]
      requires forall e :: e in Entries && e.row != i ==> e.data == old(e.data)
      ensures forall k :: 0 <= k <= dimension && k != i ==> Carries(rows.Rows[k], Entries, k, cells[k])
    {
      forall k | 0 <= k <= dimension && k != i ensures Carries(rows.Rows[k], Entries, k, cells[k]) {
        assert old(Carries(rows.Rows[k], Entries, k, cells[k]));
      }
    }

    /** changeEntry: sets entry (i, j) and nothing else. */
    method ChangeEntry(i: int, j: int, x: real)
      requires Valid() && Inside(cells, i, j)
      modifies this`nnz, this`cells, this`Entries, rows, rows.Lists, rows.Nodes, Entries`data
      ensures Valid() && fresh(rows.Nodes - old(rows.Nodes)) && fresh(Entries - old(Entries))
      ensures |cells| == |old(cells)| && cells == old(cells)[i := SetCell(old(cells)[i], j, x)]
      ensures forall k, l :: Inside(cells, k, l) ==>
                Value(cells, k, l) == if k == i && l == j then x else Value(old(cells), k, l)
    {
      hide Holding, SetCell, Canonical;
      ghost var A := cells;
      CellsChanged(A, i, j, x);
      HoldingShape();
      var delta := ChangeCell(i, j, x);
      nnz := nnz + delta;
    }

    lemma HoldingShape()
      requires Holding()
      ensures |cells| == dimension + 1 == |rows.lists|
    {
    }

    /** The cursor of row i stands at its k-th cell, or past the end. */
    ghost predicate Ready(i: int, k: int)
      reads this`cells, rows, rows.Lists
    {
      && 0 <= i < |rows.lists| && i < |cells| && 0 <= k <= |cells[i]|
      && rows.At(i) in rows.Lists && rows.At(i).CursorAgrees()
      && rows.At(i).index == if k < |cells[i]| then k else -1
    }

    ghost predicate Apart(C: Matrix)
      reads this`Entries, rows, C`Entries, C.rows
    {
      && C != this && C.rows != rows && C.rows.Lists !! rows.Lists
      && C.rows.Nodes !! rows.Nodes && C.Entries !! Entries
    }

    // transpose and scalarMult

    /** append of a new entry to the list of row i. */
    method AppendEntry(i: int, E: Entry)
      requires Holding() && 1 <= i <= dimension && E.row == i && E !in Entries
      modifies rows, rows.Lists, rows.Nodes
      ensures rows.Sound() && fresh(rows.Nodes - old(rows.Nodes))
      ensures |rows.lists| == |rows.Rows| == |old(rows.Rows)| == dimension + 1
      ensures rows.Rows == old(rows.Rows)[i := old(rows.Rows)[i] + [E]]
    {
      hide ListArray.Sound, ListArray.SoundBut, List.Linked, List.CursorAgrees, List.CursorStale, Carries;
      Shape(i);
      rows.At(i).Append(E);
      rows.OthersKept(i);
      rows.Adopt(i);
      rows.InFrame(i);
    }

    lemma RowLonger(i: int, es: seq<Entry>, E: Entry)
      requires 0 <= i < |cells| && Carries(es, Entries, i, cells[i]) && E.row == i
      ensures Carries(es + [E], Entries + {E}, i, cells[i] + [Cell(E.col, E.data)])
    {
    }

    /** append of a new entry to row i; nnz is left to the caller. */
    method AppendCell(i: int, col: int, data: real)
      requires Holding() && 1 <= i <= dimension
      modifies this`cells, this`Entries, rows, rows.Lists, rows.Nodes
      ensures Holding() && fresh(rows.Nodes - old(rows.Nodes)) && fresh(Entries - old(Entries))
      ensures i < |old(cells)| && cells == old(cells)[i := old(cells)[i] + [Cell(col, data)]]
    {
      hide ListArray.Sound, Carries;
      Shape(i);
      var E := new Entry(col, data, i);
      RowLonger(i, rows.Rows[i], E);
      AppendEntry(i, E);
      OtherRows(i);
      forall k | 0 <= k <= dimension && k != i ensures Carries(rows.Rows[k], Entries + {E}, k, cells[k]) {
        CarriesMore(rows.Rows[k], Entries, Entries + {E}, k, cells[k]);
      }
      cells, Entries := cells[i := cells[i] + [Cell(col, data)]], Entries + {E};
      HoldingAgain();
    }
  }

  lemma {:induction false} EmptyCount(A: Rows)
    requires forall i :: 0 <= i < |A| ==> A[i] == []
    ensures Count(A) == 0
  {
    if A != [] {
      EmptyCount(A[..|A| - 1]);
    }
  }

  lemma CellsChanged(A: Rows, i: int, j: int, x: real)
    requires CanonicalMatrix(A) && Inside(A, i, j)
    ensures CanonicalMatrix(A[i := SetCell(A[i], j, x)])
    ensures Count(A[i := SetCell(A[i], j, x)]) == Count(A) - |A[i]| + |SetCell(A[i], j, x)|
    ensures forall k, l :: Inside(A, k, l) ==>
              Value(A[i := SetCell(A[i], j, x)], k, l) == if k == i && l == j then x else Value(A, k, l)
  {
    CountUpdate(A, i, SetCell(A[i], j, x));
    forall l ensures Lookup(SetCell(A[i], j, x), l) == if l == j then x else Lookup(A[i], l) {
      SetCellSets(A[i], |A| - 1, j, x, l);
    }
    SetCellSets(A[i], |A| - 1, j, x, j);
  }
}
