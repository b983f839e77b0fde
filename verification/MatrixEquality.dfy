/** equals of Matrix.c. */
module MatrixEquality {
  import opened Lists
  import opened ListArrays
  import opened SparseMatrices
  import opened EntryLists
  import opened Matrices

  ghost predicate Readable(A: Matrix, B: Matrix)
    reads A, A.rows, A.rows.Nodes, A.rows.Lists, A.Entries`data
    reads B, B.rows, B.rows.Nodes, B.rows.Lists, B.Entries`data
  {
    A.Holding() && B.Holding() && (A == B || A.Apart(B)) && A.dimension == B.dimension
  }

  ghost predicate Defined(A: Matrix, i: int)
    reads A`cells, A.rows.Lists
  {
    && 1 <= i < |A.rows.lists| && i < |A.cells| && A.rows.At(i) in A.rows.Lists && A.rows.At(i).CursorAgrees()
    && -1 <= A.rows.At(i).index < |A.cells[i]|
  }

  /** Both cursors of row i stand at k, or past the end; if A and B are one matrix,
      its cursor may have run ahead of k. */
  ghost predicate Comparing(A: Matrix, B: Matrix, i: int, k: int)
    reads A, A.rows, A.rows.Nodes, A.rows.Lists, A.Entries`data
    reads B, B.rows, B.rows.Nodes, B.rows.Lists, B.Entries`data
  {
    && Readable(A, B) && Defined(A, i) && Defined(B, i)
    && (A != B ==> A.Ready(i, k) && B.Ready(i, k))
  }

  function Left(index: int, n: nat): nat {
    if 0 <= index < n then n - index else 0
  }

  method StartComparing(A: Matrix, B: Matrix, i: int)
    requires Readable(A, B) && 1 <= i <= A.dimension
    modifies A.rows.At(i)`cursor, A.rows.At(i)`index, B.rows.At(i)`cursor, B.rows.At(i)`index
    ensures Comparing(A, B, i, 0)
  {
    hide Matrix.Holding, List.CursorAgrees, Carries;
    A.HoldingShape();
    A.Shape(i);
    B.Shape(i);
    A.RowFront(i);
    if A != B {
      B.Kept();
    }
    label moved:
    B.RowFront(i);
    if A != B {
      A.Kept@moved();
    }
  }

  /** Both cursors move on; a shared one moves twice. */
  method NextPair(A: Matrix, B: Matrix, i: int, ghost k: int)
    requires Comparing(A, B, i, k) && A.rows.At(i).index >= 0 && B.rows.At(i).index >= 0
    modifies A.rows.At(i)`cursor, A.rows.At(i)`index, B.rows.At(i)`cursor, B.rows.At(i)`index
    ensures Comparing(A, B, i, k + 1)
    ensures Left(A.rows.At(i).index, |A.cells[i]|) < old(Left(A.rows.At(i).index, |A.cells[i]|))
  {
    hide Matrix.Holding, List.CursorAgrees;
    A.HoldingShape();
    A.RowNext(i);
    if A != B {
      B.Kept();
    }
    label moved:
    B.RowNext(i);
    if A != B {
      A.Kept@moved();
    }
  }

  /** Whether the entries under the two cursors are the same. */
  method SamePair(A: Matrix, B: Matrix, i: int, ghost k: int) returns (same: bool)
    requires Comparing(A, B, i, k) && A.rows.At(i).index >= 0 && B.rows.At(i).index >= 0
    ensures Comparing(A, B, i, k)
    ensures A == B ==> same
    ensures A != B ==> 0 <= k < |A.cells[i]| && k < |B.cells[i]| && (same <==> A.cells[i][k] == B.cells[i][k])
  {
    hide Matrix.Holding, List.CursorAgrees;
    A.HoldingShape();
    B.HoldingShape();
    var col, data := A.RowCell(i);
    if A != B {
      B.Kept();
    }
    var col', data' := B.RowCell(i);
    if A != B {
      A.Kept();
    }
    same := col == col' && data == data';
  }

  lemma ComparingShape(A: Matrix, B: Matrix, i: int, k: int)
    requires Comparing(A, B, i, k)
    ensures Readable(A, B) && 1 <= i < |A.cells| && i < |B.cells| && i < |A.rows.lists| && i < |B.rows.lists|
    ensures A != B ==>
              && 0 <= k <= |A.cells[i]| && A.rows.At(i).index == (if k < |A.cells[i]| then k else -1)
              && 0 <= k <= |B.cells[i]| && B.rows.At(i).index == (if k < |B.cells[i]| then k else -1)
  {
  }

  /** The inner loop of equals, on rows of the same length. */
  method EqualRow(A: Matrix, B: Matrix, i: int) returns (same: bool)
    requires Readable(A, B) && 1 <= i <= A.dimension && i < |A.cells| && i < |B.cells| && |A.cells[i]| == |B.cells[i]|
    modifies A.rows.At(i)`cursor, A.rows.At(i)`index, B.rows.At(i)`cursor, B.rows.At(i)`index
    ensures Readable(A, B) && (same <==> A.cells[i] == B.cells[i])
  {
    hide Readable, Comparing;
    StartComparing(A, B, i);
    ghost var k := 0;
    ComparingShape(A, B, i, k);
    while A.rows.At(i).index >= 0 && B.rows.At(i).index >= 0
      invariant Comparing(A, B, i, k) && Readable(A, B)
      invariant A != B ==>
                  && 0 <= k <= |A.cells[i]| && A.rows.At(i).index == (if k < |A.cells[i]| then k else -1)
                  && B.rows.At(i).index == A.rows.At(i).index && A.cells[i][..k] == B.cells[i][..k]
      decreases Left(A.rows.At(i).index, |A.cells[i]|)
    {
      same := SamePair(A, B, i, k);
      ComparingShape(A, B, i, k);
      if !same {
        return;
      }
      NextPair(A, B, i, k);
      k := k + 1;
      ComparingShape(A, B, i, k);
    }
    same := true;
    assert A != B ==> A.cells[i][..k] == A.cells[i] && B.cells[i][..k] == B.cells[i];
  }

  /** The body of the outer loop of equals. */
  method EqualRows(A: Matrix, B: Matrix, i: int) returns (same: bool)
    requires Readable(A, B) && 1 <= i <= A.dimension && i < |A.cells| && i < |B.cells|
    modifies A.rows.At(i)`cursor, A.rows.At(i)`index, B.rows.At(i)`cursor, B.rows.At(i)`index
    ensures Readable(A, B) && (same <==> A.cells[i] == B.cells[i])
  {
    hide ListArray.Sound, Matrix.Apart;
    assert Carries(A.rows.Rows[i], A.Entries, i, A.cells[i]) && Carries(B.rows.Rows[i], B.Entries, i, B.cells[i]);
    var m := A.rows.Length(i);
    var n := B.rows.Length(i);
    if m != n {
      return false;
    }
    same := EqualRow(A, B, i);
  }

  /** The outer loop of equals. */
  method CompareRows(A: Matrix, B: Matrix) returns (same: bool)
    requires Readable(A, B) && |A.cells| == |B.cells| == A.dimension + 1
    modifies A.rows.Lists`cursor, A.rows.Lists`index, B.rows.Lists`cursor, B.rows.Lists`index
    ensures Readable(A, B)
    ensures same <==> forall i :: 1 <= i < |A.cells| ==> A.cells[i] == B.cells[i]
  {
    hide Readable;
    for i := 1 to A.dimension + 1
      invariant Readable(A, B)
      invariant forall k :: 1 <= k < i ==> A.cells[k] == B.cells[k]
    {
      RowInFrame(A, B, i);
      var equal := EqualRows(A, B, i);
      if !equal {
        return false;
      }
    }
    same := true;
  }

  lemma RowInFrame(A: Matrix, B: Matrix, i: int)
    requires Readable(A, B) && 0 <= i <= A.dimension
    ensures i < |A.rows.lists| && i < |B.rows.lists|
    ensures A.rows.At(i) in A.rows.Lists && B.rows.At(i) in B.rows.Lists
  {
    A.Shape(i);
    B.Shape(i);
  }

  /** equals: whether the two dense matrices are identical, even if A and B are one
      object and share their cursors. */
  method Equals(A: Matrix, B: Matrix) returns (same: bool)
    requires A.Valid() && B.Valid() && (A == B || A.Apart(B))
    modifies A.rows.Lists`cursor, A.rows.Lists`index, B.rows.Lists`cursor, B.rows.Lists`index
    ensures A.Valid() && B.Valid()
    ensures same <==> SameDense(A.cells, B.cells)
  {
    hide Matrix.Holding, SameDense;
    SameDenseIffSame(A.cells, B.cells);
    A.HoldingShape();
    B.HoldingShape();
    if A.dimension != B.dimension || A.nnz != B.nnz {
      return false;
    }
    same := CompareRows(A, B);
  }
}
