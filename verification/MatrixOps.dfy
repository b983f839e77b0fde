/** transpose, scalarMult and copy of Matrix.c. */
module MatrixOps {
  import opened Lists
  import opened SparseRows
  import opened SparseMatrices
  import opened EntryLists
  import opened Matrices

  /** The zero matrix of A's size, in new objects. */
  method NewLike(A: Matrix) returns (B: Matrix)
    requires A.Holding()
    ensures A.Holding() && B.Valid() && A.Apart(B) && B.dimension == A.dimension && B.cells == Zeros(|A.cells|)
    ensures |A.cells| == A.dimension + 1
    ensures fresh(B) && fresh(B.rows) && fresh(B.rows.Lists) && fresh(B.rows.Nodes) && fresh(B.Entries)
  {
    hide Matrix.Holding, CanonicalMatrix;
    A.HoldingShape();
    B := new Matrix(A.dimension);
    A.Kept();
  }

  // transpose

  lemma NothingTransposed(A: Rows, T: Rows)
    requires CanonicalMatrix(A) && T == Zeros(|A|)
    ensures PartlyTransposed(A, T, 1, 0)
  {
  }

  lemma AllTransposed(A: Rows, T: Rows)
    requires CanonicalMatrix(A) && PartlyTransposed(A, T, |A|, 0)
    ensures IsTranspose(A, T) && Count(T) == Count(A)
  {
    TransposeCount(A, T);
  }

  /** One round of the inner loop of transpose. */
  method TransposeCell(A: Matrix, T: Matrix, i: int, ghost k: int)
    requires A.Holding() && T.Holding() && A.Apart(T) && A.dimension == T.dimension && 1 <= i <= A.dimension
    requires CanonicalMatrix(A.cells) && A.Ready(i, k) && k < |A.cells[i]| && PartlyTransposed(A.cells, T.cells, i, k)
    modifies A.rows.At(i)`cursor, A.rows.At(i)`index
    modifies T`cells, T`Entries, T.rows, T.rows.Lists, T.rows.Nodes
    ensures A.Holding() && T.Holding() && A.Apart(T) && A.Ready(i, k + 1)
    ensures fresh(T.rows.Nodes - old(T.rows.Nodes)) && fresh(T.Entries - old(T.Entries))
    ensures PartlyTransposed(A.cells, T.cells, i, k + 1)
  {
    hide Matrix.Holding, CanonicalMatrix, PartlyTransposed, List.CursorAgrees;
    A.HoldingShape();
    T.HoldingShape();
    TransposeStep(A.cells, T.cells, i, k);
    var col, data := A.RowCell(i);
    T.AppendCell(col, i, data);
    A.Kept();
    label appended:
    A.RowNext(i);
    T.Kept@appended();
  }

  /** The inner loop of transpose, for row i. */
  method TransposeRow(A: Matrix, T: Matrix, i: int)
    requires A.Holding() && T.Holding() && A.Apart(T) && A.dimension == T.dimension && 1 <= i <= A.dimension
    requires CanonicalMatrix(A.cells) && PartlyTransposed(A.cells, T.cells, i, 0)
    modifies A.rows.At(i)`cursor, A.rows.At(i)`index
    modifies T`cells, T`Entries, T.rows, T.rows.Lists, T.rows.Nodes
    ensures A.Holding() && T.Holding() && A.Apart(T)
    ensures fresh(T.rows.Nodes - old(T.rows.Nodes)) && fresh(T.Entries - old(T.Entries))
    ensures PartlyTransposed(A.cells, T.cells, i + 1, 0)
  {
    hide Matrix.Holding, CanonicalMatrix, PartlyTransposed, List.CursorAgrees;
    A.HoldingShape();
    A.Shape(i);
    A.RowFront(i);
    T.Kept();
    ghost var k := 0;
    while A.rows.At(i).index >= 0
      invariant A.Holding() && T.Holding() && A.Apart(T) && A.Ready(i, k)
      invariant fresh(T.rows.Nodes - old(T.rows.Nodes)) && fresh(T.Entries - old(T.Entries))
      invariant PartlyTransposed(A.cells, T.cells, i, k)
      decreases |A.cells[i]| - k
    {
      TransposeCell(A, T, i, k);
      k := k + 1;
    }
    TransposeRowDone(A.cells, T.cells, i);
  }

  /** The loop of transpose over the rows. */
  method TransposeRows(A: Matrix, T: Matrix)
    requires A.Holding() && T.Holding() && A.Apart(T) && A.dimension == T.dimension
    requires CanonicalMatrix(A.cells) && PartlyTransposed(A.cells, T.cells, 1, 0)
    modifies A.rows.Lists`cursor, A.rows.Lists`index
    modifies T`cells, T`Entries, T.rows, T.rows.Lists, T.rows.Nodes
    ensures A.Holding() && T.Holding()
    ensures fresh(T.rows.Nodes - old(T.rows.Nodes)) && fresh(T.Entries - old(T.Entries))
    ensures PartlyTransposed(A.cells, T.cells, A.dimension + 1, 0)
  {
    hide Matrix.Holding, CanonicalMatrix, PartlyTransposed, Carries;
    for i := 1 to A.dimension + 1
      invariant A.Holding() && T.Holding() && A.Apart(T)
      invariant fresh(T.rows.Nodes - old(T.rows.Nodes)) && fresh(T.Entries - old(T.Entries))
      invariant PartlyTransposed(A.cells, T.cells, i, 0)
    {
      A.Shape(i);
      TransposeRow(A, T, i);
    }
  }

  /** transpose. */
  method Transpose(A: Matrix) returns (T: Matrix)
    requires A.Valid()
    modifies A.rows.Lists`cursor, A.rows.Lists`index
    ensures A.Valid() && T.Valid() && T.dimension == A.dimension && T.nnz == A.nnz
    ensures fresh(T) && fresh(T.rows) && fresh(T.rows.Lists) && fresh(T.rows.Nodes) && fresh(T.Entries)
    ensures IsTranspose(A.cells, T.cells)
  {
    hide Matrix.Holding, CanonicalMatrix, PartlyTransposed, Carries;
    T := NewLike(A);
    NothingTransposed(A.cells, T.cells);
    TransposeRows(A, T);
    AllTransposed(A.cells, T.cells);
    T.nnz := A.nnz;
  }

  // scalarMult and copy

  /** The rows of B before row i are the scaled rows of A; row i has its first k
      cells, and the others are empty. */
  ghost predicate PartlyScaled(A: Rows, x: real, B: Rows, i: int, k: int) {
    && |B| == |A| && 1 <= i && (i < |A| ==> 0 <= k <= |A[i]|)
    && forall r :: 0 <= r < |A| ==>
         B[r] == if r < i then Scaled(A[r], x) else if r == i then Scaled(A[r][..k], x) else []
  }

  lemma NothingScaled(A: Rows, x: real, B: Rows)
    requires CanonicalMatrix(A) && B == Zeros(|A|)
    ensures PartlyScaled(A, x, B, 1, 0)
  {
  }

  lemma ScaleStep(A: Rows, x: real, B: Rows, i: int, k: int, c: Cell)
    requires PartlyScaled(A, x, B, i, k) && 1 <= i < |A| && 0 <= k < |A[i]|
    requires c == Cell(A[i][k].col, A[i][k].val * x)
    ensures PartlyScaled(A, x, B[i := B[i] + [c]], i, k + 1)
  {
    var r := A[i];
    var s, t := Scaled(r[..k + 1], x), Scaled(r[..k], x) + [c];
    assert forall m :: 0 <= m < |t| ==> s[m] == t[m];
    var V := B[i := B[i] + [c]];
    forall q | 0 <= q < |A|
      ensures V[q] == if q < i then Scaled(A[q], x) else if q == i then Scaled(A[q][..k + 1], x) else []
    {
      assert B[q] == if q < i then Scaled(A[q], x) else if q == i then Scaled(A[q][..k], x) else [];
    }
  }

  lemma ScaleRowDone(A: Rows, x: real, B: Rows, i: int)
    requires 1 <= i < |A| && PartlyScaled(A, x, B, i, |A[i]|)
    ensures PartlyScaled(A, x, B, i + 1, 0)
  {
    assert A[i][..|A[i]|] == A[i];
    assert i + 1 < |A| ==> Scaled(A[i + 1][..0], x) == [];
  }

  lemma AllScaled(A: Rows, x: real, B: Rows)
    requires CanonicalMatrix(A) && x != 0.0 && PartlyScaled(A, x, B, |A|, 0)
    ensures IsMultiple(x, A, B) && Count(B) == Count(A)
  {
    forall i | 1 <= i < |A| ensures Canonical(B[i], |A| - 1) {
      ScaledCanonical(A[i], |A| - 1, x);
    }
    forall i, j | Inside(B, i, j) ensures Value(B, i, j) == Value(A, i, j) * x {
      ScaledScales(A[i], x, j);
    }
    CountScaled(A, x, B);
  }

  lemma {:induction false} CountScaled(A: Rows, x: real, B: Rows)
    requires |B| == |A| && forall r :: 0 <= r < |A| ==> |B[r]| == |A[r]|
    ensures Count(B) == Count(A)
  {
    if A != [] {
      CountScaled(A[..|A| - 1], x, B[..|B| - 1]);
    }
  }

  /** One round of the inner loop of scalarMult. */
  method ScaleCell(x: real, A: Matrix, B: Matrix, i: int, ghost k: int)
    requires A.Holding() && B.Holding() && A.Apart(B) && A.dimension == B.dimension && 1 <= i <= A.dimension
    requires A.Ready(i, k) && k < |A.cells[i]| && PartlyScaled(A.cells, x, B.cells, i, k)
    modifies A.rows.At(i)`cursor, A.rows.At(i)`index
    modifies B`cells, B`Entries, B.rows, B.rows.Lists, B.rows.Nodes
    ensures A.Holding() && B.Holding() && A.Apart(B) && A.Ready(i, k + 1)
    ensures fresh(B.rows.Nodes - old(B.rows.Nodes)) && fresh(B.Entries - old(B.Entries))
    ensures PartlyScaled(A.cells, x, B.cells, i, k + 1)
  {
    hide Matrix.Holding, PartlyScaled, List.CursorAgrees;
    A.HoldingShape();
    B.HoldingShape();
    var col, data := A.RowCell(i);
    ScaleStep(A.cells, x, B.cells, i, k, Cell(col, data * x));
    B.AppendCell(i, col, data * x);
    A.Kept();
    label appended:
    A.RowNext(i);
    B.Kept@appended();
  }

  /** The inner loop of scalarMult, for row i. */
  method ScaleRow(x: real, A: Matrix, B: Matrix, i: int)
    requires A.Holding() && B.Holding() && A.Apart(B) && A.dimension == B.dimension && 1 <= i <= A.dimension
    requires PartlyScaled(A.cells, x, B.cells, i, 0)
    modifies A.rows.At(i)`cursor, A.rows.At(i)`index
    modifies B`cells, B`Entries, B.rows, B.rows.Lists, B.rows.Nodes
    ensures A.Holding() && B.Holding() && A.Apart(B)
    ensures fresh(B.rows.Nodes - old(B.rows.Nodes)) && fresh(B.Entries - old(B.Entries))
    ensures PartlyScaled(A.cells, x, B.cells, i + 1, 0)
  {
    hide Matrix.Holding, PartlyScaled, List.CursorAgrees;
    A.HoldingShape();
    A.Shape(i);
    A.RowFront(i);
    B.Kept();
    ghost var k := 0;
    while A.rows.At(i).index >= 0
      invariant A.Holding() && B.Holding() && A.Apart(B) && A.Ready(i, k)
      invariant fresh(B.rows.Nodes - old(B.rows.Nodes)) && fresh(B.Entries - old(B.Entries))
      invariant PartlyScaled(A.cells, x, B.cells, i, k)
      decreases |A.cells[i]| - k
    {
      ScaleCell(x, A, B, i, k);
      k := k + 1;
    }
    ScaleRowDone(A.cells, x, B.cells, i);
  }

  /** The loop of scalarMult over the rows. */
  method ScaleRows(x: real, A: Matrix, B: Matrix)
    requires A.Holding() && B.Holding() && A.Apart(B) && A.dimension == B.dimension
    requires PartlyScaled(A.cells, x, B.cells, 1, 0)
    modifies A.rows.Lists`cursor, A.rows.Lists`index
    modifies B`cells, B`Entries, B.rows, B.rows.Lists, B.rows.Nodes
    ensures A.Holding() && B.Holding()
    ensures fresh(B.rows.Nodes - old(B.rows.Nodes)) && fresh(B.Entries - old(B.Entries))
    ensures PartlyScaled(A.cells, x, B.cells, A.dimension + 1, 0)
  {
    hide Matrix.Holding, PartlyScaled, Carries;
    for i := 1 to A.dimension + 1
      invariant A.Holding() && B.Holding() && A.Apart(B)
      invariant fresh(B.rows.Nodes - old(B.rows.Nodes)) && fresh(B.Entries - old(B.Entries))
      invariant PartlyScaled(A.cells, x, B.cells, i, 0)
    {
      A.Shape(i);
      ScaleRow(x, A, B, i);
    }
  }

  /** scalarMult by anything but 0, into a new matrix. */
  method ScaleInto(x: real, A: Matrix, B: Matrix)
    requires x != 0.0 && A.Valid() && B.Holding() && A.Apart(B) && A.dimension == B.dimension
    requires B.cells == Zeros(|A.cells|)
    modifies A.rows.Lists`cursor, A.rows.Lists`index
    modifies B`nnz, B`cells, B`Entries, B.rows, B.rows.Lists, B.rows.Nodes
    ensures A.Valid() && B.Valid() && IsMultiple(x, A.cells, B.cells)
    ensures fresh(B.rows.Nodes - old(B.rows.Nodes)) && fresh(B.Entries - old(B.Entries))
  {
    hide Matrix.Holding, CanonicalMatrix, PartlyScaled, Carries, IsMultiple;
    A.HoldingShape();
    NothingScaled(A.cells, x, B.cells);
    ScaleRows(x, A, B);
    AllScaled(A.cells, x, B.cells);
    MultipleShape(x, A.cells, B.cells);
    B.nnz := A.nnz;
  }

  /** scalarMult by anything but 0. */
  method Scale(x: real, A: Matrix) returns (B: Matrix)
    requires x != 0.0 && A.Valid()
    modifies A.rows.Lists`cursor, A.rows.Lists`index
    ensures A.Valid() && B.Valid() && B.dimension == A.dimension
    ensures fresh(B) && fresh(B.rows) && fresh(B.rows.Lists) && fresh(B.rows.Nodes) && fresh(B.Entries)
    ensures IsMultiple(x, A.cells, B.cells)
  {
    hide Matrix.Holding, CanonicalMatrix, IsMultiple, Count, Zeros;
    B := NewLike(A);
    ScaleInto(x, A, B);
  }

  /** scalarMult. */
  method ScalarMult(x: real, A: Matrix) returns (B: Matrix)
    requires A.Valid()
    modifies A.rows.Lists`cursor, A.rows.Lists`index
    ensures A.Valid() && B.Valid() && B.dimension == A.dimension
    ensures fresh(B) && fresh(B.rows) && fresh(B.rows.Lists) && fresh(B.rows.Nodes) && fresh(B.Entries)
    ensures IsMultiple(x, A.cells, B.cells)
  {
    hide Matrix.Holding, CanonicalMatrix, IsMultiple, Count, Zeros;
    ZeroIsMultiple(A.cells);
    if x == 0.0 {
      B := NewLike(A);
    } else {
      B := Scale(x, A);
    }
  }

  lemma ZeroIsMultiple(A: Rows)
    requires CanonicalMatrix(A)
    ensures IsMultiple(0.0, A, Zeros(|A|))
  {
  }

  lemma MultipleShape(x: real, A: Rows, B: Rows)
    requires IsMultiple(x, A, B)
    ensures CanonicalMatrix(B)
  {
  }

  /** copy: the same matrix, in new objects. */
  method Copy(A: Matrix) returns (B: Matrix)
    requires A.Valid()
    modifies A.rows.Lists`cursor, A.rows.Lists`index
    ensures A.Valid() && B.Valid() && B.cells == A.cells && B.nnz == A.nnz
    ensures fresh(B) && fresh(B.rows) && fresh(B.rows.Lists) && fresh(B.rows.Nodes) && fresh(B.Entries)
  {
    hide Matrix.Holding;
    B := ScalarMult(1.0, A);
    SameDenseIffSame(A.cells, B.cells);
  }
}
