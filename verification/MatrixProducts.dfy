/** vectorDot and product of Matrix.c. */
module MatrixProducts {
  import opened Lists
  import opened SparseRows
  import opened RowMerges
  import opened Sums
  import opened SparseMatrices
  import opened EntryLists
  import opened Matrices
  import opened MatrixOps
  import opened MatrixArithmetic

  // vectorDot

  /** The cursors of row i of A and row j of T stand at a and b. */
  ghost predicate Reading(A: Matrix, T: Matrix, i: int, j: int, a: int, b: int)
    reads A, A.rows, A.rows.Nodes, A.rows.Lists, A.Entries`data
    reads T, T.rows, T.rows.Nodes, T.rows.Lists, T.Entries`data
  {
    && A.Holding() && T.Holding() && A.Apart(T) && 1 <= i <= A.dimension && 1 <= j <= T.dimension
    && A.Ready(i, a) && T.Ready(j, b)
  }

  lemma ReadingShape(A: Matrix, T: Matrix, i: int, j: int, a: int, b: int)
    requires Reading(A, T, i, j, a, b)
    ensures 1 <= i < |A.cells| == |A.rows.lists| && 1 <= j < |T.cells| == |T.rows.lists|
    ensures 0 <= a <= |A.cells[i]| && 0 <= b <= |T.cells[j]|
    ensures A.rows.At(i).index == if a < |A.cells[i]| then a else -1
    ensures T.rows.At(j).index == if b < |T.cells[j]| then b else -1
    ensures Reading(T, A, j, i, b, a)
  {
  }

  method ReadEntry(A: Matrix, T: Matrix, i: int, j: int, ghost a: int, ghost b: int) returns (col: int, data: real)
    requires Reading(A, T, i, j, a, b) && i < |A.cells| && a < |A.cells[i]|
    ensures Reading(A, T, i, j, a, b) && A.cells[i][a] == Cell(col, data)
  {
    hide Matrix.Holding, List.CursorAgrees;
    A.HoldingShape();
    col, data := A.RowCell(i);
    T.Kept();
  }

  method NextEntry(A: Matrix, T: Matrix, i: int, j: int, ghost a: int, ghost b: int)
    requires Reading(A, T, i, j, a, b) && i < |A.rows.lists| && i < |A.cells| && a < |A.cells[i]|
    modifies A.rows.At(i)`cursor, A.rows.At(i)`index
    ensures Reading(A, T, i, j, a + 1, b)
  {
    hide Matrix.Holding, List.CursorAgrees;
    A.HoldingShape();
    A.RowNext(i);
    T.Kept();
  }

  method StartReading(A: Matrix, T: Matrix, i: int, j: int)
    requires A.Holding() && T.Holding() && A.Apart(T) && 1 <= i <= A.dimension && 1 <= j <= T.dimension
    modifies A.rows.At(i)`cursor, A.rows.At(i)`index, T.rows.At(j)`cursor, T.rows.At(j)`index
    ensures Reading(A, T, i, j, 0, 0)
  {
    hide Matrix.Holding, List.CursorAgrees;
    A.HoldingShape();
    T.HoldingShape();
    A.Shape(i);
    T.Shape(j);
    A.RowFront(i);
    T.Kept();
    label moved:
    T.RowFront(j);
    A.Kept@moved();
  }

  /** What of a dot product is left at a and b. */
  function DotRest(p: seq<Cell>, a: int, q: seq<Cell>, b: int): real
    requires 0 <= a <= |p| && 0 <= b <= |q|
  {
    MergeDot(p[a..], q[b..])
  }

  lemma DotRestStep(p: seq<Cell>, a: int, q: seq<Cell>, b: int, E: int, x: real, F: int, y: real)
    requires 0 <= a < |p| && 0 <= b < |q| && p[a] == Cell(E, x) && q[b] == Cell(F, y)
    ensures DotRest(p, a, q, b) ==
            if E == F then x * y + DotRest(p, a + 1, q, b + 1)
            else if E < F then DotRest(p, a + 1, q, b)
            else DotRest(p, a, q, b + 1)
  {
    assert p[a..][1..] == p[a + 1..] && q[b..][1..] == q[b + 1..];
  }

  /** One round of vectorDot. */
  method DotStep(A: Matrix, T: Matrix, i: int, j: int, sum: real, ghost a: int, ghost b: int)
    returns (result: real, ghost a': int, ghost b': int)
    requires Reading(A, T, i, j, a, b) && i < |A.cells| && i < |A.rows.lists| && j < |T.cells| && j < |T.rows.lists|
    requires a < |A.cells[i]| && b < |T.cells[j]|
    modifies A.rows.At(i)`cursor, A.rows.At(i)`index, T.rows.At(j)`cursor, T.rows.At(j)`index
    ensures Reading(A, T, i, j, a', b') && 0 <= a' <= |A.cells[i]| && 0 <= b' <= |T.cells[j]| && a + b < a' + b'
    ensures 0 <= a && 0 <= b &&
            sum + DotRest(A.cells[i], a, T.cells[j], b) == result + DotRest(A.cells[i], a', T.cells[j], b')
  {
    hide Reading, DotRest;
    result, a', b' := sum, a, b;
    ReadingShape(A, T, i, j, a, b);
    var E, x := ReadEntry(A, T, i, j, a, b);
    ReadingShape(A, T, i, j, a, b);
    var F, y := ReadEntry(T, A, j, i, b, a);
    ReadingShape(T, A, j, i, b, a);
    DotRestStep(A.cells[i], a, T.cells[j], b, E, x, F, y);
    if E == F {
      result := result + x * y;
      NextEntry(A, T, i, j, a, b);
      ReadingShape(A, T, i, j, a + 1, b);
      NextEntry(T, A, j, i, b, a + 1);
      ReadingShape(T, A, j, i, b + 1, a + 1);
      a', b' := a + 1, b + 1;
    } else if E < F {
      NextEntry(A, T, i, j, a, b);
      a' := a + 1;
    } else {
      NextEntry(T, A, j, i, b, a);
      ReadingShape(T, A, j, i, b + 1, a);
      b' := b + 1;
    }
  }

  /** vectorDot of row i of A and row j of T. */
  method VectorDot(A: Matrix, T: Matrix, i: int, j: int) returns (result: real)
    requires A.Holding() && T.Holding() && A.Apart(T) && 1 <= i <= A.dimension && 1 <= j <= T.dimension
    modifies A.rows.At(i)`cursor, A.rows.At(i)`index, T.rows.At(j)`cursor, T.rows.At(j)`index
    ensures A.Holding() && T.Holding() && A.Apart(T)
    ensures i < |A.cells| && j < |T.cells| && result == MergeDot(A.cells[i], T.cells[j])
  {
    hide Matrix.Holding, Reading, DotRest;
    result := 0.0;
    StartReading(A, T, i, j);
    ghost var a, b := 0, 0;
    ReadingShape(A, T, i, j, a, b);
    DotRestAll(A.cells[i], T.cells[j]);
    while A.rows.At(i).index >= 0 && T.rows.At(j).index >= 0
      invariant Reading(A, T, i, j, a, b) && 0 <= a <= |A.cells[i]| && 0 <= b <= |T.cells[j]|
      invariant A.rows.At(i).index == if a < |A.cells[i]| then a else -1
      invariant T.rows.At(j).index == if b < |T.cells[j]| then b else -1
      invariant result + DotRest(A.cells[i], a, T.cells[j], b) == MergeDot(A.cells[i], T.cells[j])
      decreases |A.cells[i]| + |T.cells[j]| - a - b
    {
      result, a, b := DotStep(A, T, i, j, result, a, b);
      ReadingShape(A, T, i, j, a, b);
    }
    DotRestNone(A.cells[i], a, T.cells[j], b);
    ReadingEnds(A, T, i, j, a, b);
  }

  lemma ReadingEnds(A: Matrix, T: Matrix, i: int, j: int, a: int, b: int)
    requires Reading(A, T, i, j, a, b)
    ensures A.Holding() && T.Holding() && A.Apart(T)
  {
  }

  lemma DotRestAll(p: seq<Cell>, q: seq<Cell>)
    ensures DotRest(p, 0, q, 0) == MergeDot(p, q)
  {
    assert p[0..] == p && q[0..] == q;
  }

  lemma DotRestNone(p: seq<Cell>, a: int, q: seq<Cell>, b: int)
    requires 0 <= a <= |p| && 0 <= b <= |q| && (a == |p| || b == |q|)
    ensures DotRest(p, a, q, b) == 0.0
  {
  }

  // product

  /** The entries before (i, j), row by row, are those of A times the transpose of T;
      the others are zero. */
  ghost predicate PartlyMultiplied(A: Rows, T: Rows, R: Rows, i: int, j: int) {
    && |R| == |A| == |T|
    && forall r, c :: Inside(R, r, c) ==>
         Value(R, r, c) == if r < i || (r == i && c < j) then MergeDot(A[r], T[c]) else 0.0
  }

  lemma NothingMultiplied(A: Rows, T: Rows, R: Rows)
    requires |A| == |T| >= 1 && R == Zeros(|A|)
    ensures PartlyMultiplied(A, T, R, 1, 1)
  {
  }

  lemma RowMultiplied(A: Rows, T: Rows, R: Rows, i: int)
    requires PartlyMultiplied(A, T, R, i, |A|)
    ensures PartlyMultiplied(A, T, R, i + 1, 1)
  {
  }

  /** vectorDot with a row of the transpose gives an entry of the product. */
  lemma DotIsEntry(A: Rows, B: Rows, T: Rows, i: int, j: int)
    requires CanonicalMatrix(A) && |A| == |B| && IsTranspose(B, T) && Inside(A, i, j)
    ensures MergeDot(A[i], T[j]) == Total(Terms(A, B, i, j), |A| - 1)
  {
    hide MergeDot, Total, Lookup;
    MergeDotIsTotal(A[i], T[j], |A| - 1);
    forall k | 1 <= k <= |A| - 1 ensures Products(A[i], T[j])(k) == Terms(A, B, i, j)(k) {
      assert Inside(B, k, j) && Value(T, j, k) == Value(B, k, j);
    }
    TotalSame(Products(A[i], T[j]), Terms(A, B, i, j), |A| - 1);
  }

  lemma AllMultiplied(A: Rows, B: Rows, T: Rows, R: Rows)
    requires CanonicalMatrix(A) && CanonicalMatrix(R) && |A| == |B| && IsTranspose(B, T)
    requires PartlyMultiplied(A, T, R, |A|, 1)
    ensures IsProduct(A, B, R)
  {
    forall i, j | Inside(R, i, j) ensures Value(R, i, j) == Total(Terms(A, B, i, j), |A| - 1) {
      DotIsEntry(A, B, T, i, j);
    }
  }

  lemma CellMultiplied(A: Rows, T: Rows, R: Rows, V: Rows, i: int, j: int)
    requires PartlyMultiplied(A, T, R, i, j) && Inside(R, i, j) && |V| == |R|
    requires forall k, l :: Inside(R, k, l) ==>
               Value(V, k, l) == if k == i && l == j then MergeDot(A[i], T[j]) else Value(R, k, l)
    ensures PartlyMultiplied(A, T, V, i, j + 1)
  {
    forall r, c | Inside(V, r, c)
      ensures Value(V, r, c) == if r < i || (r == i && c < j + 1) then MergeDot(A[r], T[c]) else 0.0
    {
      assert Inside(R, r, c);
    }
  }

  /** vectorDot, with R kept. */
  method DotBeside(A: Matrix, T: Matrix, R: Matrix, i: int, j: int) returns (result: real)
    requires Working(A, T, R) && 1 <= i <= A.dimension && 1 <= j <= T.dimension
    modifies A.rows.At(i)`cursor, A.rows.At(i)`index, T.rows.At(j)`cursor, T.rows.At(j)`index
    ensures Working(A, T, R)
    ensures i < |A.cells| && j < |T.cells| && result == MergeDot(A.cells[i], T.cells[j])
  {
    hide Matrix.Holding, CanonicalMatrix, MergeDot, List.CursorAgrees, Carries;
    A.Shape(i);
    T.Shape(j);
    result := VectorDot(A, T, i, j);
    R.Kept();
  }

  /** changeEntry on R, with A and T kept. */
  method ChangeBeside(A: Matrix, T: Matrix, R: Matrix, i: int, j: int, x: real)
    requires Working(A, T, R) && Inside(R.cells, i, j)
    modifies R`nnz, R`cells, R`Entries, R.rows, R.rows.Lists, R.rows.Nodes, R.Entries`data
    ensures Working(A, T, R) && |R.cells| == |old(R.cells)|
    ensures fresh(R.rows.Nodes - old(R.rows.Nodes)) && fresh(R.Entries - old(R.Entries))
    ensures forall k, l :: Inside(R.cells, k, l) ==>
              Value(R.cells, k, l) == if k == i && l == j then x else Value(old(R.cells), k, l)
  {
    hide Matrix.Holding, CanonicalMatrix, SetCell, Value;
    R.ChangeEntry(i, j, x);
    A.Kept();
    T.Kept();
  }

  /** The body of product's inner loop. */
  method ProductCell(A: Matrix, T: Matrix, R: Matrix, i: int, j: int)
    requires Working(A, T, R) && Inside(R.cells, i, j) && PartlyMultiplied(A.cells, T.cells, R.cells, i, j)
    requires i <= A.dimension && j <= T.dimension && i < |A.rows.lists| && j < |T.rows.lists|
    modifies A.rows.At(i)`cursor, A.rows.At(i)`index, T.rows.At(j)`cursor, T.rows.At(j)`index
    modifies R`nnz, R`cells, R`Entries, R.rows, R.rows.Lists, R.rows.Nodes, R.Entries`data
    ensures Working(A, T, R) && PartlyMultiplied(A.cells, T.cells, R.cells, i, j + 1)
    ensures fresh(R.rows.Nodes - old(R.rows.Nodes)) && fresh(R.Entries - old(R.Entries))
  {
    hide Matrix.Holding, Matrix.Valid, Working, PartlyMultiplied, MergeDot, Value;
    WorkingShape(A, T, R, i);
    var data := DotBeside(A, T, R, i, j);
    CellUnset(A.cells, T.cells, R.cells, i, j);
    if data != 0.0 {
      ChangeBeside(A, T, R, i, j, data);
    }
    CellMultiplied(A.cells, T.cells, old(R.cells), R.cells, i, j);
  }

  lemma CellUnset(A: Rows, T: Rows, R: Rows, i: int, j: int)
    requires PartlyMultiplied(A, T, R, i, j) && Inside(R, i, j)
    ensures Value(R, i, j) == 0.0
  {
  }

  /** product's inner loop. */
  method ProductRow(A: Matrix, T: Matrix, R: Matrix, i: int)
    requires Working(A, T, R) && 1 <= i <= A.dimension && PartlyMultiplied(A.cells, T.cells, R.cells, i, 1)
    modifies A.rows.Lists`cursor, A.rows.Lists`index, T.rows.Lists`cursor, T.rows.Lists`index
    modifies R`nnz, R`cells, R`Entries, R.rows, R.rows.Lists, R.rows.Nodes, R.Entries`data
    ensures Working(A, T, R) && PartlyMultiplied(A.cells, T.cells, R.cells, i + 1, 1)
    ensures fresh(R.rows.Nodes - old(R.rows.Nodes)) && fresh(R.Entries - old(R.Entries))
  {
    hide Working, PartlyMultiplied, Matrix.Holding, Matrix.Valid;
    WorkingShape(A, T, R, i);
    for j := 1 to A.dimension + 1
      invariant Working(A, T, R) && PartlyMultiplied(A.cells, T.cells, R.cells, i, j)
      invariant fresh(R.rows.Nodes - old(R.rows.Nodes)) && fresh(R.Entries - old(R.Entries))
    {
      WorkingShape(A, T, R, i);
      WorkingShape(A, T, R, j);
      ProductCell(A, T, R, i, j);
    }
    RowMultiplied(A.cells, T.cells, R.cells, i);
  }

  /** product's outer loop. */
  method ProductRows(A: Matrix, T: Matrix, R: Matrix)
    requires Working(A, T, R) && PartlyMultiplied(A.cells, T.cells, R.cells, 1, 1)
    modifies A.rows.Lists`cursor, A.rows.Lists`index, T.rows.Lists`cursor, T.rows.Lists`index
    modifies R`nnz, R`cells, R`Entries, R.rows, R.rows.Lists, R.rows.Nodes, R.Entries`data
    ensures Working(A, T, R) && PartlyMultiplied(A.cells, T.cells, R.cells, A.dimension + 1, 1)
    ensures fresh(R.rows.Nodes - old(R.rows.Nodes)) && fresh(R.Entries - old(R.Entries))
  {
    hide Working, PartlyMultiplied, Matrix.Holding, Matrix.Valid;
    for i := 1 to A.dimension + 1
      invariant Working(A, T, R) && PartlyMultiplied(A.cells, T.cells, R.cells, i, 1)
      invariant fresh(R.rows.Nodes - old(R.rows.Nodes)) && fresh(R.Entries - old(R.Entries))
    {
      ProductRow(A, T, R, i);
    }
  }

  /** product, once the transpose T of B is there. */
  method Multiply(A: Matrix, T: Matrix, ghost b: Rows) returns (R: Matrix)
    requires A.Valid() && T.Holding() && A.Apart(T) && A.dimension == T.dimension
    requires CanonicalMatrix(b) && IsTranspose(b, T.cells)
    modifies A.rows.Lists`cursor, A.rows.Lists`index, T.rows.Lists`cursor, T.rows.Lists`index
    ensures A.Valid() && R.Valid() && R.dimension == A.dimension
    ensures fresh(R) && fresh(R.rows) && fresh(R.rows.Lists) && fresh(R.rows.Nodes) && fresh(R.Entries)
    ensures IsProduct(A.cells, b, R.cells)
  {
    hide Matrix.Holding, CanonicalMatrix, PartlyMultiplied, IsTranspose;
    A.HoldingShape();
    T.HoldingShape();
    R := new Matrix(A.dimension);
    A.Kept();
    T.Kept();
    NothingMultiplied(A.cells, T.cells, R.cells);
    ProductRows(A, T, R);
    R.HoldingShape();
    TransposeSize(b, T.cells);
    AllMultiplied(A.cells, b, T.cells, R.cells);
  }

  lemma TransposeSize(b: Rows, t: Rows)
    requires IsTranspose(b, t)
    ensures |t| == |b|
  {
  }

  /** product.  The two matrices may be the same object. */
  method Product(A: Matrix, B: Matrix) returns (R: Matrix)
    requires A.Valid() && B.Valid() && A.dimension == B.dimension && (A == B || A.Apart(B))
    modifies A.rows.Lists`cursor, A.rows.Lists`index, B.rows.Lists`cursor, B.rows.Lists`index
    ensures A.Valid() && B.Valid() && R.Valid() && R.dimension == A.dimension
    ensures fresh(R) && fresh(R.rows) && fresh(R.rows.Lists) && fresh(R.rows.Nodes) && fresh(R.Entries)
    ensures IsProduct(A.cells, B.cells, R.cells)
  {
    hide Matrix.Holding, CanonicalMatrix, IsTranspose, IsProduct;
    var T := Transpose(B);
    if A != B {
      A.Kept();
    }
    label transposed:
    R := Multiply(A, T, B.cells);
    if A != B {
      B.Kept@transposed();
    }
  }
}
