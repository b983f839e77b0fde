/** sum and diff of Matrix.c. */
module MatrixArithmetic {
  import opened Lists
  import opened SparseRows
  import opened RowMerges
  import opened SparseMatrices
  import opened EntryLists
  import opened Matrices
  import opened MatrixOps

  // sum

  /** C is valid, apart from A and B, and of their size. */
  ghost predicate Target(A: Matrix, B: Matrix, C: Matrix)
    reads A`Entries, A.rows, B`Entries, B.rows
    reads C, C.rows, C.rows.Nodes, C.rows.Lists, C.Entries`data
  {
    C.Valid() && A.Apart(C) && B.Apart(C) && A.dimension == B.dimension == C.dimension
  }

  /** Row i of C holds what the first a cells of A's row and the first b of B's say. */
  ghost predicate Merging(A: Rows, B: Rows, C: Rows, i: int, a: int, b: int) {
    1 <= i < |A| == |B| == |C| && Merged(C[i], A[i], a, B[i], b, |C| - 1)
  }

  lemma MergingFlip(A: Rows, B: Rows, C: Rows, i: int, a: int, b: int)
    requires Merging(A, B, C, i, a, b)
    ensures Merging(B, A, C, i, b, a)
  {
  }

  lemma MergedInside(c: seq<Cell>, p: seq<Cell>, a: int, q: seq<Cell>, b: int, n: int)
    requires Merged(c, p, a, q, b, n)
    ensures 0 <= a <= |p| && 0 <= b <= |q| && (a < |p| ==> 1 <= p[a].col <= n)
  {
  }

  lemma MergingLeft(A: Rows, B: Rows, C: Rows, i: int, a: int, b: int, c: Cell)
    requires Merging(A, B, C, i, a, b) && a < |A[i]| && A[i][a] == c && (b < |B[i]| ==> c.col < B[i][b].col)
    ensures Inside(C, i, c.col) && Merging(A, B, C[i := SetCell(C[i], c.col, c.val)], i, a + 1, b)
  {
    hide Merged, SetCell;
    MergedInside(C[i], A[i], a, B[i], b, |C| - 1);
    MergeLeft(C[i], A[i], a, B[i], b, |C| - 1);
  }

  lemma MergingBoth(A: Rows, B: Rows, C: Rows, i: int, a: int, b: int, c: Cell, d: Cell)
    requires Merging(A, B, C, i, a, b) && a < |A[i]| && A[i][a] == c && b < |B[i]| && B[i][b] == d && c.col == d.col
    ensures Inside(C, i, c.col) && Merging(A, B, C[i := SetCell(C[i], c.col, c.val + d.val)], i, a + 1, b + 1)
  {
    hide Merged, SetCell;
    MergedInside(C[i], A[i], a, B[i], b, |C| - 1);
    MergeBoth(C[i], A[i], a, B[i], b, |C| - 1);
  }

  /** D differs from C in row i only. */
  ghost predicate OnlyRow(C: Rows, D: Rows, i: int) {
    |D| == |C| && forall k :: 0 <= k < |C| && k != i ==> D[k] == C[k]
  }

  lemma OnlyRowSame(C: Rows, i: int)
    ensures OnlyRow(C, C, i)
  {
  }

  lemma OnlyRowTwice(C: Rows, D: Rows, V: Rows, i: int)
    requires OnlyRow(C, D, i) && OnlyRow(D, V, i)
    ensures OnlyRow(C, V, i)
  {
  }

  /** A and B can be read, and C written, without getting in each other's way. */
  ghost predicate Working(A: Matrix, B: Matrix, C: Matrix)
    reads A, A.rows, A.rows.Nodes, A.rows.Lists, A.Entries`data
    reads B, B.rows, B.rows.Nodes, B.rows.Lists, B.Entries`data
    reads C, C.rows, C.rows.Nodes, C.rows.Lists, C.Entries`data
  {
    A.Holding() && B.Holding() && A.Apart(B) && Target(A, B, C)
  }

  /** Besides, the cursors of row i of A and B stand at a and b. */
  ghost predicate AtWork(A: Matrix, B: Matrix, C: Matrix, i: int, a: int, b: int)
    reads A, A.rows, A.rows.Nodes, A.rows.Lists, A.Entries`data
    reads B, B.rows, B.rows.Nodes, B.rows.Lists, B.Entries`data
    reads C, C.rows, C.rows.Nodes, C.rows.Lists, C.Entries`data
  {
    Working(A, B, C) && 1 <= i <= A.dimension && A.Ready(i, a) && B.Ready(i, b)
  }

  lemma WorkEnds(A: Matrix, B: Matrix, C: Matrix, i: int, a: int, b: int)
    requires AtWork(A, B, C, i, a, b)
    ensures Working(A, B, C)
  {
  }

  ghost predicate Cursors(A: Matrix, B: Matrix, i: int, a: int, b: int)
    reads A`cells, A.rows.Lists`index, B`cells, B.rows.Lists`index
  {
    && 0 <= i < |A.rows.lists| && i < |A.cells| && A.rows.At(i) in A.rows.Lists
    && i < |B.rows.lists| && i < |B.cells| && B.rows.At(i) in B.rows.Lists
    && 0 <= a <= |A.cells[i]| && 0 <= b <= |B.cells[i]|
    && A.rows.At(i).index == (if a < |A.cells[i]| then a else -1)
    && B.rows.At(i).index == (if b < |B.cells[i]| then b else -1)
  }

  lemma AtWorkShape(A: Matrix, B: Matrix, C: Matrix, i: int, a: int, b: int)
    requires AtWork(A, B, C, i, a, b)
    ensures |A.cells| == |B.cells| == |C.cells| == A.dimension + 1 == |A.rows.lists| && 1 <= i < |C.cells|
    ensures 0 <= a <= |A.cells[i]| && 0 <= b <= |B.cells[i]| && A != C && B != C
    ensures Cursors(A, B, i, a, b) && AtWork(B, A, C, i, b, a)
  {
  }

  /** moveNext on row i of A. */
  method Advance(A: Matrix, B: Matrix, C: Matrix, i: int, ghost a: int, ghost b: int)
    requires AtWork(A, B, C, i, a, b) && i < |A.rows.lists| && i < |A.cells| && a < |A.cells[i]|
    modifies A.rows.At(i)`cursor, A.rows.At(i)`index
    ensures AtWork(A, B, C, i, a + 1, b)
  {
    hide Matrix.Holding, CanonicalMatrix, List.CursorAgrees;
    A.HoldingShape();
    A.RowNext(i);
    B.Kept();
    C.Kept();
  }

  /** changeEntry on row i of C. */
  method Put(A: Matrix, B: Matrix, C: Matrix, i: int, col: int, data: real, ghost a: int, ghost b: int)
    requires AtWork(A, B, C, i, a, b) && Inside(C.cells, i, col)
    modifies C`nnz, C`cells, C`Entries, C.rows, C.rows.Lists, C.rows.Nodes, C.Entries`data
    ensures AtWork(A, B, C, i, a, b)
    ensures fresh(C.rows.Nodes - old(C.rows.Nodes)) && fresh(C.Entries - old(C.Entries))
    ensures |C.cells| == |old(C.cells)| && C.cells == old(C.cells)[i := SetCell(old(C.cells)[i], col, data)]
  {
    hide Matrix.Holding, CanonicalMatrix, List.CursorAgrees, SetCell;
    C.ChangeEntry(i, col, data);
    A.Kept();
    B.Kept();
  }

  /** The entry under the cursor of row i of A. */
  method ReadCell(A: Matrix, B: Matrix, C: Matrix, i: int, ghost a: int, ghost b: int) returns (col: int, data: real)
    requires AtWork(A, B, C, i, a, b) && i < |A.cells| && a < |A.cells[i]|
    ensures AtWork(A, B, C, i, a, b) && A.cells[i][a] == Cell(col, data)
  {
    hide Matrix.Holding, CanonicalMatrix, List.CursorAgrees;
    A.HoldingShape();
    col, data := A.RowCell(i);
    B.Kept();
    C.Kept();
  }

  /** moveFront on row i of A and B. */
  method StartRow(A: Matrix, B: Matrix, C: Matrix, i: int)
    requires Working(A, B, C) && 1 <= i <= A.dimension
    modifies A.rows.At(i)`cursor, A.rows.At(i)`index, B.rows.At(i)`cursor, B.rows.At(i)`index
    ensures AtWork(A, B, C, i, 0, 0)
  {
    hide Matrix.Holding, CanonicalMatrix, List.CursorAgrees;
    A.HoldingShape();
    B.HoldingShape();
    A.Shape(i);
    B.Shape(i);
    A.RowFront(i);
    B.Kept();
    label moved:
    B.RowFront(i);
    A.Kept@moved();
    C.Kept();
  }

  /** The rounds of sum in which one row moves on alone. */
  method AddOne(A: Matrix, B: Matrix, C: Matrix, i: int, ghost a: int, ghost b: int)
    requires AtWork(A, B, C, i, a, b) && Merging(A.cells, B.cells, C.cells, i, a, b)
    requires a < |A.cells[i]| && (b < |B.cells[i]| ==> A.cells[i][a].col < B.cells[i][b].col)
    modifies A.rows.At(i)`cursor, A.rows.At(i)`index
    modifies C`nnz, C`cells, C`Entries, C.rows, C.rows.Lists, C.rows.Nodes, C.Entries`data
    ensures AtWork(A, B, C, i, a + 1, b) && Merging(A.cells, B.cells, C.cells, i, a + 1, b)
    ensures fresh(C.rows.Nodes - old(C.rows.Nodes)) && fresh(C.Entries - old(C.Entries))
    ensures OnlyRow(old(C.cells), C.cells, i)
  {
    hide AtWork, Working, Merging, SetCell;
    AtWorkShape(A, B, C, i, a, b);
    var col, data := ReadCell(A, B, C, i, a, b);
    MergingLeft(A.cells, B.cells, C.cells, i, a, b, Cell(col, data));
    Put(A, B, C, i, col, data, a, b);
    Advance(A, B, C, i, a, b);
  }

  /** moveNext on row i of A and of B. */
  method AdvanceBoth(A: Matrix, B: Matrix, C: Matrix, i: int, ghost a: int, ghost b: int)
    requires AtWork(A, B, C, i, a, b) && i < |A.rows.lists| && i < |A.cells| && a < |A.cells[i]|
    requires i < |B.rows.lists| && i < |B.cells| && b < |B.cells[i]|
    modifies A.rows.At(i)`cursor, A.rows.At(i)`index, B.rows.At(i)`cursor, B.rows.At(i)`index
    ensures AtWork(A, B, C, i, a + 1, b + 1)
  {
    hide AtWork, Working;
    Advance(A, B, C, i, a, b);
    AtWorkShape(A, B, C, i, a + 1, b);
    Advance(B, A, C, i, b, a + 1);
    AtWorkShape(B, A, C, i, b + 1, a + 1);
  }

  /** The round of sum in which both rows move on. */
  method AddBoth(A: Matrix, B: Matrix, C: Matrix, i: int, ghost a: int, ghost b: int, col: int, x: real, y: real)
    requires AtWork(A, B, C, i, a, b) && Merging(A.cells, B.cells, C.cells, i, a, b)
    requires a < |A.cells[i]| && b < |B.cells[i]| && A.cells[i][a] == Cell(col, x) && B.cells[i][b] == Cell(col, y)
    modifies A.rows.At(i)`cursor, A.rows.At(i)`index, B.rows.At(i)`cursor, B.rows.At(i)`index
    modifies C`nnz, C`cells, C`Entries, C.rows, C.rows.Lists, C.rows.Nodes, C.Entries`data
    ensures AtWork(A, B, C, i, a + 1, b + 1) && Merging(A.cells, B.cells, C.cells, i, a + 1, b + 1)
    ensures fresh(C.rows.Nodes - old(C.rows.Nodes)) && fresh(C.Entries - old(C.Entries))
    ensures OnlyRow(old(C.cells), C.cells, i)
  {
    hide AtWork, Working, Merging, SetCell;
    AtWorkShape(A, B, C, i, a, b);
    MergingBoth(A.cells, B.cells, C.cells, i, a, b, Cell(col, x), Cell(col, y));
    Put(A, B, C, i, col, x + y, a, b);
    AdvanceBoth(A, B, C, i, a, b);
  }

  /** The rounds of sum in which the row of B moves on alone. */
  method AddOther(A: Matrix, B: Matrix, C: Matrix, i: int, ghost a: int, ghost b: int)
    requires AtWork(A, B, C, i, a, b) && Merging(A.cells, B.cells, C.cells, i, a, b) && i < |B.rows.lists|
    requires b < |B.cells[i]| && (a < |A.cells[i]| ==> B.cells[i][b].col < A.cells[i][a].col)
    modifies B.rows.At(i)`cursor, B.rows.At(i)`index
    modifies C`nnz, C`cells, C`Entries, C.rows, C.rows.Lists, C.rows.Nodes, C.Entries`data
    ensures AtWork(A, B, C, i, a, b + 1) && Merging(A.cells, B.cells, C.cells, i, a, b + 1)
    ensures fresh(C.rows.Nodes - old(C.rows.Nodes)) && fresh(C.Entries - old(C.Entries))
    ensures OnlyRow(old(C.cells), C.cells, i)
  {
    hide AtWork, Working, Merging, OnlyRow;
    AtWorkShape(A, B, C, i, a, b);
    MergingFlip(A.cells, B.cells, C.cells, i, a, b);
    AddOne(B, A, C, i, b, a);
    AtWorkShape(B, A, C, i, b + 1, a);
    MergingFlip(B.cells, A.cells, C.cells, i, b + 1, a);
  }

  /** One round of the first loop of sum. */
  method AddNext(A: Matrix, B: Matrix, C: Matrix, i: int, ghost a: int, ghost b: int) returns (ghost a': int, ghost b': int)
    requires AtWork(A, B, C, i, a, b) && Merging(A.cells, B.cells, C.cells, i, a, b)
    requires a < |A.cells[i]| && b < |B.cells[i]|
    modifies A.rows.At(i)`cursor, A.rows.At(i)`index, B.rows.At(i)`cursor, B.rows.At(i)`index
    modifies C`nnz, C`cells, C`Entries, C.rows, C.rows.Lists, C.rows.Nodes, C.Entries`data
    ensures AtWork(A, B, C, i, a', b') && Merging(A.cells, B.cells, C.cells, i, a', b') && a + b < a' + b'
    ensures fresh(C.rows.Nodes - old(C.rows.Nodes)) && fresh(C.Entries - old(C.Entries))
    ensures OnlyRow(old(C.cells), C.cells, i)
  {
    hide AtWork, Working, Merging, OnlyRow;
    a', b' := a, b;
    AtWorkShape(A, B, C, i, a, b);
    var E, x := ReadCell(A, B, C, i, a, b);
    AtWorkShape(A, B, C, i, a, b);
    var F, y := ReadCell(B, A, C, i, b, a);
    AtWorkShape(B, A, C, i, b, a);
    if E == F {
      AddBoth(A, B, C, i, a, b, E, x, y);
      a', b' := a + 1, b + 1;
    } else if E < F {
      AddOne(A, B, C, i, a, b);
      a' := a + 1;
    } else {
      AddOther(A, B, C, i, a, b);
      b' := b + 1;
    }
  }

  /** What the loops over a single row keep: B has nothing left, or A has not. */
  ghost predicate Finishing(A: Matrix, B: Matrix, C: Matrix, c: Rows, i: int, k: int, b: int)
    reads A, A.rows, A.rows.Nodes, A.rows.Lists, A.Entries`data
    reads B, B.rows, B.rows.Nodes, B.rows.Lists, B.Entries`data
    reads C, C.rows, C.rows.Nodes, C.rows.Lists, C.Entries`data
  {
    && AtWork(A, B, C, i, k, b) && Merging(A.cells, B.cells, C.cells, i, k, b) && OnlyRow(c, C.cells, i)
    && (b == |B.cells[i]| || k == |A.cells[i]|)
  }

  lemma FinishingShape(A: Matrix, B: Matrix, C: Matrix, c: Rows, i: int, k: int, b: int)
    requires Finishing(A, B, C, c, i, k, b)
    ensures i < |A.cells| == |A.rows.lists| && 0 <= i && 0 <= k <= |A.cells[i]| && A != C
    ensures A.rows.At(i).index == if k < |A.cells[i]| then k else -1
  {
  }

  method FinishOne(A: Matrix, B: Matrix, C: Matrix, i: int, ghost c: Rows, ghost k: int, ghost b: int)
    requires Finishing(A, B, C, c, i, k, b) && i < |A.cells| && i < |A.rows.lists| && k < |A.cells[i]|
    modifies A.rows.At(i)`cursor, A.rows.At(i)`index
    modifies C`nnz, C`cells, C`Entries, C.rows, C.rows.Lists, C.rows.Nodes, C.Entries`data
    ensures Finishing(A, B, C, c, i, k + 1, b)
    ensures fresh(C.rows.Nodes - old(C.rows.Nodes)) && fresh(C.Entries - old(C.Entries))
  {
    hide AtWork, Merging, OnlyRow;
    AtWorkShape(A, B, C, i, k, b);
    ghost var d := C.cells;
    AddOne(A, B, C, i, k, b);
    OnlyRowTwice(c, d, C.cells, i);
  }

  /** The loops of sum that take over what is left of one row, A's. */
  method FinishRow(A: Matrix, B: Matrix, C: Matrix, i: int, ghost c: Rows, ghost a: int, ghost b: int)
    requires Finishing(A, B, C, c, i, a, b) && i < |A.rows.lists|
    modifies A.rows.At(i)`cursor, A.rows.At(i)`index
    modifies C`nnz, C`cells, C`Entries, C.rows, C.rows.Lists, C.rows.Nodes, C.Entries`data
    ensures i < |A.cells| && Finishing(A, B, C, c, i, |A.cells[i]|, b)
    ensures fresh(C.rows.Nodes - old(C.rows.Nodes)) && fresh(C.Entries - old(C.Entries))
  {
    hide Finishing;
    ghost var k := a;
    FinishingShape(A, B, C, c, i, k, b);
    while A.rows.At(i).index >= 0
      invariant Finishing(A, B, C, c, i, k, b) && k <= |A.cells[i]|
      invariant A.rows.At(i).index == if k < |A.cells[i]| then k else -1
      invariant fresh(C.rows.Nodes - old(C.rows.Nodes)) && fresh(C.Entries - old(C.Entries))
      decreases |A.cells[i]| - k
    {
      FinishOne(A, B, C, i, c, k, b);
      k := k + 1;
      FinishingShape(A, B, C, c, i, k, b);
    }
  }

  /** The same, with what is known of A, B and C spelled out. */
  method AddRest(A: Matrix, B: Matrix, C: Matrix, i: int, ghost a: int, ghost b: int)
    requires AtWork(A, B, C, i, a, b) && Merging(A.cells, B.cells, C.cells, i, a, b) && i < |A.rows.lists|
    requires b == |B.cells[i]| || a == |A.cells[i]|
    modifies A.rows.At(i)`cursor, A.rows.At(i)`index
    modifies C`nnz, C`cells, C`Entries, C.rows, C.rows.Lists, C.rows.Nodes, C.Entries`data
    ensures AtWork(A, B, C, i, |A.cells[i]|, b) && Merging(A.cells, B.cells, C.cells, i, |A.cells[i]|, b)
    ensures fresh(C.rows.Nodes - old(C.rows.Nodes)) && fresh(C.Entries - old(C.Entries))
    ensures OnlyRow(old(C.cells), C.cells, i)
  {
    hide AtWork, Working, Merging, OnlyRow;
    AtWorkShape(A, B, C, i, a, b);
    OnlyRowSame(C.cells, i);
    FinishRow(A, B, C, i, C.cells, a, b);
  }

  /** The rows before i have been added, the others of C are empty. */
  ghost predicate PartlyAdded(A: Rows, B: Rows, C: Rows, i: int) {
    && CanonicalMatrix(A) && CanonicalMatrix(B) && |A| == |B| == |C|
    && forall r {:trigger C[r]} :: 1 <= r < |C| ==>
         if r < i then forall j :: Lookup(C[r], j) == Lookup(A[r], j) + Lookup(B[r], j) else C[r] == []
  }

  lemma NothingAdded(A: Rows, B: Rows, C: Rows)
    requires CanonicalMatrix(A) && CanonicalMatrix(B) && |A| == |B| && C == Zeros(|A|)
    ensures PartlyAdded(A, B, C, 1)
  {
  }

  lemma RowToAdd(A: Rows, B: Rows, C: Rows, i: int)
    requires PartlyAdded(A, B, C, i) && 1 <= i < |C|
    ensures Merging(A, B, C, i, 0, 0)
  {
    MergeStart(A[i], B[i], |C| - 1);
  }

  lemma RowAdded(A: Rows, B: Rows, C: Rows, D: Rows, i: int)
    requires PartlyAdded(A, B, C, i) && 1 <= i < |C| == |D| && Merging(A, B, D, i, |A[i]|, |B[i]|)
    requires OnlyRow(C, D, i)
    ensures PartlyAdded(A, B, D, i + 1)
  {
    forall j ensures Lookup(D[i], j) == Lookup(A[i], j) + Lookup(B[i], j) {
      MergeEnd(D[i], A[i], B[i], |D| - 1, j);
    }
  }

  lemma AllAdded(A: Rows, B: Rows, C: Rows)
    requires PartlyAdded(A, B, C, |C|) && CanonicalMatrix(C)
    ensures IsSum(A, B, C)
  {
    forall i, j | Inside(C, i, j) ensures Value(C, i, j) == Value(A, i, j) + Value(B, i, j) {
      assert Lookup(C[i], j) == Lookup(A[i], j) + Lookup(B[i], j);
    }
  }

  lemma WorkingShape(A: Matrix, B: Matrix, C: Matrix, i: int)
    requires Working(A, B, C) && 0 <= i <= A.dimension
    ensures A.Holding() && B.Holding() && C.Valid() && A != C && B != C
    ensures |A.cells| == |B.cells| == |C.cells| == A.dimension + 1 == |A.rows.lists| == |B.rows.lists|
    ensures A.rows.At(i) in A.rows.Lists && B.rows.At(i) in B.rows.Lists
  {
    A.Shape(i);
    B.Shape(i);
    C.HoldingShape();
  }

  /** The first loop of sum, until one row ends. */
  method AddRows(A: Matrix, B: Matrix, C: Matrix, i: int) returns (ghost a: int, ghost b: int)
    requires AtWork(A, B, C, i, 0, 0) && Merging(A.cells, B.cells, C.cells, i, 0, 0)
    requires i < |A.rows.lists| && i < |B.rows.lists|
    modifies A.rows.At(i)`cursor, A.rows.At(i)`index, B.rows.At(i)`cursor, B.rows.At(i)`index
    modifies C`nnz, C`cells, C`Entries, C.rows, C.rows.Lists, C.rows.Nodes, C.Entries`data
    ensures AtWork(A, B, C, i, a, b) && Merging(A.cells, B.cells, C.cells, i, a, b)
    ensures a == |A.cells[i]| || b == |B.cells[i]|
    ensures fresh(C.rows.Nodes - old(C.rows.Nodes)) && fresh(C.Entries - old(C.Entries))
    ensures OnlyRow(old(C.cells), C.cells, i)
  {
    hide AtWork, Working, Merging, OnlyRow;
    a, b := 0, 0;
    AtWorkShape(A, B, C, i, a, b);
    OnlyRowSame(C.cells, i);
    while A.rows.At(i).index >= 0 && B.rows.At(i).index >= 0
      invariant AtWork(A, B, C, i, a, b) && Merging(A.cells, B.cells, C.cells, i, a, b) && Cursors(A, B, i, a, b)
      invariant fresh(C.rows.Nodes - old(C.rows.Nodes)) && fresh(C.Entries - old(C.Entries))
      invariant OnlyRow(old(C.cells), C.cells, i)
      decreases |A.cells[i]| + |B.cells[i]| - a - b
    {
      ghost var c := C.cells;
      a, b := AddNext(A, B, C, i, a, b);
      OnlyRowTwice(old(C.cells), c, C.cells, i);
      AtWorkShape(A, B, C, i, a, b);
    }
  }

  /** The first two loops of sum on row i. */
  method MergeFirst(A: Matrix, B: Matrix, C: Matrix, i: int) returns (ghost b: int)
    requires AtWork(A, B, C, i, 0, 0) && Merging(A.cells, B.cells, C.cells, i, 0, 0)
    requires i < |A.rows.lists| && i < |B.rows.lists|
    modifies A.rows.At(i)`cursor, A.rows.At(i)`index, B.rows.At(i)`cursor, B.rows.At(i)`index
    modifies C`nnz, C`cells, C`Entries, C.rows, C.rows.Lists, C.rows.Nodes, C.Entries`data
    ensures AtWork(A, B, C, i, |A.cells[i]|, b) && Merging(A.cells, B.cells, C.cells, i, |A.cells[i]|, b)
    ensures fresh(C.rows.Nodes - old(C.rows.Nodes)) && fresh(C.Entries - old(C.Entries))
    ensures OnlyRow(old(C.cells), C.cells, i)
  {
    hide AtWork, Working, Merging, OnlyRow;
    ghost var a;
    a, b := AddRows(A, B, C, i);
    ghost var c := C.cells;
    AtWorkShape(A, B, C, i, a, b);
    AddRest(A, B, C, i, a, b);
    OnlyRowTwice(old(C.cells), c, C.cells, i);
  }

  /** The three loops of sum on row i. */
  method MergeRows(A: Matrix, B: Matrix, C: Matrix, i: int)
    requires AtWork(A, B, C, i, 0, 0) && Merging(A.cells, B.cells, C.cells, i, 0, 0)
    requires i < |A.rows.lists| && i < |B.rows.lists|
    modifies A.rows.At(i)`cursor, A.rows.At(i)`index, B.rows.At(i)`cursor, B.rows.At(i)`index
    modifies C`nnz, C`cells, C`Entries, C.rows, C.rows.Lists, C.rows.Nodes, C.Entries`data
    ensures Working(A, B, C) && Merging(A.cells, B.cells, C.cells, i, |A.cells[i]|, |B.cells[i]|)
    ensures fresh(C.rows.Nodes - old(C.rows.Nodes)) && fresh(C.Entries - old(C.Entries))
    ensures OnlyRow(old(C.cells), C.cells, i)
  {
    hide AtWork, Working, Merging, OnlyRow;
    AtWorkShape(A, B, C, i, 0, 0);
    ghost var a := |A.cells[i]|;
    ghost var b := MergeFirst(A, B, C, i);
    ghost var c := C.cells;
    AtWorkShape(A, B, C, i, a, b);
    MergingFlip(A.cells, B.cells, C.cells, i, a, b);
    AddRest(B, A, C, i, b, a);
    OnlyRowTwice(old(C.cells), c, C.cells, i);
    AtWorkShape(B, A, C, i, |B.cells[i]|, a);
    MergingFlip(B.cells, A.cells, C.cells, i, |B.cells[i]|, a);
    WorkEnds(A, B, C, i, a, |B.cells[i]|);
  }

  /** The body of sum's loop over the rows. */
  method SumRow(A: Matrix, B: Matrix, C: Matrix, i: int)
    requires Working(A, B, C) && 1 <= i <= A.dimension && PartlyAdded(A.cells, B.cells, C.cells, i)
    modifies A.rows.At(i)`cursor, A.rows.At(i)`index, B.rows.At(i)`cursor, B.rows.At(i)`index
    modifies C`nnz, C`cells, C`Entries, C.rows, C.rows.Lists, C.rows.Nodes, C.Entries`data
    ensures Working(A, B, C) && PartlyAdded(A.cells, B.cells, C.cells, i + 1)
    ensures fresh(C.rows.Nodes - old(C.rows.Nodes)) && fresh(C.Entries - old(C.Entries))
  {
    hide AtWork, Merging, PartlyAdded, Working, Matrix.Holding, Matrix.Valid;
    WorkingShape(A, B, C, i);
    ghost var c := C.cells;
    StartRow(A, B, C, i);
    RowToAdd(A.cells, B.cells, C.cells, i);
    MergeRows(A, B, C, i);
    RowAdded(A.cells, B.cells, c, C.cells, i);
  }

  /** The loop of sum over the rows. */
  method SumRows(A: Matrix, B: Matrix, C: Matrix)
    requires Working(A, B, C) && PartlyAdded(A.cells, B.cells, C.cells, 1)
    modifies A.rows.Lists`cursor, A.rows.Lists`index, B.rows.Lists`cursor, B.rows.Lists`index
    modifies C`nnz, C`cells, C`Entries, C.rows, C.rows.Lists, C.rows.Nodes, C.Entries`data
    ensures Working(A, B, C) && PartlyAdded(A.cells, B.cells, C.cells, A.dimension + 1)
    ensures fresh(C.rows.Nodes - old(C.rows.Nodes)) && fresh(C.Entries - old(C.Entries))
  {
    hide Working, PartlyAdded, Matrix.Holding, Matrix.Valid;
    for i := 1 to A.dimension + 1
      invariant Working(A, B, C) && PartlyAdded(A.cells, B.cells, C.cells, i)
      invariant fresh(C.rows.Nodes - old(C.rows.Nodes)) && fresh(C.Entries - old(C.Entries))
    {
      WorkingShape(A, B, C, i);
      SumRow(A, B, C, i);
    }
  }

  /** sum of two different matrices, into a new one. */
  method SumInto(A: Matrix, B: Matrix, C: Matrix)
    requires A.Valid() && B.Valid() && Working(A, B, C) && C.cells == Zeros(|A.cells|)
    modifies A.rows.Lists`cursor, A.rows.Lists`index, B.rows.Lists`cursor, B.rows.Lists`index
    modifies C`nnz, C`cells, C`Entries, C.rows, C.rows.Lists, C.rows.Nodes, C.Entries`data
    ensures A.Valid() && B.Valid() && C.Valid() && IsSum(A.cells, B.cells, C.cells)
    ensures fresh(C.rows.Nodes - old(C.rows.Nodes)) && fresh(C.Entries - old(C.Entries))
  {
    hide Matrix.Holding, CanonicalMatrix, PartlyAdded, Working;
    WorkingShape(A, B, C, 0);
    NothingAdded(A.cells, B.cells, C.cells);
    SumRows(A, B, C);
    WorkingShape(A, B, C, 0);
    AllAdded(A.cells, B.cells, C.cells);
  }

  lemma DoubleIsSum(A: Rows, C: Rows)
    requires IsMultiple(2.0, A, C)
    ensures IsSum(A, A, C)
  {
  }

  /** sum.  The two matrices may be the same object. */
  method Sum(A: Matrix, B: Matrix) returns (C: Matrix)
    requires A.Valid() && B.Valid() && A.dimension == B.dimension && (A == B || A.Apart(B))
    modifies A.rows.Lists`cursor, A.rows.Lists`index, B.rows.Lists`cursor, B.rows.Lists`index
    ensures A.Valid() && B.Valid() && C.Valid() && C.dimension == A.dimension
    ensures fresh(C) && fresh(C.rows) && fresh(C.rows.Lists) && fresh(C.rows.Nodes) && fresh(C.Entries)
    ensures IsSum(A.cells, B.cells, C.cells)
  {
    hide Matrix.Holding, CanonicalMatrix, IsSum, IsMultiple, Carries;
    if A == B {
      C := ScalarMult(2.0, A);
      DoubleIsSum(A.cells, C.cells);
      return;
    }
    C := NewLike(A);
    B.Kept();
    SumInto(A, B, C);
  }

  lemma NegatedIsDiff(A: Rows, B: Rows, C: Rows, D: Rows)
    requires IsMultiple(-1.0, B, C) && IsSum(A, C, D)
    ensures IsDiff(A, B, D)
  {
    forall i, j | Inside(D, i, j) ensures Value(D, i, j) == Value(A, i, j) - Value(B, i, j) {
      assert Inside(C, i, j);
    }
  }

  lemma NothingIsDiff(A: Rows)
    requires CanonicalMatrix(A)
    ensures IsDiff(A, A, Zeros(|A|))
  {
  }

  /** diff of two different matrices. */
  method Subtract(A: Matrix, B: Matrix) returns (D: Matrix)
    requires A.Valid() && B.Valid() && A.dimension == B.dimension && A.Apart(B)
    modifies A.rows.Lists`cursor, A.rows.Lists`index, B.rows.Lists`cursor, B.rows.Lists`index
    ensures A.Valid() && B.Valid() && D.Valid() && D.dimension == A.dimension
    ensures fresh(D) && fresh(D.rows) && fresh(D.rows.Lists) && fresh(D.rows.Nodes) && fresh(D.Entries)
    ensures IsDiff(A.cells, B.cells, D.cells)
  {
    hide Matrix.Holding, CanonicalMatrix, IsSum, IsDiff, IsMultiple;
    var C := ScalarMult(-1.0, B);
    A.Kept();
    label negated:
    D := Sum(A, C);
    B.Kept@negated();
    NegatedIsDiff(A.cells, B.cells, C.cells, D.cells);
  }

  /** diff.  The two matrices may be the same object. */
  method Diff(A: Matrix, B: Matrix) returns (D: Matrix)
    requires A.Valid() && B.Valid() && A.dimension == B.dimension && (A == B || A.Apart(B))
    modifies A.rows.Lists`cursor, A.rows.Lists`index, B.rows.Lists`cursor, B.rows.Lists`index
    ensures A.Valid() && B.Valid() && D.Valid() && D.dimension == A.dimension
    ensures fresh(D) && fresh(D.rows) && fresh(D.rows.Lists) && fresh(D.rows.Nodes) && fresh(D.Entries)
    ensures IsDiff(A.cells, B.cells, D.cells)
  {
    hide Matrix.Holding, CanonicalMatrix, IsDiff;
    NothingIsDiff(A.cells);
    if A == B {
      D := NewLike(A);
    } else {
      D := Subtract(A, B);
    }
  }
}
