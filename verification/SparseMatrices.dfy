/** Sparse matrices as values: the dense matrices they stand for, their one
    canonical form, and the laws of their operations. */
module SparseMatrices {
  import opened SparseRows
  import opened RowMerges
  import opened Sums

  /** A[i] is row i; slot 0 is not used. */
  type Rows = seq<seq<Cell>>

  function Value(A: Rows, i: int, j: int): (x: real) {
    if 1 <= i < |A| then Lookup(A[i], j) else 0.0
  }

  ghost predicate CanonicalMatrix(A: Rows) {
    |A| >= 1 && A[0] == [] && forall i :: 1 <= i < |A| ==> Canonical(A[i], |A| - 1)
  }

  /** The rows of the zero matrix. */
  function Zeros(m: nat): (A: Rows)
    ensures |A| == m && forall i :: 0 <= i < m ==> A[i] == []
  {
    seq(m, _ => [])
  }

  predicate Inside(A: Rows, i: int, j: int) {
    1 <= i < |A| && 1 <= j < |A|
  }

  /** The matrices have the same entries. */
  ghost predicate SameDense(A: Rows, B: Rows) {
    |A| == |B| && forall i, j :: Inside(A, i, j) ==> Value(A, i, j) == Value(B, i, j)
  }

  /** A dense matrix has one canonical form, so `equals` may compare cell by cell. */
  lemma SameDenseIffSame(A: Rows, B: Rows)
    requires CanonicalMatrix(A) && CanonicalMatrix(B)
    ensures SameDense(A, B) <==> A == B
  {
    if SameDense(A, B) {
      forall i | 1 <= i < |A| ensures A[i] == B[i] {
        forall j | 1 <= j <= |A| - 1 ensures Lookup(A[i], j) == Lookup(B[i], j) {
          assert Inside(A, i, j) && Value(A, i, j) == Value(B, i, j);
        }
        CanonicalUnique(A[i], B[i], |A| - 1);
      }
    }
  }

  // nnz

  /** How many cells the rows hold together. */
  ghost function Count(A: Rows): nat {
    if A == [] then 0 else Count(A[..|A| - 1]) + |A[|A| - 1]|
  }

  lemma {:induction false} CountUpdate(A: Rows, i: int, r: seq<Cell>)
    requires 0 <= i < |A|
    ensures Count(A[i := r]) == Count(A) - |A[i]| + |r|
  {
    var n := |A| - 1;
    if i < n {
      CountUpdate(A[..n], i, r);
      assert A[i := r][..n] == A[..n][i := r];
    } else {
      assert A[i := r][..n] == A[..n];
    }
  }

  function One(x: real): real {
    if x != 0.0 then 1.0 else 0.0
  }

  /** 1 where the dense matrix is not zero. */
  function Support(A: Rows): (int, int) -> real {
    (i, j) => One(Value(A, i, j))
  }

  function RowSupport(r: seq<Cell>): int -> real {
    j => One(Lookup(r, j))
  }

  /** A canonical row has as many cells as non-zero columns. */
  lemma {:induction false} RowCount(r: seq<Cell>, n: nat)
    requires Canonical(r, n)
    ensures |r| as real == Total(RowSupport(r), n)
  {
    if r == [] {
      TotalZero(RowSupport(r), n);
    } else {
      var t := r[1..];
      CanonicalTail(r, n);
      RowCount(t, n);
      forall j ensures RowSupport(t)(j) == if j == r[0].col then 0.0 else RowSupport(r)(j) {
        LookupTail(r, n, j);
      }
      TotalPoint(RowSupport(t), RowSupport(r), n, r[0].col);
    }
  }

  /** nnz is the number of non-zero entries of the dense matrix. */
  lemma CountIsSupport(A: Rows)
    requires CanonicalMatrix(A)
    ensures Count(A) as real == Total(Inner(Support(A), |A| - 1), |A| - 1)
  {
    CountPrefix(A, |A|);
    assert A[..|A|] == A;
  }

  lemma {:induction false} CountPrefix(A: Rows, m: nat)
    requires CanonicalMatrix(A) && 1 <= m <= |A|
    ensures Count(A[..m]) as real == Total(Inner(Support(A), |A| - 1), m - 1)
  {
    var n := |A| - 1;
    assert A[..m][..m - 1] == A[..m - 1];
    if m == 1 {
      assert Count(A[..0]) == 0;
    } else {
      CountPrefix(A, m - 1);
      RowCount(A[m - 1], n);
      TotalSame(RowSupport(A[m - 1]), Along(Support(A), m - 1), n);
    }
  }

  // transpose

  ghost predicate IsTranspose(A: Rows, T: Rows) {
    && CanonicalMatrix(T) && |T| == |A|
    && forall i, j :: Inside(A, i, j) ==> Value(T, j, i) == Value(A, i, j)
  }

  /** Counting by rows and counting by columns agree, so transpose may copy nnz. */
  lemma TransposeCount(A: Rows, T: Rows)
    requires CanonicalMatrix(A) && IsTranspose(A, T)
    ensures Count(T) == Count(A)
  {
    var n := |A| - 1;
    CountIsSupport(A);
    CountIsSupport(T);
    Interchange(Support(A), n, n);
    forall j | 1 <= j <= n ensures Inner(Flip(Support(A)), n)(j) == Inner(Support(T), n)(j) {
      forall i | 1 <= i <= n ensures Along(Flip(Support(A)), j)(i) == Along(Support(T), j)(i) {
        assert Inside(A, i, j);
      }
      TotalSame(Along(Flip(Support(A)), j), Along(Support(T), j), n);
    }
    TotalSame(Inner(Flip(Support(A)), n), Inner(Support(T), n), n);
  }

  /** T is the transpose of the rows of A before row i, and of the first k cells of
      row i. */
  ghost predicate PartlyTransposed(A: Rows, T: Rows, i: int, k: int) {
    && CanonicalMatrix(T) && |T| == |A|
    && (1 <= i < |A| ==> 0 <= k <= |A[i]|)
    && forall r, c :: Inside(A, r, c) ==>
         Value(T, c, r) ==
         if r < i then Value(A, r, c) else if r == i then Lookup(A[i][..k], c) else 0.0
  }

  /** Appending the next cell to the list of its column keeps that list sorted. */
  lemma TransposeStep(A: Rows, T: Rows, i: int, k: int)
    requires CanonicalMatrix(A) && PartlyTransposed(A, T, i, k) && 1 <= i < |A| && k < |A[i]|
    ensures 1 <= A[i][k].col < |T|
    ensures var c := A[i][k].col;
            PartlyTransposed(A, T[c := T[c] + [Cell(i, A[i][k].val)]], i, k + 1)
  {
    var n, c, x := |A| - 1, A[i][k].col, A[i][k].val;
    var V := T[c := T[c] + [Cell(i, x)]];
    PrefixStep(A[i], k, n, c);
    forall m | 0 <= m < |T[c]| ensures T[c][m].col < i {
      LookupPresent(T[c], n, m);
      assert Inside(A, T[c][m].col, c);
    }
    assert Canonical(V[c], n);
    forall r, d | Inside(A, r, d)
      ensures Value(V, d, r) == if r < i then Value(A, r, d) else if r == i then Lookup(A[i][..k + 1], d) else 0.0
    {
      PrefixStep(A[i], k, n, d);
      LookupAppend(T[c], Cell(i, x), n, r);
    }
  }

  lemma TransposeRowDone(A: Rows, T: Rows, i: int)
    requires 1 <= i < |A| && PartlyTransposed(A, T, i, |A[i]|)
    ensures PartlyTransposed(A, T, i + 1, 0)
  {
    assert A[i][..|A[i]|] == A[i];
  }

  lemma TransposeInvolution(A: Rows, T: Rows, B: Rows)
    requires CanonicalMatrix(A) && IsTranspose(A, T) && IsTranspose(T, B)
    ensures B == A
  {
    forall i, j | Inside(A, i, j) ensures Value(B, i, j) == Value(A, i, j) {
      assert Inside(T, j, i);
    }
    SameDenseIffSame(B, A);
  }

  // sum, diff, scalarMult

  ghost predicate IsSum(A: Rows, B: Rows, C: Rows) {
    && CanonicalMatrix(C) && |C| == |A| == |B|
    && forall i, j :: Inside(C, i, j) ==> Value(C, i, j) == Value(A, i, j) + Value(B, i, j)
  }

  ghost predicate IsDiff(A: Rows, B: Rows, C: Rows) {
    && CanonicalMatrix(C) && |C| == |A| == |B|
    && forall i, j :: Inside(C, i, j) ==> Value(C, i, j) == Value(A, i, j) - Value(B, i, j)
  }

  ghost predicate IsMultiple(x: real, A: Rows, C: Rows) {
    && CanonicalMatrix(C) && |C| == |A|
    && forall i, j :: Inside(C, i, j) ==> Value(C, i, j) == Value(A, i, j) * x
  }

  /** diff undoes sum. */
  lemma DiffUndoesSum(A: Rows, B: Rows, C: Rows, D: Rows)
    requires CanonicalMatrix(A) && IsSum(A, B, C) && IsDiff(C, B, D)
    ensures D == A
  {
    SameDenseIffSame(D, A);
  }

  /** sum commutes. */
  lemma SumCommutes(A: Rows, B: Rows, C: Rows, D: Rows)
    requires IsSum(A, B, C) && IsSum(B, A, D)
    ensures C == D
  {
    SameDenseIffSame(C, D);
  }

  // product

  /** The terms of the sum for entry (i, j) of A B. */
  function Terms(A: Rows, B: Rows, i: int, j: int): int -> real {
    k => Value(A, i, k) * Value(B, k, j)
  }

  ghost predicate IsProduct(A: Rows, B: Rows, R: Rows) {
    && CanonicalMatrix(R) && |R| == |A| == |B|
    && forall i, j :: Inside(R, i, j) ==> Value(R, i, j) == Total(Terms(A, B, i, j), |R| - 1)
  }

  lemma Commute(x: real, y: real)
    ensures x * y == y * x
  {
  }

  lemma TransposedTerms(A: Rows, B: Rows, AT: Rows, BT: Rows, i: int, j: int)
    requires IsTranspose(A, AT) && IsTranspose(B, BT) && |A| == |B| && Inside(A, i, j)
    ensures Total(Terms(A, B, i, j), |A| - 1) == Total(Terms(BT, AT, j, i), |A| - 1)
  {
    hide Total, Value, CanonicalMatrix;
    forall k | 1 <= k <= |A| - 1 ensures Terms(A, B, i, j)(k) == Terms(BT, AT, j, i)(k) {
      assert Inside(A, i, k) && Inside(B, k, j);
      Commute(Value(A, i, k), Value(B, k, j));
    }
    TotalSame(Terms(A, B, i, j), Terms(BT, AT, j, i), |A| - 1);
  }

  /** The transpose of A B is the product of the transposes, the other way round. */
  lemma TransposeOfProduct(A: Rows, B: Rows, R: Rows, RT: Rows, AT: Rows, BT: Rows, S: Rows)
    requires IsProduct(A, B, R) && IsTranspose(R, RT)
    requires IsTranspose(A, AT) && IsTranspose(B, BT) && IsProduct(BT, AT, S)
    ensures RT == S
  {
    forall j, i | Inside(RT, j, i) ensures Value(RT, j, i) == Value(S, j, i) {
      hide Total, Value, CanonicalMatrix;
      assert Inside(R, i, j) && Inside(S, j, i);
      TransposedTerms(A, B, AT, BT, i, j);
    }
    SameDenseIffSame(RT, S);
  }

  lemma Distribute(x: real, y: real, z: real)
    ensures x * (y + z) == x * y + x * z
  {
  }

  lemma DistributedTerms(A: Rows, B: Rows, C: Rows, S: Rows, i: int, j: int)
    requires IsSum(B, C, S) && |A| == |S| && Inside(S, i, j)
    ensures Total(Terms(A, S, i, j), |A| - 1) == Total(Terms(A, B, i, j), |A| - 1) + Total(Terms(A, C, i, j), |A| - 1)
  {
    hide Total, Value, CanonicalMatrix;
    forall k | 1 <= k <= |A| - 1 ensures Terms(A, S, i, j)(k) == Terms(A, B, i, j)(k) + Terms(A, C, i, j)(k) {
      assert Inside(S, k, j);
      Distribute(Value(A, i, k), Value(B, k, j), Value(C, k, j));
    }
    TotalAdd(Terms(A, B, i, j), Terms(A, C, i, j), Terms(A, S, i, j), |A| - 1);
  }

  /** product distributes over sum. */
  lemma ProductDistributes(A: Rows, B: Rows, C: Rows, S: Rows, P: Rows, AB: Rows, AC: Rows, Q: Rows)
    requires IsSum(B, C, S) && IsProduct(A, S, P)
    requires IsProduct(A, B, AB) && IsProduct(A, C, AC) && IsSum(AB, AC, Q)
    ensures P == Q
  {
    forall i, j | Inside(P, i, j) ensures Value(P, i, j) == Value(Q, i, j) {
      hide Total, Value, CanonicalMatrix, Terms;
      assert Inside(S, i, j) && Inside(Q, i, j) && Inside(AB, i, j) && Inside(AC, i, j);
      DistributedTerms(A, B, C, S, i, j);
    }
    SameDenseIffSame(P, Q);
  }

  /** The terms of the double sum for entry (i, j) of A B C. */
  function Triple(A: Rows, B: Rows, C: Rows, i: int, j: int): (int, int) -> real {
    (k, l) => Value(A, i, k) * (Value(B, k, l) * Value(C, l, j))
  }

  lemma RightTerm(A: Rows, B: Rows, C: Rows, BC: Rows, i: int, j: int, k: int)
    requires IsProduct(B, C, BC) && Inside(BC, k, j)
    ensures Terms(A, BC, i, j)(k) == Total(Along(Triple(A, B, C, i, j), k), |BC| - 1)
  {
    hide Total, Value;
    TotalScale(Terms(B, C, k, j), Along(Triple(A, B, C, i, j), k), Value(A, i, k), |BC| - 1);
  }

  lemma RightTerms(A: Rows, B: Rows, C: Rows, BC: Rows, R: Rows, i: int, j: int)
    requires IsProduct(B, C, BC) && IsProduct(A, BC, R) && Inside(R, i, j)
    ensures Value(R, i, j) == Total(Inner(Triple(A, B, C, i, j), |R| - 1), |R| - 1)
  {
    hide Total, Value, CanonicalMatrix, Triple;
    var n, f := |R| - 1, Triple(A, B, C, i, j);
    forall k | 1 <= k <= n ensures Terms(A, BC, i, j)(k) == Inner(f, n)(k) {
      RightTerm(A, B, C, BC, i, j, k);
    }
    TotalSame(Terms(A, BC, i, j), Inner(f, n), n);
  }

  lemma LeftTerm(A: Rows, B: Rows, C: Rows, AB: Rows, i: int, j: int, l: int)
    requires IsProduct(A, B, AB) && Inside(AB, i, l)
    ensures Terms(AB, C, i, j)(l) == Total(Along(Flip(Triple(A, B, C, i, j)), l), |AB| - 1)
  {
    hide Total, Value;
    var f := Triple(A, B, C, i, j);
    forall k | 1 <= k <= |AB| - 1 ensures Along(Flip(f), l)(k) == Value(C, l, j) * Terms(A, B, i, l)(k) {
      Regroup(Value(A, i, k), Value(B, k, l), Value(C, l, j));
    }
    TotalScale(Terms(A, B, i, l), Along(Flip(f), l), Value(C, l, j), |AB| - 1);
  }

  lemma LeftTerms(A: Rows, B: Rows, C: Rows, AB: Rows, L: Rows, i: int, j: int)
    requires IsProduct(A, B, AB) && IsProduct(AB, C, L) && Inside(L, i, j)
    ensures Value(L, i, j) == Total(Inner(Flip(Triple(A, B, C, i, j)), |L| - 1), |L| - 1)
  {
    hide Total, Value, CanonicalMatrix, Triple;
    var n, f := |L| - 1, Triple(A, B, C, i, j);
    forall l | 1 <= l <= n ensures Terms(AB, C, i, j)(l) == Inner(Flip(f), n)(l) {
      LeftTerm(A, B, C, AB, i, j, l);
    }
    TotalSame(Terms(AB, C, i, j), Inner(Flip(f), n), n);
  }

  lemma Regroup(x: real, y: real, z: real)
    ensures x * (y * z) == z * (x * y)
  {
  }

  /** product is associative. */
  lemma ProductAssociates(A: Rows, B: Rows, C: Rows, AB: Rows, L: Rows, BC: Rows, R: Rows)
    requires IsProduct(A, B, AB) && IsProduct(AB, C, L) && IsProduct(B, C, BC) && IsProduct(A, BC, R)
    ensures L == R
  {
    forall i, j | Inside(L, i, j) ensures Value(L, i, j) == Value(R, i, j) {
      hide Total, Value, CanonicalMatrix, Triple;
      LeftTerms(A, B, C, AB, L, i, j);
      RightTerms(A, B, C, BC, R, i, j);
      Interchange(Triple(A, B, C, i, j), |A| - 1, |A| - 1);
    }
    SameDenseIffSame(L, R);
  }
}
