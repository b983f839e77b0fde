/** The loops of sum and vectorDot, which walk two sorted rows side by side. */
module RowMerges {
  import opened SparseRows
  import opened Sums

  // vectorDot

  /** What is left of the dot product of two rows. */
  function MergeDot(p: seq<Cell>, q: seq<Cell>): real
    decreases |p| + |q|
  {
    if p == [] || q == [] then 0.0
    else if p[0].col == q[0].col then p[0].val * q[0].val + MergeDot(p[1..], q[1..])
    else if p[0].col < q[0].col then MergeDot(p[1..], q)
    else MergeDot(p, q[1..])
  }

  function Products(p: seq<Cell>, q: seq<Cell>): int -> real {
    k => Lookup(p, k) * Lookup(q, k)
  }

  lemma SkipHead(p: seq<Cell>, q: seq<Cell>, n: int)
    requires Canonical(p, n) && Canonical(q, n) && n >= 0 && p != [] && q != [] && p[0].col < q[0].col
    ensures Total(Products(p, q), n) == Total(Products(p[1..], q), n)
    ensures Total(Products(q, p), n) == Total(Products(q, p[1..]), n)
  {
    forall k ensures Products(p, q)(k) == Products(p[1..], q)(k) && Products(q, p)(k) == Products(q, p[1..])(k) {
      LookupTail(p, n, k);
      if k == p[0].col {
        LookupBefore(q, n, k);
      }
    }
    TotalSame(Products(p, q), Products(p[1..], q), n);
    TotalSame(Products(q, p), Products(q, p[1..]), n);
  }

  /** Matching columns are enough: vectorDot is the full dense sum. */
  lemma {:induction false} MergeDotIsTotal(p: seq<Cell>, q: seq<Cell>, n: int)
    requires Canonical(p, n) && Canonical(q, n) && n >= 0
    ensures MergeDot(p, q) == Total(Products(p, q), n)
    decreases |p| + |q|
  {
    if p == [] || q == [] {
      TotalZero(Products(p, q), n);
    } else {
      CanonicalTail(p, n);
      CanonicalTail(q, n);
      if p[0].col == q[0].col {
        MergeDotIsTotal(p[1..], q[1..], n);
        forall k | k != p[0].col ensures Products(p, q)(k) == Products(p[1..], q[1..])(k) {
          LookupTail(p, n, k);
          LookupTail(q, n, k);
        }
        LookupTail(p, n, p[0].col);
        TotalPoint(Products(p[1..], q[1..]), Products(p, q), n, p[0].col);
      } else if p[0].col < q[0].col {
        SkipHead(p, q, n);
        MergeDotIsTotal(p[1..], q, n);
      } else {
        SkipHead(q, p, n);
        MergeDotIsTotal(p, q[1..], n);
      }
    }
  }

  // sum

  /** The cells of p before a, and those of q before b, have been added into c;
      neither row is ahead of the other. */
  ghost predicate Merged(c: seq<Cell>, p: seq<Cell>, a: int, q: seq<Cell>, b: int, n: int) {
    && Canonical(c, n) && Canonical(p, n) && Canonical(q, n) && 0 <= a <= |p| && 0 <= b <= |q|
    && (forall j :: Lookup(c, j) == Lookup(p[..a], j) + Lookup(q[..b], j))
    && (b < |q| ==> Below(p, q[b].col, a)) && (a < |p| ==> Below(q, p[a].col, b))
  }

  lemma MergeStart(p: seq<Cell>, q: seq<Cell>, n: int)
    requires Canonical(p, n) && Canonical(q, n)
    ensures Merged([], p, 0, q, 0, n)
  {
  }

  /** Nothing is left of either row. */
  lemma MergeEnd(c: seq<Cell>, p: seq<Cell>, q: seq<Cell>, n: int, j: int)
    requires Merged(c, p, |p|, q, |q|, n)
    ensures Canonical(c, n) && Lookup(c, j) == Lookup(p, j) + Lookup(q, j)
  {
    assert p[..|p|] == p && q[..|q|] == q;
  }

  /** How the prefix of a row grows. */
  lemma PrefixStep(p: seq<Cell>, a: int, n: int, j: int)
    requires Canonical(p, n) && 0 <= a < |p|
    ensures Lookup(p[..a + 1], j) == if j == p[a].col then p[a].val else Lookup(p[..a], j)
    ensures Lookup(p[..a], p[a].col) == 0.0
  {
    assert p[..a + 1] == p[..a] + [p[a]];
    LookupAppend(p[..a], p[a], n, j);
    LookupAbsent(p[..a], p[a].col);
  }

  lemma PrefixBelow(q: seq<Cell>, b: int, j: int)
    requires Below(q, j, b)
    ensures Lookup(q[..b], j) == 0.0
  {
    LookupAbsent(q[..b], j);
  }

  /** Both rows have the column. */
  lemma MergeBoth(c: seq<Cell>, p: seq<Cell>, a: int, q: seq<Cell>, b: int, n: int)
    requires Merged(c, p, a, q, b, n) && a < |p| && b < |q| && p[a].col == q[b].col
    ensures Merged(SetCell(c, p[a].col, p[a].val + q[b].val), p, a + 1, q, b + 1, n)
  {
    var d := SetCell(c, p[a].col, p[a].val + q[b].val);
    forall j ensures Canonical(d, n) && Lookup(d, j) == Lookup(p[..a + 1], j) + Lookup(q[..b + 1], j) {
      SetCellSets(c, n, p[a].col, p[a].val + q[b].val, j);
      PrefixStep(p, a, n, j);
      PrefixStep(q, b, n, j);
    }
  }

  /** The column of p comes first, or is in p alone. */
  lemma MergeLeft(c: seq<Cell>, p: seq<Cell>, a: int, q: seq<Cell>, b: int, n: int)
    requires Merged(c, p, a, q, b, n) && a < |p| && (b < |q| ==> p[a].col < q[b].col)
    ensures Merged(SetCell(c, p[a].col, p[a].val), p, a + 1, q, b, n)
  {
    var d := SetCell(c, p[a].col, p[a].val);
    PrefixBelow(q, b, p[a].col);
    forall j ensures Canonical(d, n) && Lookup(d, j) == Lookup(p[..a + 1], j) + Lookup(q[..b], j) {
      SetCellSets(c, n, p[a].col, p[a].val, j);
      PrefixStep(p, a, n, j);
    }
  }
}
