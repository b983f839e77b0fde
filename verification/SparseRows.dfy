/** The rows of a sparse matrix: cells in increasing column order, none of them
    zero, and the dense rows they stand for. */
module SparseRows {
  import opened Lists

  datatype Cell = Cell(col: int, val: real)

  /** The value in column j; zero where there is no cell. */
  function Lookup(r: seq<Cell>, j: int): (x: real) {
    if r == [] then 0.0 else if r[0].col == j then r[0].val else Lookup(r[1..], j)
  }

  /** The columns rise and stay in 1 .. n, and no cell is zero. */
  ghost predicate Canonical(r: seq<Cell>, n: int) {
    && (forall k, l :: 0 <= k < l < |r| ==> r[k].col < r[l].col)
    && (forall k :: 0 <= k < |r| ==> 1 <= r[k].col <= n && r[k].val != 0.0)
  }

  lemma {:induction false} LookupAbsent(r: seq<Cell>, j: int)
    requires forall k :: 0 <= k < |r| ==> r[k].col != j
    ensures Lookup(r, j) == 0.0
  {
    if r != [] {
      LookupAbsent(r[1..], j);
    }
  }

  lemma {:induction false} LookupPresent(r: seq<Cell>, n: int, k: int)
    requires Canonical(r, n) && 0 <= k < |r|
    ensures Lookup(r, r[k].col) == r[k].val
  {
    if k > 0 {
      LookupPresent(r[1..], n, k - 1);
    }
  }

  /** A column has a cell exactly if its value is not zero. */
  lemma {:induction false} LookupFinds(r: seq<Cell>, n: int, j: int) returns (k: int)
    requires Canonical(r, n) && Lookup(r, j) != 0.0
    ensures 0 <= k < |r| && r[k].col == j
  {
    if r[0].col == j {
      k := 0;
    } else {
      k := LookupFinds(r[1..], n, j);
      k := k + 1;
    }
  }

  lemma LookupAppend(r: seq<Cell>, c: Cell, n: int, j: int)
    requires Canonical(r + [c], n)
    ensures Canonical(r, n)
    ensures Lookup(r + [c], j) == if j == c.col then c.val else Lookup(r, j)
  {
    var s := r + [c];
    assert forall k :: 0 <= k < |r| ==> r[k] == s[k];
    assert s[|r|] == c;
    if j == c.col {
      LookupPresent(s, n, |r|);
    } else if k :| 0 <= k < |r| && r[k].col == j {
      LookupPresent(r, n, k);
      LookupPresent(s, n, k);
    } else {
      LookupAbsent(r, j);
      LookupAbsent(s, j);
    }
  }

  lemma LookupTail(r: seq<Cell>, n: int, j: int)
    requires Canonical(r, n) && r != []
    ensures Canonical(r[1..], n)
    ensures Lookup(r[1..], j) == if j == r[0].col then 0.0 else Lookup(r, j)
  {
    if j == r[0].col {
      LookupAbsent(r[1..], j);
    }
  }

  /** A dense row has one canonical form. */
  lemma {:induction false} CanonicalUnique(r: seq<Cell>, s: seq<Cell>, n: int)
    requires Canonical(r, n) && Canonical(s, n)
    requires forall j :: 1 <= j <= n ==> Lookup(r, j) == Lookup(s, j)
    ensures r == s
  {
    if r != [] && s != [] {
      HeadsAgree(r, s, n);
      forall j | 1 <= j <= n ensures Lookup(r[1..], j) == Lookup(s[1..], j) {
        LookupTail(r, n, j);
        LookupTail(s, n, j);
      }
      CanonicalUnique(r[1..], s[1..], n);
      assert r == [r[0]] + r[1..] && s == [s[0]] + s[1..];
    } else if r != [] {
      assert Lookup(r, r[0].col) != 0.0;
    } else if s != [] {
      assert Lookup(s, s[0].col) != 0.0;
    }
  }

  lemma HeadsAgree(r: seq<Cell>, s: seq<Cell>, n: int)
    requires Canonical(r, n) && Canonical(s, n) && r != [] && s != []
    requires forall j :: 1 <= j <= n ==> Lookup(r, j) == Lookup(s, j)
    ensures r[0] == s[0]
  {
    assert Lookup(r, r[0].col) == Lookup(s, r[0].col) && Lookup(s, s[0].col) == Lookup(r, s[0].col);
    var k := LookupFinds(s, n, r[0].col);
    var l := LookupFinds(r, n, s[0].col);
  }

  // changeEntry on a row

  /** The walk of changeEntry: stops at column j, or before the first column above. */
  function SetCell(r: seq<Cell>, j: int, x: real): (s: seq<Cell>) {
    if r == [] || j < r[0].col then (if x != 0.0 then [Cell(j, x)] + r else r)
    else if r[0].col == j then (if x != 0.0 then [Cell(j, x)] + r[1..] else r[1..])
    else [r[0]] + SetCell(r[1..], j, x)
  }

  /** The first k columns are below j. */
  ghost predicate Below(r: seq<Cell>, j: int, k: int) {
    0 <= k <= |r| && forall m :: 0 <= m < k ==> r[m].col < j
  }

  /** What changeEntry makes of a row, when its walk stops at position k. */
  function ChangeAt(r: seq<Cell>, j: int, x: real, k: int): seq<Cell>
    requires 0 <= k <= |r|
  {
    if k < |r| && r[k].col == j then (if x != 0.0 then r[k := Cell(j, x)] else RemoveAt(r, k))
    else (if x != 0.0 then InsertAt(r, k, Cell(j, x)) else r)
  }

  lemma ChangeTail(r: seq<Cell>, j: int, x: real, k: int)
    requires 0 < k <= |r|
    ensures ChangeAt(r, j, x, k) == [r[0]] + ChangeAt(r[1..], j, x, k - 1)
  {
    if k < |r| && r[k].col == j {
      assert x != 0.0 ==> r[k := Cell(j, x)] == [r[0]] + r[1..][k - 1 := Cell(j, x)];
      assert RemoveAt(r, k) == [r[0]] + RemoveAt(r[1..], k - 1);
    } else {
      assert InsertAt(r, k, Cell(j, x)) == [r[0]] + InsertAt(r[1..], k - 1, Cell(j, x));
    }
  }

  lemma {:induction false} SetCellAt(r: seq<Cell>, j: int, x: real, k: int)
    requires Below(r, j, k) && (k < |r| ==> j <= r[k].col)
    ensures SetCell(r, j, x) == ChangeAt(r, j, x, k)
  {
    if k > 0 {
      SetCellAt(r[1..], j, x, k - 1);
      ChangeTail(r, j, x, k);
    }
  }

  lemma CanonicalCons(c: Cell, r: seq<Cell>, n: int)
    requires Canonical(r, n) && 1 <= c.col <= n && c.val != 0.0 && (r != [] ==> c.col < r[0].col)
    ensures Canonical([c] + r, n)
  {
    var s := [c] + r;
    assert forall k :: 1 <= k < |s| ==> s[k] == r[k - 1];
  }

  lemma CanonicalTail(r: seq<Cell>, n: int)
    requires Canonical(r, n) && r != []
    ensures Canonical(r[1..], n) && (|r| > 1 ==> r[0].col < r[1..][0].col)
  {
    assert forall k :: 0 <= k < |r| - 1 ==> r[1..][k] == r[k + 1];
  }

  lemma LookupBefore(r: seq<Cell>, n: int, j: int)
    requires Canonical(r, n) && (r != [] ==> j < r[0].col)
    ensures Lookup(r, j) == 0.0
  {
    LookupAbsent(r, j);
  }

  /** changeEntry sets column j and nothing else, and keeps the form. */
  lemma {:induction false} SetCellSets(r: seq<Cell>, n: int, j: int, x: real, i: int)
    requires Canonical(r, n) && 1 <= j <= n
    ensures Canonical(SetCell(r, j, x), n)
    ensures Lookup(SetCell(r, j, x), i) == if i == j then x else Lookup(r, i)
    ensures SetCell(r, j, x) != [] && r != [] ==> SetCell(r, j, x)[0].col >= if j < r[0].col then j else r[0].col
    ensures SetCell(r, j, x) != [] && r == [] ==> SetCell(r, j, x)[0].col == j
  {
    if r == [] || j < r[0].col {
      LookupBefore(r, n, j);
      if x != 0.0 {
        CanonicalCons(Cell(j, x), r, n);
      }
    } else {
      CanonicalTail(r, n);
      var t := r[1..];
      if r[0].col == j {
        LookupBefore(t, n, j);
        if x != 0.0 {
          CanonicalCons(Cell(j, x), t, n);
        }
      } else {
        SetCellSets(t, n, j, x, i);
        CanonicalCons(r[0], SetCell(t, j, x), n);
      }
    }
  }

  // scalarMult on a row

  function Scaled(r: seq<Cell>, x: real): (s: seq<Cell>)
    ensures |s| == |r|
    ensures forall k :: 0 <= k < |r| ==> s[k] == Cell(r[k].col, r[k].val * x)
  {
    seq(|r|, k requires 0 <= k < |r| => Cell(r[k].col, r[k].val * x))
  }

  lemma NonZeroProduct(a: real, b: real)
    requires a != 0.0 && b != 0.0
    ensures a * b != 0.0
  {
    assert a * b / b == a;
  }

  lemma ScaledCanonical(r: seq<Cell>, n: int, x: real)
    requires Canonical(r, n) && x != 0.0
    ensures Canonical(Scaled(r, x), n)
  {
    forall k | 0 <= k < |r| ensures Scaled(r, x)[k].val != 0.0 {
      NonZeroProduct(r[k].val, x);
    }
  }

  lemma {:induction false} ScaledScales(r: seq<Cell>, x: real, j: int)
    ensures Lookup(Scaled(r, x), j) == Lookup(r, j) * x
  {
    if r != [] {
      var s, t := Scaled(r, x), Scaled(r[1..], x);
      assert forall k :: 0 <= k < |t| ==> t[k] == s[k + 1];
      assert s[1..] == t;
      ScaledScales(r[1..], x, j);
    }
  }
}
