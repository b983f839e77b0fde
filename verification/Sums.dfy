/** Finite sums over 1 .. n. */
module Sums {

  ghost function Total(f: int -> real, n: nat): real {
    if n == 0 then 0.0 else Total(f, n - 1) + f(n)
  }

  lemma {:induction false} TotalSame(f: int -> real, g: int -> real, n: nat)
    requires forall k :: 1 <= k <= n ==> f(k) == g(k)
    ensures Total(f, n) == Total(g, n)
  {
    if n > 0 {
      TotalSame(f, g, n - 1);
    }
  }

  lemma {:induction false} TotalZero(f: int -> real, n: nat)
    requires forall k :: 1 <= k <= n ==> f(k) == 0.0
    ensures Total(f, n) == 0.0
  {
    if n > 0 {
      TotalZero(f, n - 1);
    }
  }

  lemma {:induction false} TotalAdd(f: int -> real, g: int -> real, h: int -> real, n: nat)
    requires forall k :: 1 <= k <= n ==> h(k) == f(k) + g(k)
    ensures Total(h, n) == Total(f, n) + Total(g, n)
  {
    if n > 0 {
      TotalAdd(f, g, h, n - 1);
    }
  }

  lemma {:induction false} TotalScale(f: int -> real, h: int -> real, x: real, n: nat)
    requires forall k :: 1 <= k <= n ==> h(k) == x * f(k)
    ensures Total(h, n) == x * Total(f, n)
  {
    if n > 0 {
      TotalScale(f, h, x, n - 1);
      assert x * (Total(f, n - 1) + f(n)) == x * Total(f, n - 1) + x * f(n);
    }
  }

  /** Two sums that differ in one term. */
  lemma {:induction false} TotalPoint(f: int -> real, g: int -> real, n: nat, k: int)
    requires 1 <= k <= n && forall i :: 1 <= i <= n && i != k ==> f(i) == g(i)
    ensures Total(g, n) == Total(f, n) - f(k) + g(k)
  {
    if k == n {
      TotalSame(f, g, n - 1);
    } else {
      TotalPoint(f, g, n - 1, k);
    }
  }

  function Along(f: (int, int) -> real, i: int): int -> real {
    j => f(i, j)
  }

  function Flip(f: (int, int) -> real): (int, int) -> real {
    (j, i) => f(i, j)
  }

  ghost function Inner(f: (int, int) -> real, n: nat): int -> real {
    i => Total(Along(f, i), n)
  }

  /** The order of summation does not matter. */
  lemma {:induction false} Interchange(f: (int, int) -> real, m: nat, n: nat)
    ensures Total(Inner(f, n), m) == Total(Inner(Flip(f), m), n)
  {
    if m == 0 {
      TotalZero(Inner(Flip(f), 0), n);
    } else {
      Interchange(f, m - 1, n);
      TotalAdd(Inner(Flip(f), m - 1), Along(f, m), Inner(Flip(f), m), n);
    }
  }
}
