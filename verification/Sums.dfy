/** Finite sums over sequences, powers of two and Fibonacci numbers. */
module Sums {

  function Sum(s: seq<int>): int {
    if s == [] then 0 else Sum(s[..|s| - 1]) + s[|s| - 1]
  }

  function Pow2(n: nat): (p: nat)
    ensures p >= 1
  {
    if n == 0 then 1 else 2 * Pow2(n - 1)
  }

  /** Fib(1) == Fib(2) == 1. */
  function Fib(n: nat): nat {
    if n < 2 then n else Fib(n - 1) + Fib(n - 2)
  }

  lemma {:induction false} SumAppend(s: seq<int>, x: int)
    ensures Sum(s + [x]) == Sum(s) + x
  {
    assert (s + [x])[..|s|] == s;
  }

  lemma {:induction false} SumConcat(s: seq<int>, t: seq<int>)
    ensures Sum(s + t) == Sum(s) + Sum(t)
  {
    if t == [] {
      assert s + t == s;
    } else {
      assert (s + t)[..|s + t| - 1] == s + t[..|t| - 1];
      SumConcat(s, t[..|t| - 1]);
    }
  }

  lemma {:induction false} SumUpdate(s: seq<int>, i: nat, x: int)
    requires i < |s|
    ensures Sum(s[i := x]) == Sum(s) - s[i] + x
  {
    var n := |s| - 1;
    if i == n {
      assert s[i := x][..n] == s[..n];
    } else {
      SumUpdate(s[..n], i, x);
      assert s[i := x][..n] == s[..n][i := x];
    }
  }

  lemma SumUpdateTwo(s: seq<int>, i: nat, x: int, j: nat, y: int)
    requires i < |s| && j < |s| && i != j
    ensures Sum(s[i := x][j := y]) == Sum(s) - s[i] + x - s[j] + y
  {
    SumUpdate(s, i, x);
    SumUpdate(s[i := x], j, y);
  }

  lemma {:induction false} SumMonotone(s: seq<int>, t: seq<int>)
    requires |s| == |t|
    requires forall i :: 0 <= i < |s| ==> s[i] <= t[i]
    ensures Sum(s) <= Sum(t)
  {
    if s != [] {
      var n := |s| - 1;
      SumMonotone(s[..n], t[..n]);
    }
  }

  lemma {:induction false} SumScale(s: seq<int>, t: seq<int>, c: int)
    requires |s| == |t|
    requires forall i :: 0 <= i < |s| ==> s[i] == c * t[i]
    ensures Sum(s) == c * Sum(t)
  {
    if s != [] {
      var n := |s| - 1;
      SumScale(s[..n], t[..n], c);
    }
  }

  lemma {:induction false} SumPointwise(s: seq<int>, t: seq<int>, u: seq<int>)
    requires |s| == |t| == |u|
    requires forall i :: 0 <= i < |s| ==> s[i] == t[i] + u[i]
    ensures Sum(s) == Sum(t) + Sum(u)
  {
    if s != [] {
      var n := |s| - 1;
      SumPointwise(s[..n], t[..n], u[..n]);
    }
  }

  lemma {:induction false} SumZero(s: seq<int>)
    requires forall i :: 0 <= i < |s| ==> s[i] == 0
    ensures Sum(s) == 0
  {
    if s != [] {
      SumZero(s[..|s| - 1]);
    }
  }

  lemma {:induction false} SumEven(s: seq<int>)
    requires forall i :: 0 <= i < |s| ==> s[i] % 2 == 0
    ensures Sum(s) % 2 == 0
  {
    if s != [] {
      SumEven(s[..|s| - 1]);
    }
  }

  /** In a sum of non-negative terms no term, and no two terms, exceed the total. */
  lemma {:induction false} SumAtLeastTwo(s: seq<int>, i: nat, j: nat)
    requires forall k :: 0 <= k < |s| ==> s[k] >= 0
    requires i < |s| && j < |s| && i != j
    ensures Sum(s) >= s[i] + s[j]
  {
    var z := seq(|s|, _ => 0);
    SumZero(z);
    SumUpdate(z, i, s[i]);
    SumUpdate(z[i := s[i]], j, s[j]);
    SumMonotone(z[i := s[i]][j := s[j]], s);
  }

  lemma {:induction false} SumAtLeast(s: seq<int>, i: nat)
    requires forall k :: 0 <= k < |s| ==> s[k] >= 0
    requires i < |s|
    ensures Sum(s) >= s[i]
  {
    var z := seq(|s|, _ => 0);
    SumZero(z);
    SumUpdate(z, i, s[i]);
    SumMonotone(z[i := s[i]], s);
  }

  lemma {:induction false} FibMonotone(m: nat, n: nat)
    requires m <= n
    ensures Fib(m) <= Fib(n)
  {
    if m < n {
      FibMonotone(m, n - 1);
    }
  }

  /** Fib(25) == 75025, the first Fibonacci number above any total weight of a 4XM table. */
  lemma Fib25()
    ensures Fib(25) == 75025
  {
    assert Fib(8) == 21 && Fib(9) == 34;
    assert Fib(10) == 55 && Fib(11) == 89;
    assert Fib(12) == 144 && Fib(13) == 233;
    assert Fib(14) == 377 && Fib(15) == 610;
    assert Fib(16) == 987 && Fib(17) == 1597;
    assert Fib(18) == 2584 && Fib(19) == 4181;
    assert Fib(20) == 6765 && Fib(21) == 10946;
    assert Fib(22) == 17711 && Fib(23) == 28657;
    assert Fib(24) == 46368;
  }

  lemma {:induction false} Pow2Monotone(m: nat, n: nat)
    requires m <= n
    ensures Pow2(m) <= Pow2(n)
  {
    if m < n {
      Pow2Monotone(m, n - 1);
    }
  }
}
