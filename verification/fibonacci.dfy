/** The recursive `fib` of better_crypto.py and an iterative evaluation of it. */
module Fibonacci {

  /** `fib(num)`: `num` itself whenever `num < 2` (negative arguments included),
      otherwise the sum of the two preceding values. */
  function Fib(n: int): int
    decreases if n < 2 then 0 else n
  {
    if n < 2 then n else Fib(n - 1) + Fib(n - 2)
  }

  /** On natural arguments the sequence never goes negative. */
  lemma {:induction false} FibNonNegative(n: int)
    requires n >= 0
    ensures Fib(n) >= 0
  {
    if n >= 2 {
      FibNonNegative(n - 1);
      FibNonNegative(n - 2);
    }
  }

  /** On natural arguments the sequence is non-decreasing. */
  lemma {:induction false} FibMonotone(n: int)
    requires n >= 0
    ensures Fib(n) <= Fib(n + 1)
  {
    if n >= 1 {
      FibNonNegative(n - 1);
    }
  }

  /** The addition law: `fib(m + n + 1) = fib(m + 1)·fib(n + 1) + fib(m)·fib(n)`
      for natural `m` and `n`. */
  lemma {:induction false} FibAddition(m: int, n: int)
    requires m >= 0 && n >= 0
    ensures Fib(m + n + 1) == Fib(m + 1) * Fib(n + 1) + Fib(m) * Fib(n)
    decreases n
  {
    if n >= 2 {
      FibAddition(m, n - 1);
      FibAddition(m, n - 2);
      AdditionStep(Fib(m + n - 1), Fib(m + n), Fib(m + n + 1), Fib(m + 1), Fib(m),
                   Fib(n - 2), Fib(n - 1), Fib(n), Fib(n + 1));
    } else if n == 1 {
      assert Fib(m + 2) == Fib(m + 1) + Fib(m);
      assert Fib(2) == 1 && Fib(1) == 1;
    } else {
      assert Fib(1) == 1 && Fib(0) == 0;
    }
  }

  /** The inductive step of the addition law, on the values involved: the two
      previous instances and the recurrence at `m + n + 1`, `n + 1` and `n`. */
  lemma AdditionStep(prev: int, cur: int, next: int, hi: int, lo: int, x0: int, x1: int, x2: int, x3: int)
    requires cur == hi * x2 + lo * x1
    requires prev == hi * x1 + lo * x0
    requires next == cur + prev && x3 == x2 + x1 && x2 == x1 + x0
    ensures next == hi * x3 + lo * x2
  {
  }

  /** Two-accumulator loop: linear time, same value as the recursive definition. */
  method FibIterative(n: int) returns (r: int)
    ensures r == Fib(n)
  {
    if n < 2 {
      return n;
    }
    var prev, cur := 0, 1;
    var i := 1;
    while i < n
      invariant 1 <= i <= n
      invariant prev == Fib(i - 1) && cur == Fib(i)
    {
      prev, cur := cur, prev + cur;
      i := i + 1;
    }
    r := cur;
  }
}
