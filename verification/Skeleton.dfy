/** The template's example function `fib`. */
module Skeleton {
  import opened Wrappers

  /** The Fibonacci numbers, numbered from 1: F(1) = F(2) = 1 and
      F(k + 2) = F(k + 1) + F(k). */
  function Fibonacci(n: nat): nat
    requires n >= 1
  {
    if n <= 2 then 1 else Fibonacci(n - 1) + Fibonacci(n - 2)
  }

  /** `fib(n)`: fails its assertion unless `n > 0` (the `None` result), then
      steps the pair (a, b) = (1, 1) forward n - 1 times and returns `a`. */
  method Fib(n: int) returns (r: Option<nat>)
    ensures n <= 0 ==> r == None
    ensures n > 0 ==> r == Some(Fibonacci(n))
  {
    if n <= 0 {
      return None;
    }
    var a, b := 1, 1;
    for i := 0 to n - 1
      invariant a == Fibonacci(i + 1) && b == Fibonacci(i + 2)
    {
      a, b := b, a + b;
    }
    return Some(a);
  }

  /** The values the template's test asserts. */
  lemma FibTestValues()
    ensures Fibonacci(1) == 1 && Fibonacci(2) == 1 && Fibonacci(7) == 13
  {
  }
}
