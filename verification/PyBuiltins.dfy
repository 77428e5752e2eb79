/** The Python built-ins the modelled detector code relies on, with Python's own rounding and indexing. */
module PyBuiltins {
  import opened Wrappers

  /** `int(a / b)` for a positive divisor: true division, then truncation toward zero. */
  function TruncDiv(a: int, b: int): (q: int)
    requires b > 0
    ensures a >= 0 ==> q == a / b
    ensures a < 0 ==> q == -((-a) / b)
  {
    if a >= 0 then a / b else -((-a) / b)
  }

  /** `int(x)` of a float: truncation toward zero. */
  function Trunc(x: real): (n: int)
    ensures x >= 0.0 ==> n as real <= x < n as real + 1.0
    ensures x < 0.0 ==> n as real - 1.0 < x <= n as real
  {
    if x >= 0.0 then x.Floor else -((-x).Floor)
  }

  /** `xs[i]`: a negative index counts from the end; anything outside `-len..len-1` raises `IndexError`. */
  function Index<T>(xs: seq<T>, i: int): (r: Result<T, PyError>)
    ensures r.Success? <==> -|xs| <= i < |xs|
    ensures 0 <= i < |xs| ==> r == Success(xs[i])
    ensures -|xs| <= i < 0 ==> r == Success(xs[|xs| + i])
  {
    if 0 <= i < |xs| then Success(xs[i])
    else if -|xs| <= i < 0 then Success(xs[|xs| + i])
    else Failure(IndexError)
  }

  /** `a, b = xs`: exactly two items unpack; more or fewer raise `ValueError`. */
  function UnpackPair<T>(xs: seq<T>): (r: Result<(T, T), PyError>)
    ensures r.Success? <==> |xs| == 2
    ensures r.Success? ==> r.value == (xs[0], xs[1])
    ensures |xs| > 2 ==> r == Failure(ValueError("too many values to unpack (expected 2)"))
    ensures |xs| < 2 ==> r.Failure? && r.error.ValueError?
  {
    if |xs| == 2 then Success((xs[0], xs[1]))
    else if |xs| > 2 then Failure(ValueError("too many values to unpack (expected 2)"))
    else if |xs| == 1 then Failure(ValueError("not enough values to unpack (expected 2, got 1)"))
    else Failure(ValueError("not enough values to unpack (expected 2, got 0)"))
  }

  function Min(a: int, b: int): int { if a <= b then a else b }

  function Max(a: int, b: int): int { if a >= b then a else b }
}
