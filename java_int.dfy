/** Java's 32-bit `int` arithmetic: wrap-around multiplication and addition, truncating division. */
module JavaInt {

  const MinInt: int := -0x8000_0000
  const MaxInt: int := 0x7fff_ffff
  const Modulus: int := 0x1_0000_0000

  predicate InRange(x: int) {
    MinInt <= x <= MaxInt
  }

  /** The `int` value Java keeps of the mathematical result `x`. */
  function Wrap(x: int): (r: int)
    ensures InRange(r)
    ensures (x - r) % Modulus == 0
    ensures InRange(x) ==> r == x
  {
    var m := x % Modulus;
    if m > MaxInt then m - Modulus else m
  }

  function Add(a: int, b: int): int {
    Wrap(a + b)
  }

  function Mul(a: int, b: int): int {
    Wrap(a * b)
  }

  /**
   * Java's `/` on `int` by a positive divisor: the quotient rounded toward zero,
   * so the remainder `a - q * b` has the sign of `a` (Dafny's `/` is Euclidean).
   */
  function Div(a: int, b: int): (q: int)
    requires 0 < b
    ensures a >= 0 ==> q * b <= a < q * b + b
    ensures a < 0 ==> q * b - b < a <= q * b
  {
    if a >= 0 then
      a / b
    else
      var p := (-a) / b;
      assert -a == p * b + (-a) % b;
      assert -p * b == -(p * b);
      -p
  }
}
