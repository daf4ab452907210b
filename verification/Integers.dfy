/** Integer arithmetic of the implementation language. */
module Integers {
  /** Division truncates towards zero. */
  function Quotient(a: int, b: nat): int
    requires b > 0
  {
    if a >= 0 then a / b else -(-a / b)
  }

  function Remainder(a: int, b: nat): int
    requires b > 0
  {
    a - b * Quotient(a, b)
  }

  /** Division with a divisor of either sign: the result still truncates towards zero. */
  function SignedQuotient(a: int, b: int): int
    requires b != 0
  {
    if b > 0 then Quotient(a, b) else -Quotient(a, -b)
  }

  function SignedRemainder(a: int, b: int): int
    requires b != 0
  {
    a - b * SignedQuotient(a, b)
  }

  /** The quotient is the greatest in absolute value that does not exceed the exact ratio, and has its sign. */
  lemma Truncates(a: int, b: nat)
    requires b > 0
    ensures a >= 0 ==> Quotient(a, b) * b <= a < Quotient(a, b) * b + b
    ensures a <= 0 ==> Quotient(a, b) * b - b < a <= Quotient(a, b) * b
    ensures Quotient(7, 2) == 3 && Quotient(-7, 2) == -3 && SignedQuotient(7, -2) == -3 && Remainder(-7, 2) == -1
  {
    var n: nat := if a >= 0 then a else -a;
    var q := n / b;
    assert n == b * q + n % b;
    if a < 0 {
      assert (-q) * b == -(q * b);
    }
  }
}
