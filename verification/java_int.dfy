/** Java's integer division and remainder on `int`.  Dafny's `/` and `%` are
    Euclidean; Java's round the quotient toward zero and give the remainder the
    sign of the dividend. */
module JavaInt {

  function Abs(x: int): nat {
    if x < 0 then -x else x
  }

  /** `a / b` in Java. */
  function Div(a: int, b: int): int
    requires b != 0
  {
    var q := Abs(a) / Abs(b);
    if (a < 0) == (b < 0) then q else -q
  }

  /** `a % b` in Java. */
  function Rem(a: int, b: int): int
    requires b != 0
  {
    a - Div(a, b) * b
  }

  lemma EuclidBracket(x: nat, y: nat)
    requires 0 < y
    ensures (x / y) * y <= x < (x / y + 1) * y
  {
    assert x == (x / y) * y + x % y;
    assert (x / y + 1) * y == (x / y) * y + y;
  }

  /** On a non-negative dividend and a positive divisor Java agrees with Dafny. */
  lemma NonNegativeAgrees(a: int, b: int)
    requires 0 <= a && 0 < b
    ensures Div(a, b) == a / b && Rem(a, b) == a % b
  {
  }
}
