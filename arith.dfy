/** Facts about integer division by a positive constant that the solver does
    not find on its own. Division here is floor division, which for a
    positive divisor is the same in the library's language and in Dafny. */
module Arith {

  lemma {:induction false} MulAtLeast(k: int, b: int)
    requires k >= 1 && b > 0
    ensures k * b >= b
    decreases k
  {
    if k > 1 {
      MulAtLeast(k - 1, b);
      assert k * b == (k - 1) * b + b;
    }
  }

  /** Quotient and remainder are the unique pair with `x == q * b + r`, `0 <= r < b`. */
  lemma DivModOf(x: int, q: int, r: int, b: int)
    requires b > 0 && 0 <= r < b && x == q * b + r
    ensures x / b == q && x % b == r
  {
    var q', r' := x / b, x % b;
    if q' > q {
      assert (q' - q) * b == r - r';
      MulAtLeast(q' - q, b);
    } else if q' < q {
      assert (q - q') * b == r' - r;
      MulAtLeast(q - q', b);
    }
  }

  /** Going from `x` to `x + 1` raises the quotient by one exactly when
      `x + 1` is a multiple of `b`. */
  lemma DivStep(x: int, b: int)
    requires b > 0
    ensures (x + 1) / b == x / b + (if (x + 1) % b == 0 then 1 else 0)
  {
    var q, r := x / b, x % b;
    if r == b - 1 {
      DivModOf(x + 1, q + 1, 0, b);
    } else {
      DivModOf(x + 1, q, r + 1, b);
    }
  }

  /** A multiple of 400 is a multiple of 100, and a multiple of 100 a multiple of 4. */
  lemma Multiples(y: int)
    ensures y % 400 == 0 ==> y % 100 == 0
    ensures y % 100 == 0 ==> y % 4 == 0
  {
    if y % 400 == 0 {
      DivModOf(y, y / 400 * 4, 0, 100);
    }
    if y % 100 == 0 {
      DivModOf(y, y / 100 * 25, 0, 4);
    }
  }
}
