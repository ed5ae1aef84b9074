/** Integer division facts that the codecs need, stated over a positive divisor. */
module Arithmetic {

  function Min(a: nat, b: nat): nat {
    if a < b then a else b
  }

  /** Division rounding toward negative infinity. */
  function FloorDiv(a: int, b: nat): (q: int)
    requires b > 0
    ensures q * b <= a < q * b + b
    ensures a >= 0 ==> q >= 0
  {
    a / b
  }

  function FloorMod(a: int, b: nat): (r: nat)
    requires b > 0
    ensures r < b && a == FloorDiv(a, b) * b + r
  {
    a % b
  }

  /** Division as C++ does it, rounding toward zero. */
  function TruncDiv(a: int, b: nat): int
    requires b > 0
  {
    if a >= 0 then FloorDiv(a, b) else -FloorDiv(-a, b)
  }

  function TruncMod(a: int, b: nat): int
    requires b > 0
  {
    a - TruncDiv(a, b) * b
  }

  lemma {:induction false} MulMonotone(a: int, b: int, p: nat)
    requires a <= b
    ensures a * p <= b * p
  {
  }

  lemma {:induction false} MulDistributes(a: int, b: int, p: int)
    ensures (a + b) * p == a * p + b * p
    ensures (a - b) * p == a * p - b * p
  {
  }

  lemma {:induction false} MulMove(x: int, y: int, z: int)
    ensures x * (y * z) == y * (x * z) == x * y * z
  {
  }

  /** Quotient and remainder are unique. */
  lemma {:induction false} FloorUnique(a: int, b: nat, q: int, r: int)
    requires 0 <= r < b && a == q * b + r
    ensures FloorDiv(a, b) == q && FloorMod(a, b) == r
  {
    var q' := FloorDiv(a, b);
    MulDistributes(q', 1, b);
    MulDistributes(q, 1, b);
    if q' + 1 <= q {
      MulMonotone(q' + 1, q, b);
    } else if q + 1 <= q' {
      MulMonotone(q + 1, q', b);
    }
  }

  lemma {:induction false} FloorMonotone(x: int, y: int, b: nat)
    requires b > 0 && x <= y
    ensures FloorDiv(x, b) <= FloorDiv(y, b)
  {
    var q, q' := FloorDiv(x, b), FloorDiv(y, b);
    MulDistributes(q', 1, b);
    if q' + 1 <= q {
      MulMonotone(q' + 1, q, b);
    }
  }

  /** A quotient is below k when the dividend is below k * b. */
  lemma {:induction false} FloorBelow(x: nat, b: nat, k: nat)
    requires b > 0 && x < k * b
    ensures FloorDiv(x, b) < k
  {
    var q := FloorDiv(x, b);
    if k <= q {
      MulMonotone(k, q, b);
    }
  }

  /** A common factor cancels. */
  lemma {:induction false} FloorCancel(x: nat, k: nat, b: nat)
    requires k > 0 && b > 0
    ensures k * b > 0 && FloorDiv(x * k, k * b) == FloorDiv(x, b)
  {
    var q, r := FloorDiv(x, b), FloorMod(x, b);
    MulDistributes(q * b, r, k);
    MulMove(q, k, b);
    MulMove(q, b, k);
    MulMonotone(1, k, b);
    MulMonotone(r + 1, b, k);
    MulDistributes(r, 1, k);
    FloorUnique(x * k, k * b, q, r * k);
  }

  /** Truncation is flooring shifted by one where it leaves a negative rest. */
  lemma {:induction false} TruncIsShiftedFloor(a: int, b: nat)
    requires b > 0
    ensures TruncMod(a, b) < 0 ==> FloorDiv(a, b) == TruncDiv(a, b) - 1 && FloorMod(a, b) == TruncMod(a, b) + b
    ensures TruncMod(a, b) >= 0 ==> FloorDiv(a, b) == TruncDiv(a, b) && FloorMod(a, b) == TruncMod(a, b)
  {
    var t, m := TruncDiv(a, b), TruncMod(a, b);
    if a >= 0 {
      FloorUnique(a, b, t, m);
    } else {
      var q, r := FloorDiv(-a, b), FloorMod(-a, b);
      assert t * b == -(q * b);
      MulDistributes(t, 1, b);
      if r == 0 {
        FloorUnique(a, b, t, 0);
      } else {
        FloorUnique(a, b, t - 1, b - r);
      }
    }
  }
}
