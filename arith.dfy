/** Facts about integer division that the decoder, the fade and the
    rasterizer share. Dafny's `/` is Euclidean, which for a positive divisor
    is Python's floor division `//` and `math.floor` of the exact quotient. */
module Arith {

  /** Floor division of naturals, as Python's `//` on non-negative operands.
      Kept as a function of its own so that the division's facts are not
      mixed with its operands' definitions. */
  function Quotient(a: nat, b: nat): nat
    requires b > 0
  {
    a / b
  }

  /** ceil(a / b): how many `b`-sized pieces `a` items make when the last may be short. */
  function CeilDiv(a: nat, b: nat): nat
    requires b > 0
  {
    (a + b - 1) / b
  }

  /** The quotient and remainder of Euclidean division are unique. */
  lemma DivModUnique(a: int, d: int, q: int, r: int)
    requires d > 0 && a == d * q + r && 0 <= r < d
    ensures a / d == q && a % d == r
  {
    var q0 := a / d;
    var r0 := a % d;
    assert d * (q - q0) == r0 - r by {
      assert d * (q - q0) == d * q - d * q0;
    }
    if q > q0 {
      MulAtLeast(d, q - q0);
    } else if q < q0 {
      MulAtLeast(d, q0 - q);
    }
  }

  lemma MulAtLeast(d: int, k: int)
    requires d > 0 && k >= 1
    ensures d * k >= d
  {
    assert d * k == d + d * (k - 1);
  }

  /** The floor of a / d is the q with q*d <= a < (q+1)*d. */
  lemma FloorDivBetween(a: int, d: int, q: int)
    requires d > 0 && d * q <= a < d * q + d
    ensures a / d == q
  {
    DivModUnique(a, d, q, a - d * q);
  }

  lemma CeilDivZero(b: nat)
    requires b > 0
    ensures CeilDiv(0, b) == 0
  {
    FloorDivBetween(b - 1, b, 0);
  }

  lemma CeilDivOne(a: nat, b: nat)
    requires b > 0 && 0 < a <= b
    ensures CeilDiv(a, b) == 1
  {
    FloorDivBetween(a + b - 1, b, 1);
  }

  /** One more full piece adds one to the count. */
  lemma CeilDivStep(a: nat, b: nat)
    requires b > 0
    ensures CeilDiv(a + b, b) == CeilDiv(a, b) + 1
  {
    var q := (a + b - 1) / b;
    var r := (a + b - 1) % b;
    assert a + b - 1 == b * q + r;
    assert a + b + b - 1 == b * (q + 1) + r by {
      assert b * (q + 1) == b * q + b;
    }
    DivModUnique(a + b + b - 1, b, q + 1, r);
  }

  /** Multiplication by a non-negative factor keeps order. */
  lemma MulMonotone(a: int, b: int, c: int)
    requires a <= b && c >= 0
    ensures a * c <= b * c
  {
    assert b * c - a * c == (b - a) * c;
  }

  /** Cancelling a positive factor keeps order. */
  lemma MulCancel(a: int, b: int, d: int)
    requires d > 0 && a * d <= b * d
    ensures a <= b
  {
    if a > b {
      MulAtLeast(d, a - b);
    }
  }

  lemma MulCancelStrict(a: int, b: int, d: int)
    requires d > 0 && a * d < b * d
    ensures a < b
  {
    if a >= b {
      MulMonotone(b, a, d);
    }
  }

  /** The defining bounds of floor division: q*d <= a < q*d + d. */
  lemma DivBounds(a: int, d: int)
    requires d > 0
    ensures (a / d) * d <= a < (a / d) * d + d
  {
  }

  /** floor(c * num / den) for a weight num/den in [0, 1] lies between 0 and c. */
  lemma ScaledTowardZero(c: int, num: int, den: int)
    requires den > 0 && 0 <= num <= den
    ensures c >= 0 ==> 0 <= (c * num) / den <= c
    ensures c <= 0 ==> c <= (c * num) / den <= 0
  {
    if c >= 0 {
      ScaledNonNegative(c, num, den);
    } else {
      ScaledNegative(c, num, den);
    }
  }

  lemma ScaledNonNegative(c: int, num: int, den: int)
    requires den > 0 && 0 <= num <= den && c >= 0
    ensures 0 <= (c * num) / den <= c
  {
    var a := c * num;
    var q := a / den;
    DivBounds(a, den);
    MulMonotone(num, den, c);
    assert a <= den * c;
    MulCancel(q, c, den);
    MulMonotone(0, num, c);
    assert 0 <= a;
    assert 0 * den < (q + 1) * den by {
      assert (q + 1) * den == q * den + den;
    }
    MulCancelStrict(0, q + 1, den);
  }

  lemma ScaledNegative(c: int, num: int, den: int)
    requires den > 0 && 0 <= num <= den && c < 0
    ensures c <= (c * num) / den <= 0
  {
    var a := c * num;
    var q := a / den;
    DivBounds(a, den);
    MulMonotone(0, num, -c);
    assert a <= 0;
    assert q * den <= 0 * den;
    MulCancel(q, 0, den);
    MulMonotone(num, den, -c);
    assert c * den <= a;
    assert c * den < (q + 1) * den by {
      assert (q + 1) * den == q * den + den;
    }
    MulCancelStrict(c, q + 1, den);
  }

  /** Multiplying by d and dividing by d again gives back c. */
  lemma MulDivCancel(c: int, d: int)
    requires d > 0
    ensures (c * d) / d == c
  {
    DivModUnique(c * d, d, c, 0);
  }

  /** Floor division by a positive divisor keeps order. */
  lemma DivMonotone(a: int, b: int, d: int)
    requires d > 0 && a <= b
    ensures a / d <= b / d
  {
    DivBounds(a, d);
    DivBounds(b, d);
    assert (a / d) * d < (b / d + 1) * d by {
      assert (b / d + 1) * d == (b / d) * d + d;
    }
    MulCancelStrict(a / d, b / d + 1, d);
  }

  /** Adding the divisor adds one to the quotient. */
  lemma DivAddDivisor(a: int, d: int)
    requires d > 0
    ensures (a + d) / d == a / d + 1
  {
    DivBounds(a, d);
    assert a + d == d * (a / d + 1) + a % d;
    DivModUnique(a + d, d, a / d + 1, a % d);
  }
}
