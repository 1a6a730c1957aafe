/** Go's integer division and remainder, which truncate toward zero.

    Dafny's `/` and `%` are Euclidean: for a positive divisor they round
    toward minus infinity. The toolkit divides possibly negative second counts
    (`DiffInMinutes`, `DiffInHours`, `DiffInDays`, `DiffFiltered`) and takes
    the remainder of possibly negative years (`StartOfCentury`), so those Go
    operators are written out here for the positive divisors the toolkit uses. */
module GoInt {

  /** Go's `a / b` for a positive divisor: the quotient truncated toward zero. */
  function TruncDiv(a: int, b: int): (q: int)
    requires b > 0
    ensures a >= 0 ==> 0 <= q && b * q <= a < b * q + b
    ensures a < 0 ==> q <= 0 && b * q - b < a <= b * q
  {
    if a >= 0 then
      FloorDivBounds(a, b);
      a / b
    else
      FloorDivBounds(-a, b);
      assert b * -((-a) / b) == -(b * ((-a) / b));
      -((-a) / b)
  }

  lemma FloorDivBounds(x: int, b: int)
    requires x >= 0 && b > 0
    ensures 0 <= x / b && b * (x / b) <= x < b * (x / b) + b
  {
  }

  /** Go's `a % b` for a positive divisor: the remainder takes the sign of `a`. */
  function TruncRem(a: int, b: int): (r: int)
    requires b > 0
    ensures a == b * TruncDiv(a, b) + r
    ensures a >= 0 ==> 0 <= r < b
    ensures a < 0 ==> -b < r <= 0
  {
    a - b * TruncDiv(a, b)
  }

  lemma MulMonotone(b: int, x: int, y: int)
    requires b > 0 && x <= y
    ensures b * x <= b * y
  {
    assert b * y - b * x == b * (y - x);
  }

  /** Euclidean division by `d` has one answer: the `q` with `d * q <= x < d * q + d`. */
  lemma DivUnique(x: int, d: int, q: int, r: int)
    requires d > 0 && x == d * q + r && 0 <= r < d
    ensures x / d == q
  {
    var p := x / d;
    assert x == d * p + x % d;
    if p < q {
      MulMonotone(d, p + 1, q);
    } else if q < p {
      MulMonotone(d, q + 1, p);
    }
  }

  lemma FloorDivNested(x: int, b: int, c: int)
    requires x >= 0 && b > 0 && c > 0
    ensures b * c > 0 && (x / b) / c == x / (b * c)
  {
    var q1, r1 := x / b, x % b;
    var q2, r2 := q1 / c, q1 % c;
    var d := b * c;
    assert d > 0 by { MulMonotone(b, 1, c); }
    assert b * q1 == d * q2 + b * r2 by {
      assert q1 == c * q2 + r2;
      calc {
        b * q1;
        b * (c * q2 + r2);
        (b * c) * q2 + b * r2;
      }
    }
    assert 0 <= b * r2 <= b * (c - 1) by { MulMonotone(b, 0, r2); MulMonotone(b, r2, c - 1); }
    assert b * (c - 1) == d - b;
    DivUnique(x, d, q2, b * r2 + r1);
  }

  /** Truncating by `b` and then by `c` is truncating by `b * c`: this is what
      makes the chain `/ 60`, `/ 60`, `/ 24` of `DiffInDays` a division by 86400. */
  lemma TruncDivNested(a: int, b: int, c: int)
    requires b > 0 && c > 0
    ensures b * c > 0
    ensures TruncDiv(TruncDiv(a, b), c) == TruncDiv(a, b * c)
  {
    if a >= 0 {
      FloorDivNested(a, b, c);
    } else {
      FloorDivNested(-a, b, c);
      assert TruncDiv(a, b) == -TruncDiv(-a, b);
    }
  }

  /** Truncating division commutes with negation (floor division does not). */
  lemma TruncDivNegate(a: int, b: int)
    requires b > 0
    ensures TruncDiv(-a, b) == -TruncDiv(a, b)
  {
  }
}
