/**
 * Fixed-point decimals of `src/domain/decimal.ts`: an unbounded integer counted
 * in units of 10^-18. Products and quotients truncate toward zero, as BigInt
 * division does, whereas Dafny's own `/` rounds toward minus infinity for a
 * positive divisor.
 */
module Decimals {
  import opened Arith

  const SCALE: nat := 18
  const ONE: int := 1_000_000_000_000_000_000

  datatype Decimal = Decimal(raw: int) {

    function Add(other: Decimal): Decimal {
      Decimal(raw + other.raw)
    }

    function Sub(other: Decimal): Decimal {
      Decimal(raw - other.raw)
    }

    function Mul(other: Decimal): Decimal {
      Decimal(TruncDiv(raw * other.raw, ONE))
    }

    /** A zero divisor answers zero instead of failing. */
    function Div(other: Decimal): Decimal {
      if other.raw == 0 then ZERO else Decimal(TruncDiv(raw * ONE, other.raw))
    }

    function Neg(): Decimal {
      Decimal(-raw)
    }

    function AbsValue(): Decimal {
      Decimal(Abs(raw))
    }

    function MinWith(other: Decimal): Decimal {
      if raw <= other.raw then this else other
    }
  }

  const ZERO: Decimal := Decimal(0)

  function Whole(n: int): Decimal {
    Decimal(n * ONE)
  }

  function TruncDiv(a: int, b: int): int
    requires b != 0
  {
    if a >= 0 then
      if b > 0 then a / b else -(a / (-b))
    else
      if b > 0 then -((-a) / b) else (-a) / (-b)
  }

  function SumDecimals(xs: seq<Decimal>): Decimal {
    if xs == [] then ZERO else SumDecimals(xs[..|xs| - 1]).Add(xs[|xs| - 1])
  }

  /**
   * Truncation is toward zero: the quotient never overshoots the dividend in
   * magnitude, falls short by less than one divisor, and keeps its sign.
   */
  lemma TruncDivIsTowardZero(a: int, b: int)
    requires b != 0
    ensures Abs(TruncDiv(a, b) * b) <= Abs(a) < Abs(TruncDiv(a, b) * b) + Abs(b)
    ensures a >= 0 ==> TruncDiv(a, b) * b >= 0
    ensures a <= 0 ==> TruncDiv(a, b) * b <= 0
  {
    var x, y := Abs(a), Abs(b);
    FloorBounds(x, y);
    FloorNonneg(x, y);
    MulSign(x / y, y);
    var q := TruncDiv(a, b);
    assert q == x / y || q == -(x / y);
    assert q * b == (x / y) * y || q * b == -((x / y) * y) by {
      assert (-(x / y)) * y == -((x / y) * y) && (x / y) * (-y) == -((x / y) * y)
          && (-(x / y)) * (-y) == (x / y) * y;
    }
    if a >= 0 && b > 0 {
    } else if a >= 0 {
      assert q * b == (-(x / y)) * (-y) == (x / y) * y;
    } else if b > 0 {
      assert q * b == (-(x / y)) * y == -((x / y) * y);
    } else {
      assert q * b == (x / y) * (-y) == -((x / y) * y);
    }
  }

  /** The bounds above determine the quotient, so they are its definition. */
  lemma TruncDivUnique(a: int, b: int, q: int)
    requires b != 0
    requires Abs(q * b) <= Abs(a) < Abs(q * b) + Abs(b)
    requires a >= 0 ==> q * b >= 0
    requires a <= 0 ==> q * b <= 0
    ensures q == TruncDiv(a, b)
  {
    hide TruncDiv;
    TruncDivIsTowardZero(a, b);
    var p := TruncDiv(a, b);
    if q != p {
      MultiplesApart(q, p, b);
    }
  }

  lemma MultiplesApart(p: int, q: int, b: int)
    requires b != 0 && p != q
    ensures Abs(p * b - q * b) >= Abs(b)
  {
    Distribute(p, q, b);
    if b > 0 {
      if p > q { MulMono(1, p - q, b); } else { MulMono(p - q, -1, b); }
    } else {
      assert (p - q) * b == (q - p) * (-b);
      if p > q { MulMono(q - p, -1, -b); } else { MulMono(1, q - p, -b); }
    }
  }

  /** Multiplying by plus or minus one is exact, so a mirrored leg cancels its partner. */
  lemma MulByUnitSign(x: Decimal)
    ensures x.Mul(Whole(1)) == x
    ensures x.Mul(Whole(-1)) == x.Neg()
  {
    TruncDivUnique(x.raw * ONE, ONE, x.raw);
    assert x.raw * (-ONE) == (-x.raw) * ONE;
    TruncDivUnique(x.raw * (-1 * ONE), ONE, -x.raw);
  }
}
