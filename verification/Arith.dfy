/** Facts about integer products, floors and sums that the money proofs share. */
module Arith {

  function Abs(x: int): int {
    if x < 0 then -x else x
  }

  function Min(x: int, y: int): int {
    if x <= y then x else y
  }

  function Max(x: int, y: int): int {
    if x >= y then x else y
  }

  function Pow10(n: nat): (p: nat)
    ensures p > 0
  {
    if n == 0 then 1 else 10 * Pow10(n - 1)
  }

  lemma MulMono(a: int, b: int, c: int)
    requires a <= b && 0 <= c
    ensures a * c <= b * c
  {}

  lemma MulSign(a: int, b: int)
    ensures a >= 0 && b >= 0 ==> a * b >= 0
    ensures a <= 0 && b >= 0 ==> a * b <= 0
    ensures a > 0 && b > 0 ==> a * b > 0
  {}

  lemma MulCancel(a: int, b: int, c: int)
    requires c > 0 && a * c < b * c
    ensures a < b
  {
    if a >= b {
      MulMono(b, a, c);
    }
  }

  lemma MulCancelLe(a: int, b: int, c: int)
    requires c > 0 && a * c <= b * c
    ensures a <= b
  {
    if a > b {
      MulMono(b + 1, a, c);
    }
  }

  lemma Distribute(a: int, b: int, c: int)
    ensures (a + b) * c == a * c + b * c
    ensures (a - b) * c == a * c - b * c
  {}

  lemma FloorBounds(a: int, b: int)
    requires b > 0
    ensures (a / b) * b <= a < (a / b) * b + b
  {
    assert a == (a / b) * b + a % b;
  }

  lemma FloorUnique(a: int, b: int, q: int)
    requires b > 0 && q * b <= a < q * b + b
    ensures a / b == q
  {
    FloorBounds(a, b);
    var p := a / b;
    assert p * b < (q + 1) * b && q * b < (p + 1) * b;
    MulCancel(p, q + 1, b);
    MulCancel(q, p + 1, b);
  }

  lemma MultipleMod(k: int, b: int)
    requires b > 0
    ensures k * b % b == 0 && (-(k * b)) % b == 0
  {
    FloorUnique(k * b, b, k);
    FloorUnique(-(k * b), b, -k);
  }

  lemma FloorMono(a: int, a': int, b: int)
    requires b > 0 && a <= a'
    ensures a / b <= a' / b
  {
    FloorBounds(a, b);
    FloorBounds(a', b);
    assert (a / b) * b < (a' / b + 1) * b;
    MulCancel(a / b, a' / b + 1, b);
  }

  lemma FloorNonneg(a: int, b: int)
    requires b > 0 && a >= 0
    ensures a / b >= 0
  {
    FloorMono(0, a, b);
  }

  /** Splitting a product before dividing loses at most one unit. */
  lemma FloorSplit(x: int, y: int, b: int)
    requires b > 0
    ensures x / b + y / b <= (x + y) / b <= x / b + y / b + 1
  {
    var p, q, r := x / b, y / b, (x + y) / b;
    assert p * b <= x < p * b + b by { FloorBounds(x, b); }
    assert q * b <= y < q * b + b by { FloorBounds(y, b); }
    assert r * b <= x + y < r * b + b by { FloorBounds(x + y, b); }
    Distribute(p, q, b);
    Distribute(r, 1, b);
    Distribute(p + q, 2, b);
    MulCancel(p + q, r + 1, b);
    MulCancel(r, p + q + 2, b);
  }

  function Sum(xs: seq<int>): int {
    if xs == [] then 0 else xs[0] + Sum(xs[1..])
  }

  lemma {:induction false} SumAppend(xs: seq<int>, ys: seq<int>)
    ensures Sum(xs + ys) == Sum(xs) + Sum(ys)
  {
    if xs == [] {
      assert xs + ys == ys;
    } else {
      assert (xs + ys)[1..] == xs[1..] + ys;
      SumAppend(xs[1..], ys);
    }
  }

  lemma HeadsAndTails<T>(a: seq<T>, b: seq<T>, x: seq<T>, y: seq<T>)
    requires |a| == |b|
    ensures a + x == b + y <==> a == b && x == y
  {
    if a + x == b + y {
      assert a == (a + x)[..|a|] == (b + y)[..|b|] == b;
      assert x == (a + x)[|a|..] == (b + y)[|b|..] == y;
    }
  }
}
