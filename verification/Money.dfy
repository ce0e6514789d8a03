/**
 * Money arithmetic outside the lots: Toman and dollar conversion
 * (`src/lib/format.ts`), the amount split, the transfer at book cost and the
 * trade fee of `createTransactionAction` (`src/app/actions.ts`).
 */
module Money {
  import opened Arith
  import opened Decimals
  import opened Digits
  import opened DecimalText

  function IrtToUsd(irtAmount: string, rate: string): string {
    if Parse(rate).raw <= 0 then "0" else ToFixed(Parse(irtAmount).Div(Parse(rate)), 2)
  }

  function UsdToIrt(usdAmount: string, rate: string): string {
    ToFixed(Parse(usdAmount).Mul(Parse(rate)), 0)
  }

  // ------------------------------------------------------------- Toman in, Toman out

  /** A whole Toman amount divided at full precision and converted back. */
  function ThereAndBack(toman: nat, rate: Decimal): string {
    UsdToIrt(ToString(Whole(toman).Div(rate)), ToString(rate))
  }

  /** Without a rate there are no dollars. */
  lemma NoRateNoDollars(irt: string, rate: string)
    requires Parse(rate).raw <= 0
    ensures IrtToUsd(irt, rate) == "0"
  {
    hide Parse;
  }

  lemma SquareSign(n: nat)
    ensures n * ONE * ONE >= 0
  {}

  lemma DivTwice(a: int, n: int)
    requires 0 <= a
    ensures 2 * a <= ONE * ONE ==> (n * ONE * ONE - a) / ONE + ONE / 2 >= n * ONE
    ensures 2 * a > ONE * ONE ==> (n * ONE * ONE - a) / ONE + ONE / 2 < n * ONE
    ensures (n * ONE * ONE - a) / ONE <= n * ONE
  {}

  lemma RoundTo(y: int, n: nat)
    requires y >= 0 && y <= n * ONE
    ensures RoundUnits(y, 0) <= n
    ensures RoundUnits(y, 0) == n <==> y + ONE / 2 >= n * ONE
  {
    hide Pow10;
    Pow18();
    var m := RoundUnits(y, 0);
    FloorBounds(y + ONE / 2, ONE);
  }

  /**
   * Toman in, Toman out: the amount comes back exactly if and only if what the
   * division drops, n * 10^36 mod rate in raw units, is at most half a Toman.
   */
  lemma TomanRoundTrip(toman: nat, rate: Decimal)
    requires rate.raw > 0
    ensures ThereAndBack(toman, rate) == Print(toman)
            <==> 2 * (toman * ONE * ONE % rate.raw) <= ONE * ONE
  {
    hide Parse, ToString, ToFixed, Pow10, Print, RoundUnits;
    RoundTripAll();
    var r, x := rate.raw, toman * ONE * ONE;
    SquareSign(toman);
    var u, d := x / r, x % r;
    FloorNonneg(x, r);
    assert u * r == x - d;
    MulSign(u, r);
    assert Whole(toman).Div(rate) == Decimal(u);
    var y := (x - d) / ONE;
    FloorNonneg(u * r, ONE);
    DivTwice(d, toman);
    RoundTo(y, toman);
    assert Decimal(u).Mul(rate) == Decimal(y);
    FixedZero(y);
    PrintInjective(RoundUnits(y, 0), toman);
  }

  lemma FixedZero(y: nat)
    ensures ToFixed(Decimal(y), 0) == Print(RoundUnits(y, 0))
  {
    var s := PaddedUnits(RoundUnits(y, 0), 0);
    assert s[..|s| - 0] == s && s[|s| - 0..] == "";
  }

  lemma PrintInjective(a: nat, b: nat)
    ensures Print(a) == Print(b) ==> a == b
  {
    hide Print, Value;
    assert Value(Print(a)) == a && Value(Print(b)) == b;
  }

  /** Every rate up to half of 10^18 Toman to the dollar returns every amount. */
  lemma TomanRoundTripForRealRates(toman: nat, rate: Decimal)
    requires 0 < rate.raw && 2 * rate.raw <= ONE * ONE + 2
    ensures ThereAndBack(toman, rate) == Print(toman)
  {
    hide ThereAndBack, Print;
    TomanRoundTrip(toman, rate);
  }

  /** Above 10^18 Toman to the dollar a single Toman is lost on the way. */
  lemma OneTomanLost(rate: Decimal)
    requires rate.raw > ONE * ONE
    ensures ThereAndBack(1, rate) != Print(1)
  {
    hide ThereAndBack, Print;
    TomanRoundTrip(1, rate);
  }

  /**
   * Going through the two-digit dollar figure instead loses at most half a cent
   * at the rate, plus one truncation and one rounding:
   * |back - n| <= rate * (0.005 + 10^-18) + 0.5 + 10^-18 Toman.
   */
  lemma TwoDigitDetour(toman: nat, rate: Decimal)
    requires rate.raw > 0
    ensures var back := Parse(UsdToIrt(IrtToUsd(Print(toman), ToString(rate)), ToString(rate))).raw;
            2 * ONE * Abs(back - toman * ONE) <= (ONE / 100 + 2) * rate.raw + 2 * ONE + ONE * ONE
  {
    hide Parse, ToString, ToFixed, Pow10, Print, RoundUnits, Rounded;
    RoundTripAll();
    WholeText(toman);
    var r, x := rate.raw, toman * ONE * ONE;
    SquareSign(toman);
    var u := x / r;
    FloorNonneg(x, r);
    assert Whole(toman).Div(rate) == Decimal(u);
    var u2 := Parse(ToFixed(Decimal(u), 2)).raw;
    assert 2 * Abs(u2 - u) <= ONE / 100 by {
      ToFixedIsNearest(Decimal(u), 2);
      SixteenDigits();
    }
    assert u2 >= 0 by {
      ParseToFixed(Decimal(u), 2);
      RoundedIsNearest(Decimal(u), 2);
    }
    var y := Decimal(u2).Mul(rate).raw;
    var back := Parse(ToFixed(Decimal(y), 0)).raw;
    assert 2 * Abs(back - y) <= ONE by {
      ToFixedIsNearest(Decimal(y), 0);
      Pow18();
    }
    FloorBounds(x, r);
    ProductFloor(Decimal(u2), rate);
    DetourError(toman, r, u, u2, y, back);
  }

  /** The two-digit figure is in whole cents, the nearest to the amount at the rate. */
  lemma DollarsInCents(irt: string, rate: string)
    requires Parse(rate).raw > 0
    ensures var cents := Parse(IrtToUsd(irt, rate)).raw;
            && cents % (ONE / 100) == 0
            && 2 * Abs(cents - TruncDiv(Parse(irt).raw * ONE, Parse(rate).raw)) <= ONE / 100
  {
    hide Parse, ToFixed, Pow10, TruncDiv;
    ToFixedIsNearest(Parse(irt).Div(Parse(rate)), 2);
    SixteenDigits();
  }

  lemma SixteenDigits()
    ensures Pow10(SCALE - 2) == ONE / 100
  {
    assert Pow10(8) == 100_000_000;
    assert Pow10(16) == ONE / 100;
  }

  lemma DetourError(toman: nat, r: int, u: int, u2: int, y: int, back: int)
    requires r > 0 && u * r <= toman * ONE * ONE < u * r + r && 2 * Abs(u2 - u) <= ONE / 100
    requires y * ONE <= u2 * r < y * ONE + ONE && 2 * Abs(back - y) <= ONE
    ensures 2 * ONE * Abs(back - toman * ONE) <= (ONE / 100 + 2) * r + 2 * ONE + ONE * ONE
  {
    var x := toman * ONE * ONE;
    ScaledGap(u2, u, r, ONE / 100);
    Combine(x, u2 * r, y, back, ONE / 100 * r, r, toman);
  }

  /** What truncation leaves of a product of two values that are not negative. */
  lemma ProductFloor(a: Decimal, b: Decimal)
    requires a.raw >= 0 && b.raw >= 0
    ensures var y := a.Mul(b).raw; y * ONE <= a.raw * b.raw < y * ONE + ONE
  {
    MulSign(a.raw, b.raw);
    FloorBounds(a.raw * b.raw, ONE);
  }

  lemma ScaledGap(a: int, b: int, r: int, e: int)
    requires r > 0 && 2 * Abs(a - b) <= e
    ensures -(e * r) <= 2 * (a * r - b * r) <= e * r
  {
    Distribute(a, b, r);
    MulMono(2 * (a - b), e, r);
    MulMono(-e, 2 * (a - b), r);
    assert 2 * (a - b) * r == 2 * ((a - b) * r) && (-e) * r == -(e * r);
  }

  lemma Combine(x: int, v: int, y: int, back: int, e: int, r: int, toman: int)
    requires x == toman * ONE * ONE && r > 0
    requires -e - 2 * r <= 2 * (v - x) <= e + 2 * r
    requires y * ONE <= v < y * ONE + ONE && -ONE <= 2 * (back - y) <= ONE
    ensures 2 * ONE * Abs(back - toman * ONE) <= e + 2 * r + 2 * ONE + ONE * ONE
  {
    var b := back - toman * ONE;
    assert 2 * ONE * b == 2 * ONE * (back - y) + 2 * (y * ONE - x);
    assert 2 * ONE * (back - y) == ONE * (2 * (back - y));
    MulMono(2 * (back - y), ONE, ONE);
    MulMono(-ONE, 2 * (back - y), ONE);
  }

  // ------------------------------------------------------- freezing an amount with its rate

  datatype SplitResult =
    | Frozen(usd: Decimal, irt: string)
    | NoRate
    | NotPositive

  /** Units of 10^-18 rounded to the nearest whole number, upwards when in the middle. */
  predicate IsNearestWhole(n: int, raw: int) {
    2 * raw - ONE < 2 * n * ONE <= 2 * raw + ONE
  }

  /** Typed Toman: the nearest whole amount, and its dollars at the rate, cut off below. */
  ghost predicate TomanSplit(typed: int, rate: int, usd: int, irt: string) {
    exists n: nat :: IsNearestWhole(n, typed) && irt == Print(n) && usd * rate <= n * ONE * ONE < usd * rate + rate
  }

  /** Typed dollars: as they are, and the nearest whole Toman to their worth, itself cut off below. */
  ghost predicate DollarSplit(typed: int, rate: int, usd: int, irt: string) {
    usd == typed
    && exists n: nat, worth ::
         IsNearestWhole(n, worth) && irt == Print(n) && worth * ONE <= usd * rate < worth * ONE + ONE
  }

  /**
   * The amount of a transaction in both currencies: whole Toman as typed and its
   * dollars at full precision, or typed dollars and their Toman. At a real rate the
   * frozen dollars convert back to exactly the frozen Toman. Typed Toman are refused
   * exactly when they or their dollars round to nothing.
   */
  method SplitAmount(irtAmount: string, amount: string, serverRate: Decimal) returns (r: SplitResult)
    ensures r == SplitOf(irtAmount, amount, serverRate)
    ensures r.NoRate? <==> serverRate.raw <= 0
    ensures r.Frozen? && 2 * serverRate.raw <= ONE * ONE + 2 ==>
      r.usd.raw > 0 && UsdToIrt(ToString(r.usd), ToString(serverRate)) == r.irt
    ensures serverRate.raw > 0 && Parse(irtAmount).raw > 0 ==>
      var n := RoundUnits(Parse(irtAmount).raw, 0);
      (r.Frozen? <==> n > 0 && n * ONE * ONE >= serverRate.raw)
    ensures serverRate.raw > 0 && Parse(irtAmount).raw <= 0 ==> (r.Frozen? <==> Parse(amount).raw > 0)
    ensures r.Frozen? ==>
      if Parse(irtAmount).raw > 0 then TomanSplit(Parse(irtAmount).raw, serverRate.raw, r.usd.raw, r.irt)
      else DollarSplit(Parse(amount).raw, serverRate.raw, r.usd.raw, r.irt)
  {
    hide Parse, ToString, ToFixed, RoundUnits;
    if serverRate.raw > 0 && Parse(irtAmount).raw > 0 { TomanAmountAccepted(irtAmount, amount, serverRate); }
    if 2 * serverRate.raw <= ONE * ONE + 2 { FrozenAmountsAgree(irtAmount, amount, serverRate); }
    FrozenIsSplit(irtAmount, amount, serverRate);
    if serverRate.raw <= 0 {
      return NoRate;
    }
    var usdAmount, irtAmountStr := ZERO, "";
    if Parse(irtAmount).raw > 0 {
      irtAmountStr := ToFixed(Parse(irtAmount), 0);
      usdAmount := Parse(irtAmountStr).Div(serverRate);
    } else if Parse(amount).raw > 0 {
      usdAmount := Parse(amount);
      irtAmountStr := ToFixed(usdAmount.Mul(serverRate), 0);
    } else {
      return NotPositive;
    }
    if usdAmount.raw <= 0 {
      return NotPositive;
    }
    return Frozen(usdAmount, irtAmountStr);
  }

  function SplitOf(irtAmount: string, amount: string, rate: Decimal): SplitResult {
    if rate.raw <= 0 then NoRate
    else if Parse(irtAmount).raw > 0 then
      var irt := ToFixed(Parse(irtAmount), 0);
      var usd := Parse(irt).Div(rate);
      if usd.raw <= 0 then NotPositive else Frozen(usd, irt)
    else if Parse(amount).raw > 0 then
      Frozen(Parse(amount), ToFixed(Parse(amount).Mul(rate), 0))
    else NotPositive
  }

  /**
   * Whatever was typed, at a real rate the frozen dollars convert back to
   * exactly the frozen Toman, so the two figures never disagree.
   */
  lemma FrozenAmountsAgree(irtAmount: string, amount: string, rate: Decimal)
    requires 2 * rate.raw <= ONE * ONE + 2
    ensures var r := SplitOf(irtAmount, amount, rate);
            r.Frozen? ==> r.usd.raw > 0 && UsdToIrt(ToString(r.usd), ToString(rate)) == r.irt
  {
    hide Parse, ToString, ToFixed, RoundUnits, Print, Pow10;
    RoundTripAll();
    var r := SplitOf(irtAmount, amount, rate);
    if r.Frozen? && Parse(irtAmount).raw > 0 {
      var n := RoundUnits(Parse(irtAmount).raw, 0);
      assert r.irt == Print(n) by { FixedZero(Parse(irtAmount).raw); }
      WholeText(n);
      TomanRoundTripForRealRates(n, rate);
    }
  }

  lemma RoundUnitsIsNearest(raw: nat)
    ensures IsNearestWhole(RoundUnits(raw, 0), raw)
  {
    hide Pow10;
    Pow18();
    FloorBounds(raw + ONE / 2, ONE);
  }

  /** What is frozen, in numbers. */
  lemma FrozenIsSplit(irtAmount: string, amount: string, rate: Decimal)
    ensures var r := SplitOf(irtAmount, amount, rate);
            r.Frozen? ==>
              if Parse(irtAmount).raw > 0 then TomanSplit(Parse(irtAmount).raw, rate.raw, r.usd.raw, r.irt)
              else DollarSplit(Parse(amount).raw, rate.raw, r.usd.raw, r.irt)
  {
    hide Parse, ToFixed, RoundUnits, Print, IsNearestWhole;
    var r := SplitOf(irtAmount, amount, rate);
    if r.Frozen? && Parse(irtAmount).raw > 0 {
      var n := RoundUnits(Parse(irtAmount).raw, 0);
      RoundUnitsIsNearest(Parse(irtAmount).raw);
      FixedZero(Parse(irtAmount).raw);
      WholeText(n);
      SquareSign(n);
      FloorBounds(n * ONE * ONE, rate.raw);
    } else if r.Frozen? {
      ProductFloor(Parse(amount), rate);
      var worth := Parse(amount).Mul(rate).raw;
      MulNonneg(Parse(amount), rate);
      RoundUnitsIsNearest(worth);
      FixedZero(worth);
    }
  }

  /** A typed Toman amount is refused exactly when it rounds to nothing, or its dollars do. */
  lemma TomanAmountAccepted(irtAmount: string, amount: string, rate: Decimal)
    requires rate.raw > 0 && Parse(irtAmount).raw > 0
    ensures var n := RoundUnits(Parse(irtAmount).raw, 0);
            SplitOf(irtAmount, amount, rate).Frozen? <==> n > 0 && n * ONE * ONE >= rate.raw
  {
    hide Parse, ToString, ToFixed, RoundUnits, Print, Pow10;
    var n := RoundUnits(Parse(irtAmount).raw, 0);
    FixedZero(Parse(irtAmount).raw);
    WholeText(n);
    SquareSign(n);
    FloorBounds(n * ONE * ONE, rate.raw);
    FloorNonneg(n * ONE * ONE, rate.raw);
    MulSign(n * ONE * ONE / rate.raw - 1, rate.raw);
  }

  // --------------------------------------------------------------- transfer at book cost

  datatype TransferPlan =
    | Planned(bookUnit: Decimal, moved: Decimal, feeBase: Decimal)
    | Insufficient

  /**
   * Book value that leaves with a same-asset transfer. `held` and `heldBase`
   * are the source account's posted quantity and book value.
   */
  function PlanTransfer(qty: Decimal, feeQty: Decimal, held: Decimal, heldBase: Decimal, price: Decimal): TransferPlan {
    if qty.Add(feeQty).raw > held.raw then Insufficient
    else
      var bookUnit := if held.raw > 0 && heldBase.raw > 0 then heldBase.Div(held) else price;
      Planned(bookUnit, qty.Mul(bookUnit), feeQty.Mul(bookUnit))
  }

  lemma BookUnitBounds(held: int, heldBase: int)
    requires held > 0 && heldBase > 0
    ensures var b := heldBase * ONE / held;
            b >= 0 && b * held <= heldBase * ONE < b * held + held
  {
    FloorBounds(heldBase * ONE, held);
    FloorNonneg(heldBase * ONE, held);
  }

  /** What two truncated products leave of a truncated quotient. */
  lemma Residue(q: int, f: int, h: int, base: int, b: int)
    requires 0 <= q && 0 <= f && q + f <= h && 0 <= b
    requires b * h <= base * ONE < b * h + h
    ensures var taken := q * b / ONE + f * b / ONE;
            && 0 <= q * b / ONE && 0 <= f * b / ONE
            && taken * ONE <= base * ONE
            && (q + f == h ==> (base - taken) * ONE < h + (if f == 0 then ONE else 2 * ONE))
  {
    MulSign(q, b);
    MulSign(f, b);
    assert q * b / ONE * ONE <= q * b < q * b / ONE * ONE + ONE by { FloorBounds(q * b, ONE); }
    assert f * b / ONE * ONE <= f * b < f * b / ONE * ONE + ONE by { FloorBounds(f * b, ONE); }
    Distribute(q, f, b);
    MulMono(q + f, h, b);
    assert b * h == h * b;
  }

  /**
   * A transfer of held units never takes more than the held book value, and one
   * that empties the account leaves less than held / ONE + 2 raw units behind
   * (one of them only if there is a fee).
   */
  lemma TransferKeepsBookValue(qty: Decimal, feeQty: Decimal, held: Decimal, heldBase: Decimal, price: Decimal)
    requires qty.raw >= 0 && feeQty.raw >= 0 && held.raw > 0 && heldBase.raw > 0
    requires PlanTransfer(qty, feeQty, held, heldBase, price).Planned?
    ensures var plan := PlanTransfer(qty, feeQty, held, heldBase, price);
            var left := heldBase.raw - plan.moved.raw - plan.feeBase.raw;
            && plan.moved.raw >= 0 && plan.feeBase.raw >= 0 && left >= 0
            && (qty.raw + feeQty.raw == held.raw ==>
                  left * ONE < held.raw + (if feeQty.raw == 0 then ONE else 2 * ONE))
  {
    var b := heldBase.raw * ONE / held.raw;
    BookUnitBounds(held.raw, heldBase.raw);
    assert heldBase.Div(held) == Decimal(b);
    MulSign(qty.raw, b);
    MulSign(feeQty.raw, b);
    Residue(qty.raw, feeQty.raw, held.raw, heldBase.raw, b);
  }

  lemma MulNonneg(x: Decimal, y: Decimal)
    requires x.raw >= 0 && y.raw >= 0
    ensures x.Mul(y).raw >= 0 && (x.raw == 0 ==> x.Mul(y).raw == 0)
  {
    MulSign(x.raw, y.raw);
    FloorNonneg(x.raw * y.raw, ONE);
  }

  lemma MarketPlan(qty: Decimal, feeQty: Decimal, held: Decimal, heldBase: Decimal, price: Decimal)
    requires !(held.raw > 0 && heldBase.raw > 0) && PlanTransfer(qty, feeQty, held, heldBase, price).Planned?
    ensures PlanTransfer(qty, feeQty, held, heldBase, price) == Planned(price, qty.Mul(price), feeQty.Mul(price))
    ensures qty.raw + feeQty.raw <= held.raw
  {}

  lemma ShareOfBook(q: int, m: int, b: int, h: int, base: int)
    requires q >= 0 && h > 0 && b * h <= base * ONE < b * h + h && m * ONE <= q * b < m * ONE + ONE
    ensures m * h <= q * base && (q * base - m * h) * ONE < (ONE + q) * h
  {
    MulMono(b * h, base * ONE, q);
    MulMono(m * ONE, q * b, h);
    MulMono(q * b + 1, m * ONE + ONE, h);
    MulMono(base * ONE, b * h + h, q);
    assert b * h * q == q * b * h && base * ONE * q == q * base * ONE && m * ONE * h == m * h * ONE;
    assert (b * h + h) * q == q * b * h + q * h && (m * ONE + ONE) * h == m * h * ONE + ONE * h;
    assert (q * b + 1) * h == q * b * h + h;
    MulCancelLe(m * h, q * base, ONE);
  }

  /**
   * A transfer is refused exactly when quantity and fee exceed what is held. Each of the two takes
   * its share of the book value: q of h units carry q / h of it, short by less than (1 + q) raw
   * units of the last digit.
   */
  lemma TransferTakesItsShare(qty: Decimal, feeQty: Decimal, held: Decimal, heldBase: Decimal, price: Decimal)
    requires qty.raw >= 0 && feeQty.raw >= 0 && held.raw > 0 && heldBase.raw > 0
    ensures var plan := PlanTransfer(qty, feeQty, held, heldBase, price);
            && (plan.Planned? <==> qty.raw + feeQty.raw <= held.raw)
            && (plan.Planned? ==>
                  && 0 <= qty.raw * heldBase.raw - plan.moved.raw * held.raw
                  && (qty.raw * heldBase.raw - plan.moved.raw * held.raw) * ONE < (ONE + qty.raw) * held.raw
                  && 0 <= feeQty.raw * heldBase.raw - plan.feeBase.raw * held.raw
                  && (feeQty.raw * heldBase.raw - plan.feeBase.raw * held.raw) * ONE < (ONE + feeQty.raw) * held.raw)
  {
    var plan := PlanTransfer(qty, feeQty, held, heldBase, price);
    if plan.Planned? {
      var b := heldBase.raw * ONE / held.raw;
      BookUnitBounds(held.raw, heldBase.raw);
      assert heldBase.Div(held) == Decimal(b);
      ProductFloor(qty, Decimal(b));
      ProductFloor(feeQty, Decimal(b));
      ShareOfBook(qty.raw, plan.moved.raw, b, held.raw, heldBase.raw);
      ShareOfBook(feeQty.raw, plan.feeBase.raw, b, held.raw, heldBase.raw);
    }
  }

  /**
   * An account with no positive book value is valued at the market price
   * instead, and then a transfer stays within the book exactly when it moves no
   * value and the book is not negative.
   */
  lemma TransferAtMarketPrice(qty: Decimal, feeQty: Decimal, held: Decimal, heldBase: Decimal, price: Decimal)
    requires qty.raw >= 0 && feeQty.raw >= 0 && price.raw >= 0 && !(held.raw > 0 && heldBase.raw > 0)
    requires PlanTransfer(qty, feeQty, held, heldBase, price).Planned?
    ensures var plan := PlanTransfer(qty, feeQty, held, heldBase, price);
            plan.moved.raw + plan.feeBase.raw <= heldBase.raw
            <==> plan.moved.raw == 0 && plan.feeBase.raw == 0 && heldBase.raw >= 0
  {
    MarketPlan(qty, feeQty, held, heldBase, price);
    hide PlanTransfer;
    MulNonneg(qty, price);
    MulNonneg(feeQty, price);
    hide Decimal.Mul;
  }

  // ------------------------------------------------------------------------ trade fee

  /** A fee typed in the settlement unit, at the trade's own book rate. */
  function TradeFeeUsd(fee: Decimal, book: Decimal, settlement: Decimal): Decimal {
    fee.Mul(book).Div(settlement)
  }

  lemma FeeQuotient(f: int, v: int, s: int, m: int, q: int)
    requires 0 <= f < s && v >= 0 && m <= f * v && 0 <= q && q * s <= m
    ensures q <= v && (v > 0 ==> q < v)
  {
    if v == 0 {
      assert q * s <= 0;
      MulCancelLe(q, 0, s);
    } else {
      MulMono(f + 1, s, v);
      Distribute(f, 1, v);
      assert q * s < v * s;
      MulCancel(q, v, s);
    }
  }

  lemma FeeParts(fee: Decimal, book: Decimal, settlement: Decimal) returns (m: int)
    requires 0 <= fee.raw && 0 < settlement.raw && book.raw >= 0
    ensures 0 <= m * ONE <= fee.raw * book.raw
    ensures var q := TradeFeeUsd(fee, book, settlement).raw; 0 <= q && q * settlement.raw <= m * ONE
  {
    MulSign(fee.raw, book.raw);
    m := fee.raw * book.raw / ONE;
    FloorBounds(fee.raw * book.raw, ONE);
    FloorNonneg(fee.raw * book.raw, ONE);
    assert fee.Mul(book) == Decimal(m);
    FloorBounds(m * ONE, settlement.raw);
    FloorNonneg(m * ONE, settlement.raw);
  }

  /** A sell fee below the settlement costs no more than the sale's book value. */
  lemma SellFeeWithinBook(fee: Decimal, book: Decimal, settlement: Decimal)
    requires 0 <= fee.raw < settlement.raw && book.raw >= 0
    ensures 0 <= TradeFeeUsd(fee, book, settlement).raw <= book.raw
    ensures book.raw > 0 ==> TradeFeeUsd(fee, book, settlement).raw < book.raw
  {
    hide TradeFeeUsd;
    var m := FeeParts(fee, book, settlement);
    FeeQuotient(fee.raw, book.raw, settlement.raw, m * ONE, TradeFeeUsd(fee, book, settlement).raw);
  }

  /** It is the fee's share of the book value, short by less than one raw unit and one truncation. */
  lemma SellFeeIsItsShare(fee: Decimal, book: Decimal, settlement: Decimal)
    requires 0 <= fee.raw && 0 < settlement.raw && book.raw >= 0
    ensures var q := TradeFeeUsd(fee, book, settlement).raw;
            q * settlement.raw <= fee.raw * book.raw < q * settlement.raw + settlement.raw + ONE
  {
    MulSign(fee.raw, book.raw);
    var m := fee.raw * book.raw / ONE;
    FloorBounds(fee.raw * book.raw, ONE);
    FloorNonneg(fee.raw * book.raw, ONE);
    assert fee.Mul(book) == Decimal(m);
    FloorBounds(m * ONE, settlement.raw);
    FloorNonneg(m * ONE, settlement.raw);
    assert TradeFeeUsd(fee, book, settlement).raw == m * ONE / settlement.raw;
  }
}
