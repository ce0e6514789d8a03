/**
 * The text form of a decimal (`parse`, `toString`, `toFixed` of
 * `src/domain/decimal.ts`). Every amount crosses a function or database
 * boundary as text, so parsing what was printed has to give the same decimal.
 */
module DecimalText {
  import opened Arith
  import opened Decimals
  import opened Digits

  /** White space as `String.prototype.trim` removes it. */
  predicate IsSpace(c: char) {
    c in " \t\n\U{B}\U{C}\r\U{A0}\U{1680}\U{2028}\U{2029}\U{202F}\U{205F}\U{3000}\U{FEFF}"
    || '\U{2000}' <= c <= '\U{200A}'
  }

  /** The white space and line terminators of section 12 of the ECMAScript specification, by code point. */
  lemma WhiteSpaceIs(c: char)
    ensures var n := c as int;
            IsSpace(c) <==> 9 <= n <= 13 || n == 32 || n == 160 || n == 5760 || 8192 <= n <= 8202 || n == 8232
                            || n == 8233 || n == 8239 || n == 8287 || n == 12288 || n == 65279
  {
    assert c as int < 0xD800 ==> (c as int) as char == c;
  }

  function TrimStart(s: string): string {
    if s != [] && IsSpace(s[0]) then TrimStart(s[1..]) else s
  }

  function TrimEnd(s: string): string {
    if s != [] && IsSpace(s[|s| - 1]) then TrimEnd(s[..|s| - 1]) else s
  }

  function Trim(s: string): string {
    TrimEnd(TrimStart(s))
  }

  predicate IsNan(s: string) {
    |s| == 3 && s[0] in "nN" && s[1] in "aA" && s[2] in "nN"
  }

  /** Digits of a part with everything else dropped; no digit at all reads as zero. */
  function PartValue(part: string): nat {
    Value(KeepDigits(part))
  }

  /** The unsigned part: text before the first point, and up to 18 characters after it. */
  function ParseBody(body: string): nat {
    var i := Find(body, '.');
    var rest := if i < |body| then body[i + 1..] else "";
    PartValue(body[..i]) * ONE + PartValue(FractionPart(rest))
  }

  /** Text up to a second point, filled with zeros to exactly 18 characters. */
  function FractionPart(rest: string): string {
    (rest[..Find(rest, '.')] + Zeros(SCALE))[..SCALE]
  }

  function Parse(text: string): Decimal {
    var s := Trim(text);
    if s == "" || s == "-" || s == "." || IsNan(s) then ZERO
    else if s[0] == '-' then Decimal(ParseBody(s[1..])).Neg()
    else Decimal(ParseBody(s))
  }

  /** Digits, then a point and the fraction unless the fraction is empty. */
  function Joined(whole: string, fraction: string): string {
    whole + (if fraction != "" then "." + fraction else "")
  }

  function Signed(neg: bool, body: string): string {
    (if neg then "-" else "") + body
  }

  function FractionText(v: nat): string {
    StripTrailingZeros(PadStart(Print(v), SCALE))
  }

  function ToString(d: Decimal): string {
    var v := Abs(d.raw);
    FloorNonneg(v, ONE);
    Signed(d.raw < 0, Joined(Print(v / ONE), FractionText(v % ONE)))
  }

  /** Units of the last kept digit, rounded half up in magnitude. */
  function RoundUnits(v: nat, dp: nat): nat
    requires dp <= SCALE
  {
    var factor := Pow10(SCALE - dp);
    FloorNonneg(v + factor / 2, factor);
    (v + factor / 2) / factor
  }

  function PaddedUnits(units: nat, dp: nat): (s: string)
    ensures |s| > dp && AllDigits(s) && Value(s) == units
  {
    PadKeepsValue(units, dp + 1);
    PadStart(Print(units), dp + 1)
  }

  /** `toFixed(dp)`; more than 18 digits is a range error in the original. */
  function ToFixed(d: Decimal, dp: nat): string
    requires dp <= SCALE
  {
    var rounded := RoundUnits(Abs(d.raw), dp);
    var s := PaddedUnits(rounded, dp);
    Signed(d.raw < 0 && rounded != 0, Joined(s[..|s| - dp], s[|s| - dp..]))
  }

  // ---------------------------------------------------------------- parsing printed text

  function JoinedValue(whole: string, fraction: string): (n: nat)
    requires AllDigits(whole) && AllDigits(fraction) && |fraction| <= SCALE
  {
    MulSign(Value(fraction), Pow10(SCALE - |fraction|));
    Value(whole) * ONE + Value(fraction) * Pow10(SCALE - |fraction|)
  }

  lemma ParseBodyOfJoined(whole: string, fraction: string)
    requires whole != "" && AllDigits(whole) && AllDigits(fraction) && |fraction| <= SCALE
    ensures ParseBody(Joined(whole, fraction)) == JoinedValue(whole, fraction)
  {
    hide KeepDigits, Find, Pow10, Value, FractionPart, PartValue;
    var body := Joined(whole, fraction);
    assert Find(body, '.') == |whole| by { FindUnique(body, '.', |whole|); }
    assert body[..|whole|] == whole;
    var rest := if |whole| < |body| then body[|whole| + 1..] else "";
    assert rest == fraction;
    PartOfDigits(whole);
    FractionPartOfDigits(fraction);
  }

  lemma PartOfDigits(s: string)
    requires AllDigits(s)
    ensures PartValue(s) == Value(s)
  {
    KeepDigitsOfDigits(s);
  }

  lemma FractionPartOfDigits(fraction: string)
    requires AllDigits(fraction) && |fraction| <= SCALE
    ensures FractionPart(fraction) == fraction + Zeros(SCALE - |fraction|)
    ensures PartValue(FractionPart(fraction)) == Value(fraction) * Pow10(SCALE - |fraction|)
  {
    hide KeepDigits, Find, Pow10, Value, FractionPart;
    var zs := Zeros(SCALE - |fraction|);
    FractionPartFills(fraction);
    AppendZeros(fraction, SCALE - |fraction|);
    KeepDigitsOfDigits(fraction + zs);
  }

  lemma FractionPartFills(fraction: string)
    requires AllDigits(fraction) && |fraction| <= SCALE
    ensures FractionPart(fraction) == fraction + Zeros(SCALE - |fraction|)
  {
    FindUnique(fraction, '.', |fraction|);
    assert fraction[..|fraction|] == fraction;
  }

  lemma TrimKeeps(s: string)
    requires s != "" && !IsSpace(s[0]) && !IsSpace(s[|s| - 1])
    ensures Trim(s) == s
  {}

  lemma ParseOfTrimmed(neg: bool, body: string)
    requires body != "" && IsDigit(body[0]) && IsDigit(body[|body| - 1])
    ensures Parse(Signed(neg, body))
         == Decimal(if neg then 0 - ParseBody(body) else ParseBody(body))
  {
    hide ParseBody, TrimStart, TrimEnd, Trim;
    var s := Signed(neg, body);
    assert s[|s| - 1] == body[|body| - 1];
    assert s[0] == if neg then '-' else body[0];
    TrimKeeps(s);
    if neg {
      assert s[1..] == body && s[1] == body[0];
    } else {
      assert s == body;
    }
  }

  lemma ParseOfJoined(neg: bool, whole: string, fraction: string)
    requires whole != "" && AllDigits(whole) && AllDigits(fraction) && |fraction| <= SCALE
    ensures Parse(Signed(neg, Joined(whole, fraction)))
         == Decimal(if neg then 0 - JoinedValue(whole, fraction) else JoinedValue(whole, fraction))
  {
    var body := Joined(whole, fraction);
    assert body[0] == whole[0];
    assert IsDigit(body[|body| - 1]) by {
      if fraction != "" {
        assert body[|body| - 1] == fraction[|fraction| - 1];
      }
    }
    ParseBodyOfJoined(whole, fraction);
    ParseOfTrimmed(neg, body);
  }

  lemma Pow18()
    ensures Pow10(SCALE) == ONE
  {
    assert Pow10(6) == 1_000_000;
    assert Pow10(12) == 1_000_000_000_000;
    assert Pow10(18) == ONE;
  }

  lemma PowStep(n: nat)
    ensures Pow10(n + 1) == 10 * Pow10(n)
  {}

  lemma {:induction false} PowSplit(n: nat, m: nat)
    ensures Pow10(n + m) == Pow10(n) * Pow10(m)
  {
    if n == 0 {
    } else {
      PowSplit(n - 1, m);
      hide Pow10;
      PowStep(n - 1);
      PowStep(n - 1 + m);
      TimesTen(Pow10(m), Pow10(n - 1));
    }
  }

  // ------------------------------------------------------------------------- toString

  lemma StrippedValue(v: nat)
    requires v < ONE
    ensures var f := FractionText(v);
            AllDigits(f) && |f| <= SCALE && Value(f) * Pow10(SCALE - |f|) == v
  {
    var padded := PadStart(Print(v), SCALE);
    var f := FractionText(v);
    assert |padded| == SCALE && AllDigits(padded) && Value(padded) == v by {
      Pow18();
      PrintWidth(v, SCALE);
      PadKeepsValue(v, SCALE);
    }
    assert padded == f + Zeros(SCALE - |f|);
    AppendZeros(f, SCALE - |f|);
  }

  /** Reading back what `toString` wrote gives the same decimal, for every decimal. */
  lemma RoundTrip(d: Decimal)
    ensures Parse(ToString(d)) == d
  {
    var v := Abs(d.raw);
    StrippedValue(v % ONE);
    FloorNonneg(v, ONE);
    ParseOfJoined(d.raw < 0, Print(v / ONE), FractionText(v % ONE));
    assert JoinedValue(Print(v / ONE), FractionText(v % ONE)) == v;
  }

  /** Different decimals never print alike. */
  lemma ToStringInjective(a: Decimal, b: Decimal)
    requires ToString(a) == ToString(b)
    ensures a == b
  {
    RoundTrip(a);
    RoundTrip(b);
  }

  lemma RoundTripAll()
    ensures forall d :: Parse(ToString(d)) == d
  {
    forall d ensures Parse(ToString(d)) == d { RoundTrip(d); }
  }

  // -------------------------------------------------------------------------- toFixed

  /** The number `toFixed` shows, in raw units. */
  function Rounded(d: Decimal, dp: nat): Decimal
    requires dp <= SCALE
  {
    var m := RoundUnits(Abs(d.raw), dp) * Pow10(SCALE - dp);
    Decimal(if d.raw < 0 then -m else m)
  }

  lemma Regroup(w: int, p: int, x: int, factor: int)
    requires p * factor == ONE
    ensures (w * p + x) * factor == w * ONE + x * factor
  {
    assert w * p * factor == w * (p * factor);
  }

  /** Cutting a padded digit string before its last `dp` digits scales its value. */
  lemma CutValue(s: string, dp: nat)
    requires dp <= SCALE && |s| > dp && AllDigits(s)
    ensures JoinedValue(s[..|s| - dp], s[|s| - dp..]) == Value(s) * Pow10(SCALE - dp)
  {
    var whole, fraction := s[..|s| - dp], s[|s| - dp..];
    assert s == whole + fraction;
    ValueConcat(whole, fraction);
    assert Pow10(dp) * Pow10(SCALE - dp) == ONE by { PowSplit(dp, SCALE - dp); Pow18(); }
    Regroup(Value(whole), Pow10(dp), Value(fraction), Pow10(SCALE - dp));
  }

  lemma ParseOfCut(neg: bool, s: string, dp: nat)
    requires dp <= SCALE && |s| > dp && AllDigits(s)
    ensures Parse(Signed(neg, Joined(s[..|s| - dp], s[|s| - dp..])))
         == Decimal(if neg then 0 - Value(s) * Pow10(SCALE - dp) else Value(s) * Pow10(SCALE - dp))
  {
    CutValue(s, dp);
    ParseOfJoined(neg, s[..|s| - dp], s[|s| - dp..]);
  }

  lemma ParseToFixed(d: Decimal, dp: nat)
    requires dp <= SCALE
    ensures Parse(ToFixed(d, dp)) == Rounded(d, dp)
  {
    hide Parse, Pow10;
    var rounded := RoundUnits(Abs(d.raw), dp);
    ParseOfCut(d.raw < 0 && rounded != 0, PaddedUnits(rounded, dp), dp);
  }

  lemma RoundUnitsBounds(v: nat, dp: nat)
    requires dp <= SCALE
    ensures var f, m := Pow10(SCALE - dp), RoundUnits(v, dp) * Pow10(SCALE - dp);
            0 <= m && m - v <= v - m + f && 2 * (v - m) < f
  {
    var f := Pow10(SCALE - dp);
    FloorBounds(v + f / 2, f);
    MulSign(RoundUnits(v, dp), f);
    if SCALE - dp > 0 {
      assert f == 2 * (5 * Pow10(SCALE - dp - 1));
    }
  }

  lemma RoundedIsNearest(d: Decimal, dp: nat)
    requires dp <= SCALE
    ensures var f, shown := Pow10(SCALE - dp), Rounded(d, dp).raw;
            && 2 * Abs(shown - d.raw) <= f
            && (2 * Abs(shown - d.raw) == f ==> Abs(shown) > Abs(d.raw))
            && (shown < 0 <==> d.raw < 0 && RoundUnits(Abs(d.raw), dp) != 0)
  {
    var f, units := Pow10(SCALE - dp), RoundUnits(Abs(d.raw), dp);
    RoundUnitsBounds(Abs(d.raw), dp);
    MulSign(units, f);
  }

  /**
   * `toFixed(dp)` shows a nearest multiple of 10^-dp, and of two equally near
   * ones the one further from zero; a minus sign appears only in front of a
   * number that is really negative.
   */
  lemma ToFixedIsNearest(d: Decimal, dp: nat)
    requires dp <= SCALE
    ensures var f, shown := Pow10(SCALE - dp), Parse(ToFixed(d, dp)).raw;
            && shown % f == 0
            && 2 * Abs(shown - d.raw) <= f
            && (2 * Abs(shown - d.raw) == f ==> Abs(shown) > Abs(d.raw))
            && (ToFixed(d, dp)[0] == '-' <==> shown < 0)
  {
    ParseToFixed(d, dp);
    RoundedIsNearest(d, dp);
    RoundedIsMultiple(d, dp);
    var s := PaddedUnits(RoundUnits(Abs(d.raw), dp), dp);
    assert Joined(s[..|s| - dp], s[|s| - dp..])[0] == s[0];
  }

  lemma RoundedIsMultiple(d: Decimal, dp: nat)
    requires dp <= SCALE
    ensures Rounded(d, dp).raw % Pow10(SCALE - dp) == 0
  {
    hide Pow10, RoundUnits;
    var f, units := Pow10(SCALE - dp), RoundUnits(Abs(d.raw), dp);
    MultipleMod(units, f);
  }

  lemma RoundedIsMonotone(a: Decimal, b: Decimal, dp: nat)
    requires dp <= SCALE && a.raw <= b.raw
    ensures Rounded(a, dp).raw <= Rounded(b, dp).raw
  {
    var f := Pow10(SCALE - dp);
    var x, y := Abs(a.raw), Abs(b.raw);
    MulSign(RoundUnits(x, dp), f);
    MulSign(RoundUnits(y, dp), f);
    if x <= y {
      FloorMono(x + f / 2, y + f / 2, f);
      MulMono(RoundUnits(x, dp), RoundUnits(y, dp), f);
    } else {
      FloorMono(y + f / 2, x + f / 2, f);
      MulMono(RoundUnits(y, dp), RoundUnits(x, dp), f);
    }
  }

  /** Order survives rounding. */
  lemma ToFixedIsMonotone(a: Decimal, b: Decimal, dp: nat)
    requires dp <= SCALE && a.raw <= b.raw
    ensures Parse(ToFixed(a, dp)).raw <= Parse(ToFixed(b, dp)).raw
  {
    ParseToFixed(a, dp);
    ParseToFixed(b, dp);
    RoundedIsMonotone(a, b, dp);
  }

  lemma RoundUnitsOfMultiple(units: nat, dp: nat)
    requires dp <= SCALE
    ensures units * Pow10(SCALE - dp) >= 0
    ensures RoundUnits(units * Pow10(SCALE - dp), dp) == units
  {
    var f := Pow10(SCALE - dp);
    MulSign(units, f);
    FloorUnique(units * f + f / 2, f, units);
  }

  /** Rounding what was already rounded prints the very same text. */
  lemma ToFixedIsIdempotent(d: Decimal, dp: nat)
    requires dp <= SCALE
    ensures ToFixed(Parse(ToFixed(d, dp)), dp) == ToFixed(d, dp)
  {
    hide Parse, Rounded, RoundUnits, Pow10;
    ParseToFixed(d, dp);
    RoundedAgain(d, dp);
  }

  lemma RoundedAgain(d: Decimal, dp: nat)
    requires dp <= SCALE
    ensures var again := Rounded(d, dp).raw;
            && RoundUnits(Abs(again), dp) == RoundUnits(Abs(d.raw), dp)
            && (again < 0 <==> d.raw < 0 && RoundUnits(Abs(d.raw), dp) != 0)
  {
    var units := RoundUnits(Abs(d.raw), dp);
    RoundUnitsOfMultiple(units, dp);
    RoundedIsNearest(d, dp);
  }

  lemma NoFraction()
    ensures FractionText(0) == ""
  {
    PadKeepsValue(0, SCALE);
    assert PadStart(Print(0), SCALE) == Zeros(SCALE);
  }

  /** A whole number prints without a fraction, rounded or not. */
  lemma WholeText(n: nat)
    ensures ToFixed(Whole(n), 0) == Print(n) == ToString(Whole(n))
    ensures Parse(Print(n)) == Whole(n)
  {
    hide Print, Parse, StripTrailingZeros, FractionText, Pow10;
    assert RoundUnits(n * ONE, 0) == n by {
      Pow18();
      RoundUnitsOfMultiple(n, 0);
    }
    var s := PaddedUnits(n, 0);
    assert s[..|s| - 0] == s && s[|s| - 0..] == "";
    assert n * ONE / ONE == n && n * ONE % ONE == 0;
    NoFraction();
    RoundTrip(Whole(n));
  }
}
