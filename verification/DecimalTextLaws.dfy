/**
 * What the parser of decimals makes of typed text, digits in any number and white space or
 * separators among them, and how the printer writes a decimal.
 */
module DecimalTextLaws {
  import opened Arith
  import opened Decimals
  import opened DecimalText
  import opened Digits

  // ------------------------------------------------------------------ parsing typed text

  predicate Blank(s: string) {
    forall i :: 0 <= i < |s| ==> IsSpace(s[i])
  }

  lemma {:induction false} TrimStartOfPadded(before: string, core: string)
    requires Blank(before) && (core != "" ==> !IsSpace(core[0]))
    ensures TrimStart(before + core) == core
  {
    hide IsSpace;
    if before == "" {
      assert before + core == core;
    } else {
      assert (before + core)[1..] == before[1..] + core;
      TrimStartOfPadded(before[1..], core);
    }
  }

  lemma {:induction false} TrimEndOfPadded(core: string, after: string)
    requires Blank(after) && (core != "" ==> !IsSpace(core[|core| - 1]))
    ensures TrimEnd(core + after) == core
  {
    hide IsSpace;
    if after == "" {
      assert core + after == core;
    } else {
      assert (core + after)[..|core + after| - 1] == core + after[..|after| - 1];
      TrimEndOfPadded(core, after[..|after| - 1]);
    }
  }

  lemma TrimOfPadded(before: string, core: string, after: string)
    requires Blank(before) && Blank(after)
    requires core != "" && !IsSpace(core[0]) && !IsSpace(core[|core| - 1])
    ensures Trim(before + core + after) == core
  {
    hide IsSpace, TrimStart, TrimEnd;
    assert before + core + after == before + (core + after);
    TrimStartOfPadded(before, core + after);
    TrimEndOfPadded(core, after);
  }

  lemma FractionPartCuts(fraction: string)
    requires AllDigits(fraction) && |fraction| > SCALE
    ensures FractionPart(fraction) == fraction[..SCALE]
  {
    FindUnique(fraction, '.', |fraction|);
    assert fraction[..|fraction|] == fraction;
  }

  /** The fraction in units of 10^-18, what lies below them cut off. */
  lemma FractionIsCutOff(fraction: string)
    requires AllDigits(fraction)
    ensures var v, f := PartValue(FractionPart(fraction)), Value(fraction) * ONE;
            v * Pow10(|fraction|) <= f < v * Pow10(|fraction|) + Pow10(|fraction|)
  {
    hide Value, Pow10, FractionPart, PartValue;
    Pow18();
    if |fraction| <= SCALE {
      FractionPartOfDigits(fraction);
      PowSplit(SCALE - |fraction|, |fraction|);
      Reassociate(Value(fraction), Pow10(SCALE - |fraction|), Pow10(|fraction|));
    } else {
      var kept, gone := fraction[..SCALE], fraction[SCALE..];
      assert fraction == kept + gone;
      FractionPartCuts(fraction);
      PartOfDigits(kept);
      ValueConcat(kept, gone);
      ValueBelowPow(gone);
      PowSplit(SCALE, |gone|);
      CutOff(Value(kept), Value(gone), Pow10(|gone|));
    }
  }

  lemma Reassociate(v: int, p: int, q: int)
    ensures v * p * q == v * (p * q)
  {}

  lemma CutOff(kept: int, gone: int, p: int)
    requires 0 <= gone < p
    ensures kept * (ONE * p) <= (kept * p + gone) * ONE < kept * (ONE * p) + ONE * p
  {
    assert (kept * p + gone) * ONE == kept * (ONE * p) + gone * ONE;
  }

  /** The number a text denotes, whatever its length: 10^k times that number is the value of its digits. */
  lemma BodyIsCutOff(whole: string, fraction: string)
    requires AllDigits(whole) && AllDigits(fraction)
    ensures var v, p := ParseBody(whole + "." + fraction), Pow10(|fraction|);
            v * p <= Value(whole + fraction) * ONE < v * p + p
  {
    hide *;
    BodyOfDigits(whole, fraction);
    FractionIsCutOff(fraction);
    ValueConcat(whole, fraction);
    WholeAndFraction(Value(whole), Pow10(|fraction|), Value(fraction), PartValue(FractionPart(fraction)));
  }

  lemma BodyOfDigits(whole: string, fraction: string)
    requires AllDigits(whole)
    ensures ParseBody(whole + "." + fraction) == Value(whole) * ONE + PartValue(FractionPart(fraction))
  {
    BodyWithSeparators(whole, fraction);
    KeepDigitsOfDigits(whole);
    hide ParseBody, FractionPart, PartValue, Value, KeepDigits;
  }

  lemma WholeAndFraction(w: int, p: int, f: int, v: int)
    requires v * p <= f * ONE < v * p + p
    ensures (w * ONE + v) * p <= (w * p + f) * ONE < (w * ONE + v) * p + p
  {
    assert (w * ONE + v) * p == w * ONE * p + v * p && (w * p + f) * ONE == w * ONE * p + f * ONE;
  }

  /**
   * Text with any number of digits on either side of a point, at least one, and white space
   * around it: the number it denotes, cut off below 10^-18 toward zero, with its sign.
   */
  lemma ParseCutsOff(before: string, neg: bool, whole: string, fraction: string, after: string)
    requires Blank(before) && Blank(after) && AllDigits(whole) && AllDigits(fraction) && whole + fraction != ""
    ensures var p := Pow10(|fraction|);
            var shown := Parse(before + Signed(neg, whole + "." + fraction) + after).raw;
            var v := if neg then -shown else shown;
            v * p <= Value(whole + fraction) * ONE < v * p + p
  {
    hide Value, Pow10, ParseBody, Parse, IsSpace, IsDigit, Blank;
    ParseOfPadded(before, neg, whole, fraction, after);
    BodyIsCutOff(whole, fraction);
  }

  lemma ParseOfPadded(before: string, neg: bool, whole: string, fraction: string, after: string)
    requires Blank(before) && Blank(after) && AllDigits(whole) && AllDigits(fraction) && whole + fraction != ""
    ensures var v := ParseBody(whole + "." + fraction);
            Parse(before + Signed(neg, whole + "." + fraction) + after) == Decimal(if neg then 0 - v else v)
  {
    hide ParseBody, Trim, IsSpace, IsNan, IsDigit, Blank;
    var core := Signed(neg, whole + "." + fraction);
    MarksAreNoSpace(whole, fraction, neg);
    TrimOfPadded(before, core, after);
    if neg {
      assert core[1..] == whole + "." + fraction;
    } else {
      assert core == whole + "." + fraction;
    }
  }

  lemma MarksAreNoSpace(whole: string, fraction: string, neg: bool)
    requires AllDigits(whole) && AllDigits(fraction) && whole + fraction != ""
    ensures var core := Signed(neg, whole + "." + fraction);
            && core != "" && core != "-" && core != "." && !IsNan(core)
            && !IsSpace(core[0]) && !IsSpace(core[|core| - 1]) && (core[0] == '-' <==> neg)
  {
    hide Signed;
    var core := Signed(neg, whole + "." + fraction);
    var body := whole + "." + fraction;
    SignedEnds(neg, body);
    assert IsDigit(body[0]) || body[0] == '.';
    assert IsDigit(body[|body| - 1]) || body[|body| - 1] == '.';
  }

  lemma SignedEnds(neg: bool, body: string)
    requires body != ""
    ensures var core := Signed(neg, body);
            && core[0] == (if neg then '-' else body[0]) && core[|core| - 1] == body[|body| - 1]
            && |core| == |body| + if neg then 1 else 0
  {}

  /** What a second point brings is dropped. */
  lemma SecondPointEnds(neg: bool, whole: string, fraction: string, rest: string)
    requires whole != "" && AllDigits(whole) && fraction != "" && AllDigits(fraction) && AllDigits(rest) && rest != ""
    ensures Parse(Signed(neg, whole + "." + (fraction + "." + rest))) == Parse(Signed(neg, whole + "." + fraction))
  {
    hide *;
    SameBodyBeforeSecondPoint(whole, fraction, rest);
    assert whole + "." + (fraction + "." + rest) == whole + ("." + fraction + ".") + rest;
    ParseOfEnds(neg, whole, "." + fraction + ".", rest);
    ParseOfEnds(neg, whole, ".", fraction);
  }

  lemma ParseOfEnds(neg: bool, first: string, mid: string, last: string)
    requires first != "" && last != "" && AllDigits(first) && AllDigits(last)
    ensures var v := ParseBody(first + mid + last);
            Parse(Signed(neg, first + mid + last)) == Decimal(if neg then 0 - v else v)
  {
    hide ParseBody, Parse;
    var s := first + mid + last;
    assert s[0] == first[0] && s[|s| - 1] == last[|last| - 1];
    ParseOfTrimmed(neg, s);
  }

  lemma SameBodyBeforeSecondPoint(whole: string, fraction: string, rest: string)
    requires AllDigits(whole) && AllDigits(fraction)
    ensures ParseBody(whole + "." + (fraction + "." + rest)) == ParseBody(whole + "." + fraction)
  {
    assert forall i :: 0 <= i < |whole| ==> whole[i] != '.';
    hide ParseBody, FractionPart, PartValue, Value, KeepDigits;
    SecondPointInFraction(fraction, rest);
    BodyWithSeparators(whole, fraction + "." + rest);
    BodyWithSeparators(whole, fraction);
  }

  lemma SecondPointInFraction(fraction: string, rest: string)
    requires AllDigits(fraction)
    ensures FractionPart(fraction + "." + rest) == FractionPart(fraction)
  {
    var s := fraction + "." + rest;
    FindUnique(s, '.', |fraction|);
    FindUnique(fraction, '.', |fraction|);
    assert s[..|fraction|] == fraction && fraction[..|fraction|] == fraction;
  }

  lemma {:induction false} TrimOfBlank(s: string)
    requires Blank(s)
    ensures TrimStart(s) == ""
  {
    hide IsSpace;
    if s != "" { TrimOfBlank(s[1..]); }
  }

  /** Nothing at all, a lone sign or point, or NaN in any case. */
  predicate NoNumber(text: string) {
    || text == "" || text == "-" || text == "."
    || (|text| == 3 && (text[0] == 'n' || text[0] == 'N') && (text[1] == 'a' || text[1] == 'A')
        && (text[2] == 'n' || text[2] == 'N'))
  }

  lemma TrimOfNoNumber(before: string, text: string, after: string)
    requires Blank(before) && Blank(after) && NoNumber(text)
    ensures Trim(before + text + after) == text
  {
    if text == "" {
      assert Blank(before + after) && before + text + after == before + after;
      TrimOfBlank(before + after);
    } else {
      assert !IsSpace(text[0]) && !IsSpace(text[|text| - 1]);
      hide IsSpace, Trim, Blank;
      TrimOfPadded(before, text, after);
    }
  }

  /** These read as zero, whatever white space is around them. */
  lemma NoNumberIsZero(before: string, text: string, after: string)
    requires Blank(before) && Blank(after) && NoNumber(text)
    ensures Parse(before + text + after) == ZERO
  {
    hide ParseBody, Trim, Blank;
    TrimOfNoNumber(before, text, after);
  }

  lemma {:induction false} KeepDigitsTwice(s: string)
    ensures KeepDigits(KeepDigits(s)) == KeepDigits(s)
  {
    KeepDigitsOfDigits(KeepDigits(s));
  }

  /** Separators of any kind between the digits before the point do not matter. */
  lemma SeparatorsAreDropped(neg: bool, whole: string, fraction: string)
    requires whole != "" && IsDigit(whole[0]) && forall i :: 0 <= i < |whole| ==> whole[i] != '.'
    requires AllDigits(fraction) && fraction != ""
    ensures Parse(Signed(neg, whole + "." + fraction)) == Parse(Signed(neg, KeepDigits(whole) + "." + fraction))
  {
    var a, b := whole + "." + fraction, KeepDigits(whole) + "." + fraction;
    assert KeepDigits(whole)[0] == whole[0];
    assert a[|a| - 1] == fraction[|fraction| - 1] == b[|b| - 1];
    SameBody(whole, fraction);
    hide *;
    ParseOfTrimmed(neg, a);
    ParseOfTrimmed(neg, b);
  }

  lemma SameBody(whole: string, fraction: string)
    requires forall i :: 0 <= i < |whole| ==> whole[i] != '.'
    ensures ParseBody(whole + "." + fraction) == ParseBody(KeepDigits(whole) + "." + fraction)
  {
    BodyWithSeparators(whole, fraction);
    BodyWithSeparators(KeepDigits(whole), fraction);
    KeepDigitsTwice(whole);
    hide ParseBody, FractionPart, PartValue, Value, KeepDigits;
  }

  lemma BodyWithSeparators(whole: string, fraction: string)
    requires forall i :: 0 <= i < |whole| ==> whole[i] != '.'
    ensures ParseBody(whole + "." + fraction) == Value(KeepDigits(whole)) * ONE + PartValue(FractionPart(fraction))
  {
    hide FractionPart, KeepDigits, Value;
    var body := whole + "." + fraction;
    FindUnique(body, '.', |whole|);
    assert body[..|whole|] == whole && body[|whole| + 1..] == fraction;
  }

  // ------------------------------------------------------------------ printed text

  lemma JoinedIsShort(whole: string, fraction: string)
    requires whole != "" && AllDigits(whole) && AllDigits(fraction)
    requires |whole| > 1 ==> whole[0] != '0'
    requires fraction != "" ==> fraction[|fraction| - 1] != '0'
    ensures IsShort(Joined(whole, fraction))
  {
    var body := Joined(whole, fraction);
    FindUnique(body, '.', |whole|);
    assert body[0] == whole[0];
    assert fraction != "" ==> body[|body| - 1] == fraction[|fraction| - 1];
  }

  /** No zero at the end of a fraction, and none in front of another digit. */
  predicate IsShort(body: string) {
    && body != "" && IsDigit(body[0])
    && (Find(body, '.') < |body| ==> IsDigit(body[|body| - 1]) && body[|body| - 1] != '0')
    && (Find(body, '.') > 1 ==> body[0] != '0')
  }

  /** The text of a decimal is as short as it can be, with a minus sign exactly below zero. */
  lemma TextIsShort(d: Decimal)
    ensures ToString(d) != "" && (d.raw < 0 <==> ToString(d)[0] == '-')
    ensures IsShort(if d.raw < 0 then ToString(d)[1..] else ToString(d))
  {
    var v := Abs(d.raw);
    FloorNonneg(v, ONE);
    var whole, fraction := Print(v / ONE), FractionText(v % ONE);
    assert fraction != "" ==> fraction[|fraction| - 1] != '0';
    StrippedValue(v % ONE);
    hide Print, FractionText, Value, Joined, Signed, IsShort, Pow10, AllDigits;
    JoinedIsShort(whole, fraction);
    SignedShort(d.raw < 0, Joined(whole, fraction));
  }

  lemma SignedShort(neg: bool, body: string)
    requires IsShort(body)
    ensures var s := Signed(neg, body);
            s != "" && (neg <==> s[0] == '-') && (if neg then s[1..] else s) == body
  {
    var s := Signed(neg, body);
    if neg { assert s[1..] == body; } else { assert s == body; }
  }
}
