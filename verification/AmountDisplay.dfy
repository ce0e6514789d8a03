/**
 * A typed amount beside the same amount as it is displayed once stored
 * (`groupThousands` and `formatNumber` of `src/lib/format.ts`).
 */
module AmountDisplay {
  import opened Arith
  import opened Decimals
  import opened DecimalText
  import opened Digits
  import opened NumericInput
  import opened NumericInputLaws
  import opened Options
  import opened PersianDigits

  function GroupThousands(fixed: string): string {
    var negative := fixed != "" && fixed[0] == '-';
    var body := if negative then fixed[1..] else fixed;
    (if negative then "−" else "") + GroupFrom(body[..Find(body, '.')], 0, "٬")
    + (if SecondPart(body) != "" then "." + SecondPart(body) else "")
  }

  /** A stored value with a fixed number of decimals, before it is wrapped for the page. */
  function FormatNumber(value: string, dp: nat): string
    requires dp <= SCALE
  {
    ToPersianDigits(GroupThousands(ToFixed(Parse(value), dp)))
  }

  function Grouped(whole: string): string {
    GroupFrom(whole, 0, "٬")
  }

  lemma {:induction false} GroupHasNoPoint(s: string, p: nat)
    requires AllDigits(s) && p <= |s|
    ensures forall i :: 0 <= i < |GroupFrom(s, p, "٬")| ==> GroupFrom(s, p, "٬")[i] != '.'
    decreases |s| - p
  {
    hide BreakBefore;
    if p < |s| { GroupHasNoPoint(s, p + 1); }
  }

  /** Where the point stands tells how long the fraction is. */
  lemma PointPlace(grouped: string, tail: string)
    requires forall i :: 0 <= i < |grouped| ==> grouped[i] != '.'
    requires tail != "" ==> tail[0] == '.'
    ensures Find(grouped + tail, '.') == |grouped|
  {
    FindUnique(grouped + tail, '.', |grouped|);
  }

  function Tail(fraction: string): string {
    if fraction != "" then "." + fraction else ""
  }

  lemma PointOfJoined(whole: string, fraction: string)
    requires AllDigits(whole)
    ensures Joined(whole, fraction) == whole + Tail(fraction)
    ensures Find(whole + Tail(fraction), '.') == |whole| && (whole + Tail(fraction))[..|whole|] == whole
  {
    FindUnique(whole + Tail(fraction), '.', |whole|);
  }

  lemma SecondPartOfJoined(whole: string, fraction: string)
    requires AllDigits(whole) && AllDigits(fraction)
    ensures SecondPart(whole + Tail(fraction)) == fraction
  {
    PointOfJoined(whole, fraction);
    NoSecondPoint(fraction);
    hide Find, AllDigits;
    if fraction != "" { assert (whole + Tail(fraction))[|whole| + 1..] == fraction; }
  }

  lemma DisplayOfJoined(whole: string, fraction: string)
    requires whole != "" && AllDigits(whole) && AllDigits(fraction)
    ensures GroupThousands(Joined(whole, fraction)) == Grouped(whole) + Tail(fraction)
  {
    assert IsDigit(whole[0]);
    hide GroupFrom, SecondPart, Find, AllDigits, Joined;
    PointOfJoined(whole, fraction);
    SecondPartOfJoined(whole, fraction);
    assert (whole + Tail(fraction))[0] == whole[0] != '-';
    assert "" + Grouped(whole) == Grouped(whole);
  }

  lemma TypedText(raw: string, decimal: bool, maxDecimals: Option<nat>)
    requires raw != "" && Shaped(raw, decimal, maxDecimals)
    ensures AllDigits(raw[..Find(raw, '.')])
    ensures Rendering(raw, true, true) == Grouped(raw[..Find(raw, '.')]) + raw[Find(raw, '.')..]
  {
    hide GroupFrom, Rendering;
    RenderingOfShaped(raw, decimal, maxDecimals, true, true);
  }

  /** A canonical value is not negative. */
  lemma CanonicalParses(raw: string, decimal: bool, maxDecimals: Option<nat>)
    requires raw != "" && Shaped(raw, decimal, maxDecimals)
    ensures Parse(raw).raw >= 0
  {
    CanonicalIsMarks(raw, decimal, maxDecimals);
    assert IsMark(raw[0]) && IsMark(raw[|raw| - 1]);
    hide ParseBody, TrimStart, TrimEnd;
    TrimKeeps(raw);
    assert raw[0] != '-';
  }

  /** The displayed text of a value that is not negative, split at its point. */
  lemma FixedSplits(d: Decimal, dp: nat) returns (whole: string, fraction: string)
    requires dp <= SCALE && d.raw >= 0
    ensures whole != "" && AllDigits(whole) && AllDigits(fraction) && |fraction| == dp
    ensures ToFixed(d, dp) == Joined(whole, fraction)
  {
    hide RoundUnits, PaddedUnits, Value, Joined, IsDigit;
    var s := PaddedUnits(RoundUnits(Abs(d.raw), dp), dp);
    whole, fraction := s[..|s| - dp], s[|s| - dp..];
  }

  lemma PaddedIs(x: string, dp: nat)
    requires AllDigits(x) && |x| > dp && (x[0] == '0' ==> |x| == dp + 1)
    ensures PaddedUnits(Value(x), dp) == x
  {
    hide Value, Print, Pow10;
    PadKeepsValue(Value(x), dp + 1);
    if x[0] == '0' {
      if dp > 0 {
        LeadingZeroTooSmall(x);
        PrintWidth(Value(x), dp);
      } else {
        assert x == "0";
        ValueOfZero();
      }
    } else {
      PrintOfValue(x);
    }
    ValueInjective(PadStart(Print(Value(x)), dp + 1), x);
  }

  lemma ValueOfZero()
    ensures Value("0") == 0 && Print(0) == "0"
  {
    assert "0"[..0] == "";
  }

  /** Showing as many decimals as were typed shows the text that was typed. */
  lemma FixedOfTyped(whole: string, fraction: string)
    requires whole != "" && AllDigits(whole) && AllDigits(fraction) && |fraction| <= SCALE
    requires whole[0] == '0' ==> |whole| == 1
    ensures ToFixed(Parse(Joined(whole, fraction)), |fraction|) == Joined(whole, fraction)
  {
    hide Parse, Value, Print, Pow10, RoundUnits, PaddedUnits;
    var x, dp := whole + fraction, |fraction|;
    ParseOfJoined(false, whole, fraction);
    assert Signed(false, Joined(whole, fraction)) == Joined(whole, fraction);
    CutValue(x, dp);
    assert x[..|x| - dp] == whole && x[|x| - dp..] == fraction;
    RoundUnitsOfMultiple(Value(x), dp);
    PaddedIs(x, dp);
  }

  predicate ShownDecimals(raw: string, dp: nat) {
    |raw| - Find(raw, '.') == if dp == 0 then 0 else dp + 1
  }

  lemma SameTailLength(g1: string, t1: string, g2: string, t2: string)
    requires forall i :: 0 <= i < |g1| ==> g1[i] != '.'
    requires forall i :: 0 <= i < |g2| ==> g2[i] != '.'
    requires (t1 != "" ==> t1[0] == '.') && (t2 != "" ==> t2[0] == '.')
    requires g1 + t1 == g2 + t2
    ensures |t1| == |t2|
  {
    PointPlace(g1, t1);
    PointPlace(g2, t2);
  }

  lemma LatinLooksAlikeIff(raw: string, decimal: bool, maxDecimals: Option<nat>, dp: nat)
    requires raw != "" && Canonical(raw, decimal, maxDecimals) && dp <= SCALE
    ensures Rendering(raw, true, true) == GroupThousands(ToFixed(Parse(raw), dp)) <==> ShownDecimals(raw, dp)
  {
    hide GroupFrom, Rendering, ToFixed, Parse, GroupThousands, IsDigit;
    var dot := Find(raw, '.');
    TypedText(raw, decimal, maxDecimals);
    CanonicalParses(raw, decimal, maxDecimals);
    var whole, fraction := FixedSplits(Parse(raw), dp);
    DisplayOfJoined(whole, fraction);
    GroupHasNoPoint(whole, 0);
    GroupHasNoPoint(raw[..dot], 0);
    if Rendering(raw, true, true) == GroupThousands(ToFixed(Parse(raw), dp)) {
      SameTailLength(Grouped(raw[..dot]), raw[dot..], Grouped(whole), Tail(fraction));
    }
    if ShownDecimals(raw, dp) {
      TypedIsShown(raw, decimal, maxDecimals, dp);
    }
  }

  lemma RawSplits(raw: string, decimal: bool, maxDecimals: Option<nat>, dp: nat)
    requires raw != "" && Canonical(raw, decimal, maxDecimals) && ShownDecimals(raw, dp)
    ensures var dot := Find(raw, '.');
      var whole, fraction := raw[..dot], if dp == 0 then "" else raw[dot + 1..];
      && raw[dot..] == Tail(fraction) && raw == whole + Tail(fraction)
      && whole != "" && AllDigits(whole) && AllDigits(fraction) && |fraction| == dp
      && (whole[0] == '0' ==> |whole| == 1)
  {
    var dot := Find(raw, '.');
    if dot < |raw| { TailAt(raw, dot); }
    assert raw == raw[..dot] + raw[dot..];
    if dot >= 2 { assert IsDigit(raw[..dot][1]) && raw[..dot][1] == raw[1]; }
  }

  lemma TypedIsShown(raw: string, decimal: bool, maxDecimals: Option<nat>, dp: nat)
    requires raw != "" && Canonical(raw, decimal, maxDecimals) && dp <= SCALE && ShownDecimals(raw, dp)
    ensures Rendering(raw, true, true) == GroupThousands(ToFixed(Parse(raw), dp))
  {
    RawSplits(raw, decimal, maxDecimals, dp);
    TypedText(raw, decimal, maxDecimals);
    hide *;
    var dot := Find(raw, '.');
    var whole, fraction := raw[..dot], if dp == 0 then "" else raw[dot + 1..];
    PointOfJoined(whole, fraction);
    FixedOfTyped(whole, fraction);
    DisplayOfJoined(whole, fraction);
  }

  lemma DisplayIsRendered(whole: string, fraction: string)
    requires AllDigits(whole) && AllDigits(fraction)
    ensures Rendered(Grouped(whole) + Tail(fraction))
  {
    GroupingIsRendered(whole, 0, "٬");
  }

  /**
   * An amount reads the same while it is typed and once it is displayed exactly when it
   * was typed with as many decimals as are displayed, and with no point if there are none.
   */
  lemma TypedLooksLikeStoredIff(raw: string, decimal: bool, maxDecimals: Option<nat>, dp: nat)
    requires raw != "" && Canonical(raw, decimal, maxDecimals) && dp <= SCALE
    ensures FormatNumericInput(raw, true, true) == FormatNumber(raw, dp) <==> ShownDecimals(raw, dp)
  {
    hide Rendering, ToFixed, Parse, GroupThousands, Rendered, Significants, KeepMarks, KeepDigits, GroupFrom, IsDigit;
    LatinLooksAlikeIff(raw, decimal, maxDecimals, dp);
    RenderingKeeps(raw, decimal, maxDecimals, true, true);
    CanonicalParses(raw, decimal, maxDecimals);
    var whole, fraction := FixedSplits(Parse(raw), dp);
    DisplayOfJoined(whole, fraction);
    DisplayIsRendered(whole, fraction);
    var typed, shown := Rendering(raw, true, true), GroupThousands(ToFixed(Parse(raw), dp));
    RenderedIsLatin(typed);
    RenderedIsLatin(shown);
    LatinOfPersian(typed);
    LatinOfPersian(shown);
  }

  /** So where two decimals are displayed, 12.5 does not read as it was typed. */
  lemma MissingDecimalShows()
    ensures FormatNumericInput("12.5", true, true) != FormatNumber("12.5", 2)
  {
    hide FormatNumericInput, FormatNumber;
    assert IsDigit('1') && IsDigit('2') && IsDigit('5');
    PointOfJoined("12", "5");
    assert "12" + "." + "5" == "12.5";
    TypedLooksLikeStoredIff("12.5", true, None, 2);
  }

  // ------------------------------------------------------------------ negative amounts

  lemma FixedStartsWithDigit(d: Decimal, dp: nat)
    requires dp <= SCALE && d.raw >= 0
    ensures ToFixed(d, dp) != "" && IsDigit(ToFixed(d, dp)[0])
  {
    hide ToFixed;
    var whole, fraction := FixedSplits(d, dp);
    assert ToFixed(d, dp)[0] == whole[0];
  }

  lemma FixedOfNegative(d: Decimal, dp: nat)
    requires dp <= SCALE && d.raw < 0 && RoundUnits(-d.raw, dp) != 0
    ensures ToFixed(d, dp) == "-" + ToFixed(d.Neg(), dp)
  {
    hide RoundUnits, PaddedUnits, Joined;
  }

  lemma GroupsOfNegative(fixed: string)
    requires fixed != "" && IsDigit(fixed[0])
    ensures GroupThousands("-" + fixed) == "−" + GroupThousands(fixed)
  {
    hide GroupFrom, SecondPart;
    assert ("-" + fixed)[1..] == fixed;
  }

  /** An amount below zero is displayed as the amount above it, behind a minus sign. */
  lemma NegativeIsDisplayed(value: string, positive: string, dp: nat)
    requires dp <= SCALE && Parse(value).raw < 0 && Parse(positive) == Parse(value).Neg()
    requires RoundUnits(-Parse(value).raw, dp) != 0
    ensures FormatNumber(value, dp) == "−" + FormatNumber(positive, dp)
  {
    hide Parse, ToFixed, GroupThousands, RoundUnits;
    FixedOfNegative(Parse(value), dp);
    FixedStartsWithDigit(Parse(positive), dp);
    GroupsOfNegative(ToFixed(Parse(positive), dp));
    var shown := GroupThousands(ToFixed(Parse(positive), dp));
    assert ToPersianDigits("−" + shown) == "−" + ToPersianDigits(shown);
  }
}
