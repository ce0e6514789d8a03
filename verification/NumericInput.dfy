/**
 * Numbers as a user types them (`src/lib/numericInput.ts`): the canonical value, its
 * grouped rendering, and the caret that stays behind the same digit.
 */
module NumericInput {
  import opened Arith
  import opened Digits
  import opened Options
  import opened PersianDigits

  // ------------------------------------------------------------------ normalising

  predicate IsMark(c: char) {
    IsDigit(c) || c == '.'
  }

  /** The other spellings of the decimal mark become a point. */
  function MarkToDot(c: char): char {
    if c == '٫' || c == '/' then '.' else c
  }

  function MarksToDots(s: string): (t: string)
    ensures |t| == |s| && forall i :: 0 <= i < |s| ==> t[i] == MarkToDot(s[i])
  {
    seq(|s|, i requires 0 <= i < |s| => MarkToDot(s[i]))
  }

  function KeepMarks(s: string): string {
    if s == "" then "" else (if IsMark(s[0]) then [s[0]] else "") + KeepMarks(s[1..])
  }

  function Take(s: string, limit: Option<nat>): string {
    if limit.Some? && limit.value < |s| then s[..limit.value] else s
  }

  /** Zeros in front of another digit go; the last zero stays. */
  function StripLeadingZeros(s: string): string {
    if |s| >= 2 && s[0] == '0' && IsDigit(s[1]) then StripLeadingZeros(s[1..]) else s
  }

  /** At most one point, with a digit before it. */
  function OnePoint(s: string, maxDecimals: Option<nat>): string {
    var dot := Find(s, '.');
    if dot == |s| then s
    else (if dot == 0 then "0" else s[..dot]) + "." + Take(KeepDigits(s[dot + 1..]), maxDecimals)
  }

  function Normalize(input: string, decimal: bool, maxDecimals: Option<nat>): string {
    var s := ToLatinDigits(input);
    StripLeadingZeros(if decimal then OnePoint(KeepMarks(MarksToDots(s)), maxDecimals) else KeepDigits(s))
  }

  method NormalizeNumericInput(input: Option<string>, decimal: bool, maxDecimals: Option<nat>) returns (s: string)
    ensures s == if input.None? then "" else Normalize(input.value, decimal, maxDecimals)
  {
    hide KeepMarks, KeepDigits, StripLeadingZeros, Take;
    if input.None? { return ""; }
    s := ToLatinDigits(input.value);
    if decimal {
      s := KeepMarks(MarksToDots(s));
      var dot := Find(s, '.');
      if dot < |s| {
        var whole, frac := s[..dot], KeepDigits(s[dot + 1..]);
        frac := Take(frac, maxDecimals);
        s := whole + "." + frac;
        if dot == 0 {
          assert whole == "" && s == "." + frac;
          s := "0" + s;
          assert s == "0" + "." + frac;
        }
      }
    } else {
      s := KeepDigits(s);
    }
    s := StripLeadingZeros(s);
  }

  // ------------------------------------------------------------------ formatting

  function DigitRun(s: string, p: nat): nat
    decreases |s| - p
  {
    if p < |s| && IsDigit(s[p]) then 1 + DigitRun(s, p + 1) else 0
  }

  predicate IsWordChar(c: char) {
    IsDigit(c) || 'a' <= c <= 'z' || 'A' <= c <= 'Z' || c == '_'
  }

  predicate WordAt(s: string, p: int) {
    0 <= p < |s| && IsWordChar(s[p])
  }

  /** Not at a word boundary, and the digits from here on make whole groups of three. */
  predicate BreakBefore(s: string, p: nat) {
    (WordAt(s, p - 1) <==> WordAt(s, p)) && DigitRun(s, p) > 0 && DigitRun(s, p) % 3 == 0
  }

  function GroupFrom(s: string, p: nat, separator: string): string
    requires p <= |s|
    decreases |s| - p
  {
    if p == |s| then ""
    else (if BreakBefore(s, p) then separator else "") + [s[p]] + GroupFrom(s, p + 1, separator)
  }

  function GroupedWhole(whole: string, persian: bool, grouping: bool): string {
    if grouping then GroupFrom(whole, 0, if persian then "٬" else ",") else whole
  }

  /** The second part of a text split at points. */
  function SecondPart(raw: string): string {
    var dot := Find(raw, '.');
    if dot == |raw| then "" else raw[dot + 1..][..Find(raw[dot + 1..], '.')]
  }

  /** The rendering in Latin digits; a trailing point is kept. */
  function Rendering(raw: string, persian: bool, grouping: bool): string {
    var dot := Find(raw, '.');
    GroupedWhole(if dot == 0 then "0" else raw[..dot], persian, grouping)
    + (if dot < |raw| then "." + SecondPart(raw) else "")
  }

  function FormatNumericInput(raw: string, persian: bool, grouping: bool): string {
    if raw == "" then ""
    else if persian then ToPersianDigits(Rendering(raw, true, grouping))
    else Rendering(raw, false, grouping)
  }

  // ------------------------------------------------------------------ the caret

  predicate IsSignificant(c: char) {
    IsDigit(c) || '۰' <= c <= '۹' || '٠' <= c <= '٩' || MarkToDot(c) == '.'
  }

  function Significants(s: string): (t: string)
    ensures forall i :: 0 <= i < |t| ==> IsSignificant(t[i])
  {
    if s == "" then "" else Significants(s[..|s| - 1]) + (if IsSignificant(s[|s| - 1]) then [s[|s| - 1]] else "")
  }

  function Clamp(caret: int, length: nat): nat {
    Max(0, Min(caret, length))
  }

  method SignificantBefore(text: string, caret: int) returns (count: nat)
    ensures count == |Significants(text[..Clamp(caret, |text|)])|
  {
    count := 0;
    var i := 0;
    while i < Min(caret, |text|)
      invariant 0 <= i <= Clamp(caret, |text|)
      invariant count == |Significants(text[..i])|
    {
      assert text[..i + 1][..i] == text[..i];
      if IsSignificant(text[i]) { count := count + 1; }
      i := i + 1;
    }
  }

  /** The shortest prefix with that many significant characters, or the whole text. */
  ghost predicate CaretAt(formatted: string, count: int, caret: nat) {
    && caret <= |formatted|
    && |Significants(formatted[..caret])| == Clamp(count, |Significants(formatted)|)
    && (count <= 0 ==> caret == 0)
    && (0 < count <= |Significants(formatted)| ==> caret > 0 && IsSignificant(formatted[caret - 1]))
    && (count > |Significants(formatted)| ==> caret == |formatted|)
  }

  lemma {:induction false} SignificantsGrow(s: string, i: nat)
    requires i <= |s|
    ensures |Significants(s[..i])| <= |Significants(s)|
    ensures Significants(s[..i]) <= Significants(s)
    decreases |s| - i
  {
    if i < |s| {
      SignificantsGrow(s, i + 1);
      assert s[..i + 1][..i] == s[..i];
    } else {
      assert s[..i] == s;
    }
  }

  method CaretAfterSignificant(formatted: string, count: int) returns (caret: nat)
    ensures CaretAt(formatted, count, caret)
  {
    if count <= 0 { return 0; }
    var seen := 0;
    for i := 0 to |formatted|
      invariant seen == |Significants(formatted[..i])| && seen < count
    {
      assert formatted[..i + 1][..i] == formatted[..i];
      if IsSignificant(formatted[i]) {
        seen := seen + 1;
        if seen == count {
          SignificantsGrow(formatted, i + 1);
          return i + 1;
        }
      }
    }
    assert formatted[..|formatted|] == formatted;
    return |formatted|;
  }
}
