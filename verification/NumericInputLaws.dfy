/** Typing a number: the canonical value survives its rendering, and the caret keeps its digit. */
module NumericInputLaws {
  import opened Arith
  import opened Digits
  import opened NumericInput
  import opened Options
  import opened PersianDigits

  /** No zero in front of another digit. */
  predicate NoExtraZero(s: string) {
    |s| >= 2 && s[0] == '0' ==> !IsDigit(s[1])
  }

  /** Digits, and perhaps a point behind at least one digit and a bounded fraction. */
  predicate Shaped(s: string, decimal: bool, maxDecimals: Option<nat>) {
    var dot := Find(s, '.');
    && AllDigits(s[..dot])
    && (dot < |s| ==> decimal && dot > 0 && AllDigits(s[dot + 1..]))
    && (dot < |s| && maxDecimals.Some? ==> |s| - dot - 1 <= maxDecimals.value)
  }

  /** What the form receives. */
  predicate Canonical(s: string, decimal: bool, maxDecimals: Option<nat>) {
    NoExtraZero(s) && Shaped(s, decimal, maxDecimals)
  }

  // ------------------------------------------------------------------ canonical values

  lemma StripNothing(s: string)
    requires NoExtraZero(s)
    ensures StripLeadingZeros(s) == s
  {}

  lemma {:induction false} KeepMarksKeeps(s: string)
    ensures forall i :: 0 <= i < |KeepMarks(s)| ==> IsMark(KeepMarks(s)[i])
  {
    if s != "" { KeepMarksKeeps(s[1..]); }
  }

  lemma JoinedIsShaped(whole: string, frac: string, maxDecimals: Option<nat>)
    requires whole != "" && AllDigits(whole) && AllDigits(frac)
    requires maxDecimals.Some? ==> |frac| <= maxDecimals.value
    ensures Shaped(whole + "." + frac, true, maxDecimals)
  {
    var t := whole + "." + frac;
    FindUnique(t, '.', |whole|);
    assert t[..|whole|] == whole && t[|whole| + 1..] == frac;
  }

  lemma WholeIsDigits(s: string)
    requires forall i :: 0 <= i < |s| ==> IsMark(s[i])
    ensures AllDigits(s[..Find(s, '.')])
  {}

  lemma TakeDigits(frac: string, maxDecimals: Option<nat>)
    requires AllDigits(frac)
    ensures AllDigits(Take(frac, maxDecimals))
    ensures maxDecimals.Some? ==> |Take(frac, maxDecimals)| <= maxDecimals.value
  {}

  lemma OnePointShape(s: string, maxDecimals: Option<nat>)
    requires forall i :: 0 <= i < |s| ==> IsMark(s[i])
    ensures Shaped(OnePoint(s, maxDecimals), true, maxDecimals)
  {
    hide Take, KeepDigits;
    var dot := Find(s, '.');
    WholeIsDigits(s);
    if dot < |s| {
      hide Shaped;
      var whole := if dot == 0 then "0" else s[..dot];
      TakeDigits(KeepDigits(s[dot + 1..]), maxDecimals);
      JoinedIsShaped(whole, Take(KeepDigits(s[dot + 1..]), maxDecimals), maxDecimals);
    }
  }

  lemma DropZeroKeepsShape(s: string, decimal: bool, maxDecimals: Option<nat>)
    requires |s| >= 2 && s[0] == '0' && IsDigit(s[1]) && Shaped(s, decimal, maxDecimals)
    ensures Shaped(s[1..], decimal, maxDecimals)
  {
    var t, dot := s[1..], Find(s, '.');
    assert dot >= 2;
    FindUnique(t, '.', dot - 1);
    assert t[..dot - 1] == s[..dot][1..];
    if dot < |s| { assert t[dot..] == s[dot + 1..]; }
  }

  lemma {:induction false} StripIsCanonical(s: string, decimal: bool, maxDecimals: Option<nat>)
    requires Shaped(s, decimal, maxDecimals)
    ensures Canonical(StripLeadingZeros(s), decimal, maxDecimals)
  {
    hide Shaped;
    if |s| >= 2 && s[0] == '0' && IsDigit(s[1]) {
      DropZeroKeepsShape(s, decimal, maxDecimals);
      StripIsCanonical(s[1..], decimal, maxDecimals);
    }
  }

  /** Whatever is typed, the value stored is canonical. */
  lemma NormalizeIsCanonical(input: string, decimal: bool, maxDecimals: Option<nat>)
    ensures Canonical(Normalize(input, decimal, maxDecimals), decimal, maxDecimals)
  {
    hide Canonical, StripLeadingZeros, KeepDigits, KeepMarks, OnePoint;
    var s := ToLatinDigits(input);
    if decimal {
      var marks := KeepMarks(MarksToDots(s));
      KeepMarksKeeps(MarksToDots(s));
      OnePointShape(marks, maxDecimals);
      StripIsCanonical(OnePoint(marks, maxDecimals), decimal, maxDecimals);
    } else {
      var digits := KeepDigits(s);
      FindUnique(digits, '.', |digits|);
      assert digits[..|digits|] == digits;
      StripIsCanonical(digits, decimal, maxDecimals);
    }
  }

  // ------------------------------------------------------------------ normalising a rendering

  lemma KeepNoMarks()
    ensures KeepMarks("") == ""
  {}

  lemma KeepMarksStep(c: char, rest: string)
    ensures KeepMarks([c] + rest) == (if IsMark(c) then [c] else "") + KeepMarks(rest)
  {
    assert ([c] + rest)[1..] == rest;
  }

  lemma {:induction false} KeepMarksConcat(a: string, b: string)
    ensures KeepMarks(a + b) == KeepMarks(a) + KeepMarks(b)
  {
    hide KeepMarks, IsMark;
    if a == "" {
      KeepNoMarks();
      assert a + b == b;
    } else {
      KeepMarksConcat(a[1..], b);
      KeepMarksStep(a[0], a[1..]);
      KeepMarksStep(a[0], a[1..] + b);
      assert a == [a[0]] + a[1..] && a + b == [a[0]] + (a[1..] + b);
    }
  }

  lemma {:induction false} KeepMarksOfMarks(s: string)
    requires forall i :: 0 <= i < |s| ==> IsMark(s[i])
    ensures KeepMarks(s) == s
  {
    if s != "" {
      KeepMarksOfMarks(s[1..]);
      assert s == [s[0]] + s[1..];
    }
  }

  lemma KeepNoDigits()
    ensures KeepDigits("") == ""
  {}

  lemma KeepDigitsStep(c: char, rest: string)
    ensures KeepDigits([c] + rest) == (if IsDigit(c) then [c] else "") + KeepDigits(rest)
  {
    assert ([c] + rest)[1..] == rest;
  }

  lemma {:induction false} KeepDigitsConcat(a: string, b: string)
    ensures KeepDigits(a + b) == KeepDigits(a) + KeepDigits(b)
  {
    hide KeepDigits, IsDigit;
    if a == "" {
      KeepNoDigits();
      assert a + b == b;
    } else {
      KeepDigitsConcat(a[1..], b);
      KeepDigitsStep(a[0], a[1..]);
      KeepDigitsStep(a[0], a[1..] + b);
      assert a == [a[0]] + a[1..] && a + b == [a[0]] + (a[1..] + b);
    }
  }

  predicate IsSeparator(c: string) {
    c == "٬" || c == ","
  }

  lemma SeparatorsDrop(c: string)
    requires IsSeparator(c)
    ensures KeepMarks(c) == "" && KeepDigits(c) == ""
  {
    assert c[1..] == "";
  }

  lemma KeepOneMark(s: string, p: nat)
    requires p < |s| && IsDigit(s[p])
    ensures KeepMarks([s[p]]) == KeepDigits([s[p]]) == [s[p]]
  {
    assert [s[p]][1..] == "";
  }

  /** Grouping only adds separators. */
  lemma {:induction false} GroupingDrops(s: string, p: nat, c: string)
    requires AllDigits(s) && p <= |s| && IsSeparator(c)
    ensures KeepMarks(GroupFrom(s, p, c)) == KeepDigits(GroupFrom(s, p, c)) == s[p..]
    decreases |s| - p
  {
    hide BreakBefore, KeepMarks, KeepDigits, IsSeparator;
    if p == |s| {
      KeepMarksOfMarks("");
      KeepDigitsOfDigits("");
    } else {
      var mark := if BreakBefore(s, p) then c else "";
      var rest := GroupFrom(s, p + 1, c);
      GroupingDrops(s, p + 1, c);
      SeparatorsDrop(c);
      KeepMarksOfMarks("");
      KeepDigitsOfDigits("");
      KeepOneMark(s, p);
      KeepMarksConcat(mark + [s[p]], rest);
      KeepMarksConcat(mark, [s[p]]);
      KeepDigitsConcat(mark + [s[p]], rest);
      KeepDigitsConcat(mark, [s[p]]);
      assert s[p..] == [s[p]] + s[p + 1..];
    }
  }

  /** Text in which only Latin digits, points and separators occur. */
  predicate Rendered(s: string) {
    forall i :: 0 <= i < |s| ==> IsMark(s[i]) || s[i] in "٬,"
  }

  lemma {:induction false} GroupingIsRendered(s: string, p: nat, c: string)
    requires AllDigits(s) && p <= |s| && IsSeparator(c)
    ensures Rendered(GroupFrom(s, p, c))
    decreases |s| - p
  {
    hide BreakBefore;
    if p < |s| { GroupingIsRendered(s, p + 1, c); }
  }

  lemma RenderedIsLatin(s: string)
    requires Rendered(s)
    ensures ToLatinDigits(s) == s && MarksToDots(s) == s
  {
    forall i | 0 <= i < |s| ensures LatinDigit(s[i]) == s[i] && MarkToDot(s[i]) == s[i] {}
  }

  lemma NoSecondPoint(rest: string)
    requires AllDigits(rest)
    ensures rest[..Find(rest, '.')] == rest
  {
    FindUnique(rest, '.', |rest|);
  }

  lemma TailAt(raw: string, dot: nat)
    requires dot < |raw| && raw[dot] == '.'
    ensures raw[dot..] == "." + raw[dot + 1..]
  {}

  lemma SecondPartOfShaped(raw: string, decimal: bool, maxDecimals: Option<nat>)
    requires Shaped(raw, decimal, maxDecimals)
    ensures var dot := Find(raw, '.'); raw[dot..] == if dot < |raw| then "." + SecondPart(raw) else ""
  {
    hide AllDigits, IsDigit, Find;
    var dot := Find(raw, '.');
    if dot < |raw| {
      NoSecondPoint(raw[dot + 1..]);
      TailAt(raw, dot);
    }
  }

  lemma RenderingOfShaped(raw: string, decimal: bool, maxDecimals: Option<nat>, persian: bool, grouping: bool)
    requires raw != "" && Shaped(raw, decimal, maxDecimals)
    ensures var dot := Find(raw, '.');
      Rendering(raw, persian, grouping) == GroupedWhole(raw[..dot], persian, grouping) + raw[dot..]
  {
    hide GroupedWhole, SecondPart;
    SecondPartOfShaped(raw, decimal, maxDecimals);
  }

  lemma GroupedWholeKeeps(whole: string, persian: bool, grouping: bool)
    requires AllDigits(whole)
    ensures var out := GroupedWhole(whole, persian, grouping);
      Rendered(out) && KeepMarks(out) == KeepDigits(out) == Significants(out) == whole
  {
    hide GroupFrom, KeepMarks, KeepDigits, Significants;
    var c := if persian then "٬" else ",";
    GroupingDrops(whole, 0, c);
    GroupingIsRendered(whole, 0, c);
    GroupingSignificants(whole, 0, c);
    KeepMarksOfMarks(whole);
    KeepDigitsOfDigits(whole);
    MarksAreSignificant(whole);
    assert whole[0..] == whole;
  }

  lemma AppendKeeps(grouped: string, whole: string, tail: string)
    requires Rendered(grouped) && KeepMarks(grouped) == KeepDigits(grouped) == Significants(grouped) == whole
    requires forall i :: 0 <= i < |tail| ==> IsMark(tail[i])
    ensures Rendered(grouped + tail) && KeepMarks(grouped + tail) == Significants(grouped + tail) == whole + tail
    ensures tail == "" ==> KeepDigits(grouped + tail) == whole + tail
  {
    hide KeepMarks, KeepDigits, Significants, IsMark;
    KeepMarksOfMarks(tail);
    MarksAreSignificant(tail);
    KeepMarksConcat(grouped, tail);
    SignificantsConcat(grouped, tail);
    if tail == "" { assert grouped + tail == grouped && whole + tail == whole; }
  }

  lemma RenderingKeeps(raw: string, decimal: bool, maxDecimals: Option<nat>, persian: bool, grouping: bool)
    requires raw != "" && Shaped(raw, decimal, maxDecimals)
    ensures var out := Rendering(raw, persian, grouping);
      && Rendered(out) && KeepMarks(out) == raw && Significants(out) == raw
      && (Find(raw, '.') == |raw| ==> KeepDigits(out) == raw)
  {
    hide *;
    var dot := Find(raw, '.');
    var whole, tail := raw[..dot], raw[dot..];
    WholeOfShaped(raw, decimal, maxDecimals);
    TailIsMarks(raw, decimal, maxDecimals);
    RenderingOfShaped(raw, decimal, maxDecimals, persian, grouping);
    GroupedWholeKeeps(whole, persian, grouping);
    AppendKeeps(GroupedWhole(whole, persian, grouping), whole, tail);
    assert whole + tail == raw;
    assert dot == |raw| ==> tail == "";
  }

  lemma WholeOfShaped(raw: string, decimal: bool, maxDecimals: Option<nat>)
    requires Shaped(raw, decimal, maxDecimals)
    ensures AllDigits(raw[..Find(raw, '.')])
  {}

  lemma TailIsMarks(raw: string, decimal: bool, maxDecimals: Option<nat>)
    requires Shaped(raw, decimal, maxDecimals)
    ensures forall i :: 0 <= i < |raw[Find(raw, '.')..]| ==> IsMark(raw[Find(raw, '.')..][i])
  {
    var dot := Find(raw, '.');
    if dot < |raw| { assert raw[dot..] == "." + raw[dot + 1..]; }
  }

  lemma OnePointOfShaped(raw: string, decimal: bool, maxDecimals: Option<nat>)
    requires Shaped(raw, decimal, maxDecimals)
    ensures OnePoint(raw, maxDecimals) == raw
  {
    hide KeepDigits;
    var dot := Find(raw, '.');
    if dot < |raw| {
      KeepDigitsOfDigits(raw[dot + 1..]);
      assert raw == raw[..dot] + "." + raw[dot + 1..];
    }
  }

  lemma NormalizeOfLatin(text: string, raw: string, decimal: bool, maxDecimals: Option<nat>)
    requires raw != "" && Canonical(raw, decimal, maxDecimals)
    requires var out := ToLatinDigits(text);
      MarksToDots(out) == out && KeepMarks(out) == raw && (Find(raw, '.') == |raw| ==> KeepDigits(out) == raw)
    ensures Normalize(text, decimal, maxDecimals) == raw
  {
    hide KeepMarks, KeepDigits, StripLeadingZeros, OnePoint;
    StripNothing(raw);
    OnePointOfShaped(raw, decimal, maxDecimals);
  }

  /** The canonical value is recovered from its rendering, in either script, grouped or not. */
  lemma NormalizeUndoesFormat(raw: string, decimal: bool, maxDecimals: Option<nat>, persian: bool, grouping: bool)
    requires Canonical(raw, decimal, maxDecimals)
    ensures Normalize(FormatNumericInput(raw, persian, grouping), decimal, maxDecimals) == raw
  {
    hide Rendering, Shaped, Normalize, KeepMarks, KeepDigits, NoExtraZero, Significants, Rendered;
    if raw == "" {
      NothingTyped(decimal, maxDecimals, persian, grouping);
    } else {
      var out := Rendering(raw, persian, grouping);
      RenderingKeeps(raw, decimal, maxDecimals, persian, grouping);
      RenderedIsLatin(out);
      LatinOfPersian(out);
      NormalizeOfLatin(FormatNumericInput(raw, persian, grouping), raw, decimal, maxDecimals);
    }
  }

  lemma NothingTyped(decimal: bool, maxDecimals: Option<nat>, persian: bool, grouping: bool)
    ensures FormatNumericInput("", persian, grouping) == "" && Normalize("", decimal, maxDecimals) == ""
  {
    assert ToLatinDigits("") == "" && MarksToDots("") == "";
  }

  lemma CanonicalIsMarks(raw: string, decimal: bool, maxDecimals: Option<nat>)
    requires Shaped(raw, decimal, maxDecimals)
    ensures forall i :: 0 <= i < |raw| ==> IsMark(raw[i])
  {
    TailIsMarks(raw, decimal, maxDecimals);
    var dot := Find(raw, '.');
    assert raw == raw[..dot] + raw[dot..];
  }

  /** A canonical value is left alone, so normalising twice is normalising once. */
  lemma NormalizeKeepsCanonical(raw: string, decimal: bool, maxDecimals: Option<nat>)
    requires Canonical(raw, decimal, maxDecimals)
    ensures Normalize(raw, decimal, maxDecimals) == raw
  {
    hide Shaped, Normalize, KeepMarks, KeepDigits;
    if raw == "" {
      NothingTyped(decimal, maxDecimals, true, true);
    } else {
      CanonicalIsMarks(raw, decimal, maxDecimals);
      RenderedIsLatin(raw);
      KeepMarksOfMarks(raw);
      if Find(raw, '.') == |raw| {
        KeepDigitsOfDigits(raw);
      }
      NormalizeOfLatin(raw, raw, decimal, maxDecimals);
    }
  }

  lemma NormalizeIsIdempotent(input: string, decimal: bool, maxDecimals: Option<nat>)
    ensures var s := Normalize(input, decimal, maxDecimals); Normalize(s, decimal, maxDecimals) == s
  {
    NormalizeIsCanonical(input, decimal, maxDecimals);
    NormalizeKeepsCanonical(Normalize(input, decimal, maxDecimals), decimal, maxDecimals);
  }

  // ------------------------------------------------------------------ what typed text means

  lemma {:induction false} DigitsOfMarks(s: string)
    ensures KeepDigits(KeepMarks(MarksToDots(s))) == KeepDigits(s)
  {
    if s == "" {
      assert MarksToDots("") == "";
    } else {
      var c, rest := s[0], s[1..];
      DigitsOfMarks(rest);
      hide KeepMarks, KeepDigits;
      assert MarksToDots(s) == [MarkToDot(c)] + MarksToDots(rest) && s == [c] + rest;
      KeepMarksStep(MarkToDot(c), MarksToDots(rest));
      KeepDigitsStep(c, rest);
      KeepDigitsStep(MarkToDot(c), KeepMarks(MarksToDots(rest)));
      assert [] + KeepMarks(MarksToDots(rest)) == KeepMarks(MarksToDots(rest));
    }
  }

  lemma ZeroInFront(digits: string)
    requires AllDigits(digits)
    ensures AllDigits("0" + digits) && Value("0" + digits) == Value(digits)
  {
    ValueConcat("0", digits);
    assert Value("0") == 0 by { assert "0"[..0] == ""; }
  }

  lemma {:induction false} StripKeepsValue(s: string)
    ensures Value(KeepDigits(StripLeadingZeros(s))) == Value(KeepDigits(s))
  {
    hide Value, KeepDigits;
    if |s| >= 2 && s[0] == '0' && IsDigit(s[1]) {
      StripKeepsValue(s[1..]);
      assert s == ['0'] + s[1..];
      KeepDigitsStep('0', s[1..]);
      ZeroInFront(KeepDigits(s[1..]));
    }
  }

  lemma PointKeepsDigits(s: string)
    ensures Value(KeepDigits(OnePoint(s, None))) == Value(KeepDigits(s))
  {
    hide Value, KeepDigits;
    var dot := Find(s, '.');
    if dot < |s| {
      var whole, frac := s[..dot], s[dot + 1..];
      assert s == whole + (['.'] + frac);
      KeepDigitsConcat(whole, ['.'] + frac);
      KeepDigitsStep('.', frac);
      KeepDigitsOfDigits(KeepDigits(frac));
      var shown := if dot == 0 then "0" else whole;
      assert OnePoint(s, None) == shown + (['.'] + KeepDigits(frac));
      KeepDigitsConcat(shown, ['.'] + KeepDigits(frac));
      KeepDigitsStep('.', KeepDigits(frac));
      if dot == 0 {
        KeepDigitsOfDigits("0");
        KeepDigitsOfDigits("");
        ZeroInFront(KeepDigits(frac));
        assert "" + KeepDigits(frac) == KeepDigits(frac);
      }
    }
  }

  /** The digits of the canonical value denote the same number as the digits typed, in any script. */
  lemma NormalizeKeepsValue(input: string, decimal: bool)
    ensures Value(KeepDigits(Normalize(input, decimal, None))) == Value(KeepDigits(ToLatinDigits(input)))
  {
    hide Value, KeepDigits, KeepMarks, StripLeadingZeros, OnePoint;
    var s := ToLatinDigits(input);
    if decimal {
      var marks := KeepMarks(MarksToDots(s));
      StripKeepsValue(OnePoint(marks, None));
      PointKeepsDigits(marks);
      DigitsOfMarks(s);
    } else {
      StripKeepsValue(KeepDigits(s));
      KeepDigitsOfDigits(KeepDigits(s));
    }
  }

  /** A point, the Persian decimal separator and a slash are the same mark. */
  lemma AnyDecimalMark(a: string, mark: char, b: string, maxDecimals: Option<nat>)
    requires AllDigits(a) && AllDigits(b) && (mark == '.' || mark == '٫' || mark == '/')
    ensures Normalize(a + [mark] + b, true, maxDecimals) == StripLeadingZeros(OnePoint(a + "." + b, maxDecimals))
  {
    hide KeepMarks, StripLeadingZeros, OnePoint;
    var typed, shown := a + [mark] + b, a + "." + b;
    assert forall i :: 0 <= i < |shown| ==> IsMark(shown[i]);
    forall i | 0 <= i < |typed| ensures MarksToDots(ToLatinDigits(typed))[i] == shown[i] {}
    assert MarksToDots(ToLatinDigits(typed)) == shown;
    KeepMarksOfMarks(shown);
  }

  /** Digits behind the first point. */
  function FractionDigits(s: string): nat {
    var dot := Find(s, '.');
    if dot == |s| then 0 else |KeepDigits(s[dot + 1..])|
  }

  lemma {:induction false} StripKeepsFraction(s: string)
    ensures FractionDigits(StripLeadingZeros(s)) == FractionDigits(s)
  {
    hide KeepDigits;
    if |s| >= 2 && s[0] == '0' && IsDigit(s[1]) {
      StripKeepsFraction(s[1..]);
      var dot := Find(s, '.');
      FindUnique(s[1..], '.', dot - 1);
      if dot < |s| { assert s[1..][dot..] == s[dot + 1..]; }
    }
  }

  /** And the point stands where the first decimal mark was typed, cut to the cap. */
  lemma NormalizeKeepsPoint(input: string, maxDecimals: Option<nat>)
    ensures var typed := FractionDigits(KeepMarks(MarksToDots(ToLatinDigits(input))));
      FractionDigits(Normalize(input, true, maxDecimals))
      == if maxDecimals.Some? then Min(typed, maxDecimals.value) else typed
  {
    hide KeepDigits, KeepMarks, StripLeadingZeros;
    var s := KeepMarks(MarksToDots(ToLatinDigits(input)));
    StripKeepsFraction(OnePoint(s, maxDecimals));
    PointKeepsFraction(s, maxDecimals);
  }

  lemma PointKeepsFraction(s: string, maxDecimals: Option<nat>)
    ensures FractionDigits(OnePoint(s, maxDecimals))
         == if maxDecimals.Some? then Min(FractionDigits(s), maxDecimals.value) else FractionDigits(s)
  {
    hide KeepDigits;
    var dot := Find(s, '.');
    if dot < |s| {
      var whole := if dot == 0 then "0" else s[..dot];
      var frac := Take(KeepDigits(s[dot + 1..]), maxDecimals);
      var t := whole + "." + frac;
      FindUnique(t, '.', |whole|);
      assert t[|whole| + 1..] == frac;
      TakeDigits(KeepDigits(s[dot + 1..]), maxDecimals);
      KeepDigitsOfDigits(frac);
    }
  }

  // ------------------------------------------------------------------ what a cap cuts off

  /** A text cut behind so many characters after its first point. */
  function CutBehindPoint(s: string, cap: nat): string {
    s[..Min(|s|, Find(s, '.') + 1 + cap)]
  }

  lemma PointCut(s: string, cap: nat)
    ensures OnePoint(s, Some(cap)) == CutBehindPoint(OnePoint(s, None), cap)
  {
    hide KeepDigits;
    var dot := Find(s, '.');
    if dot < |s| {
      var whole, frac := if dot == 0 then "0" else s[..dot], KeepDigits(s[dot + 1..]);
      var full := OnePoint(s, None);
      assert full == whole + "." + frac;
      FindUnique(full, '.', |whole|);
    }
  }

  lemma CutStep(s: string, cap: nat)
    requires |s| >= 2 && s[0] != '.' && s[1] != '.'
    ensures var t := CutBehindPoint(s, cap);
            |t| >= 2 && t[0] == s[0] && t[1] == s[1] && t[1..] == CutBehindPoint(s[1..], cap)
  {}

  lemma {:induction false} StripOfCut(s: string, cap: nat)
    ensures StripLeadingZeros(CutBehindPoint(s, cap)) == CutBehindPoint(StripLeadingZeros(s), cap)
  {
    if |s| >= 2 && s[0] == '0' && IsDigit(s[1]) {
      CutStep(s, cap);
      StripOfCut(s[1..], cap);
    }
  }

  /** With a cap, the value without one is cut behind so many digits after its point. */
  lemma CapCutsOff(input: string, cap: nat)
    ensures Normalize(input, true, Some(cap)) == CutBehindPoint(Normalize(input, true, None), cap)
  {
    hide KeepMarks, OnePoint, StripLeadingZeros, CutBehindPoint;
    var s := KeepMarks(MarksToDots(ToLatinDigits(input)));
    PointCut(s, cap);
    StripOfCut(OnePoint(s, None), cap);
  }

  /** A text with digits behind its point and what is left of it: the rest are the digits beyond the cap. */
  lemma CutLeaves(full: string, cap: nat) returns (rest: string)
    requires var dot := Find(full, '.'); dot < |full| ==> AllDigits(full[dot + 1..])
    ensures full == CutBehindPoint(full, cap) + rest && AllDigits(rest)
    ensures |rest| == Max(0, FractionDigits(full) - cap)
  {
    hide KeepDigits, IsDigit;
    var dot := Find(full, '.');
    var n := Min(|full|, dot + 1 + cap);
    rest := full[n..];
    assert full == full[..n] + full[n..];
    if dot < |full| {
      KeepDigitsOfDigits(full[dot + 1..]);
      forall i | 0 <= i < |rest| ensures IsDigit(rest[i]) {
        assert rest[i] == full[dot + 1..][cap + i];
      }
    }
  }

  lemma CutBehindValue(full: string, cap: nat)
    requires var dot := Find(full, '.'); dot < |full| ==> AllDigits(full[dot + 1..])
    ensures var p, kept := Pow10(Max(0, FractionDigits(full) - cap)), Value(KeepDigits(CutBehindPoint(full, cap)));
            kept * p <= Value(KeepDigits(full)) < kept * p + p
  {
    hide KeepDigits, CutBehindPoint, FractionDigits, Value, Pow10;
    var rest := CutLeaves(full, cap);
    KeepDigitsConcat(CutBehindPoint(full, cap), rest);
    KeepDigitsOfDigits(rest);
    ValueConcat(KeepDigits(CutBehindPoint(full, cap)), rest);
    ValueBelowPow(rest);
  }

  /** Under a cap the digits kept denote the number typed, cut off at the last place kept. */
  lemma CapKeepsValue(input: string, cap: nat)
    ensures var typed := FractionDigits(KeepMarks(MarksToDots(ToLatinDigits(input))));
            var p, kept := Pow10(Max(0, typed - cap)), Value(KeepDigits(Normalize(input, true, Some(cap))));
            kept * p <= Value(KeepDigits(ToLatinDigits(input))) < kept * p + p
  {
    hide KeepDigits, KeepMarks, Normalize, CutBehindPoint, FractionDigits, Value, Pow10, Find;
    var full := Normalize(input, true, None);
    CapCutsOff(input, cap);
    NormalizeKeepsPoint(input, None);
    NormalizeKeepsValue(input, true);
    NormalizeIsCanonical(input, true, None);
    DigitsBehindPoint(full);
    CutBehindValue(full, cap);
  }

  lemma DigitsBehindPoint(full: string)
    requires Canonical(full, true, None)
    ensures var dot := Find(full, '.'); dot < |full| ==> AllDigits(full[dot + 1..])
  {}

  // ------------------------------------------------------------------ where the separators stand

  /** A separator before every group of three counted from the right, and none in front. */
  function ByThrees(digits: string, separator: string): string {
    if |digits| <= 3 then digits
    else ByThrees(digits[..|digits| - 3], separator) + separator + digits[|digits| - 3..]
  }

  lemma {:induction false} RunOfDigits(s: string, p: nat)
    requires AllDigits(s) && p <= |s|
    ensures DigitRun(s, p) == |s| - p
    decreases |s| - p
  {
    if p < |s| { RunOfDigits(s, p + 1); }
  }

  lemma BreakIff(s: string, p: nat)
    requires AllDigits(s) && p < |s|
    ensures BreakBefore(s, p) <==> p > 0 && (|s| - p) % 3 == 0
  {
    RunOfDigits(s, p);
  }

  lemma GroupStep(s: string, p: nat, c: string)
    requires AllDigits(s) && p < |s|
    ensures GroupFrom(s, p, c)
         == (if p > 0 && (|s| - p) % 3 == 0 then c else "") + [s[p]] + GroupFrom(s, p + 1, c)
  {
    BreakIff(s, p);
  }

  lemma TakeFront(s: string)
    requires AllDigits(s) && |s| > 3
    ensures AllDigits(s[..|s| - 3])
  {}

  /** The last group, with its separator unless it is the only one. */
  lemma {:induction false} LastGroup(s: string, p: nat, c: string)
    requires AllDigits(s) && |s| > 3 && p <= |s| - 3
    ensures AllDigits(s[..|s| - 3])
    ensures GroupFrom(s, p, c) == GroupFrom(s[..|s| - 3], p, c) + c + s[|s| - 3..]
    decreases |s| - p
  {
    hide GroupFrom, AllDigits;
    var n, t := |s| - 3, s[..|s| - 3];
    TakeFront(s);
    if p == n {
      ThreeLeft(s, c);
      ShortGroupEnd(t, c);
      assert "" + c + s[n..] == c + s[n..];
    } else {
      LastGroup(s, p + 1, c);
      GroupStep(s, p, c);
      GroupStep(t, p, c);
      var mark := if p > 0 && (|s| - p) % 3 == 0 then c else "";
      var high := GroupFrom(t, p + 1, c);
      assert (|t| - p) % 3 == (|s| - p) % 3;
      assert mark + [s[p]] + (high + c + s[n..]) == (mark + [s[p]] + high) + c + s[n..];
    }
  }

  lemma ShortGroupEnd(t: string, c: string)
    ensures GroupFrom(t, |t|, c) == ""
  {}

  lemma ThreeLeft(s: string, c: string)
    requires AllDigits(s) && |s| > 3
    ensures GroupFrom(s, |s| - 3, c) == c + s[|s| - 3..]
  {
    hide BreakBefore;
    var n := |s| - 3;
    BreakIff(s, n);
    BreakIff(s, n + 1);
    BreakIff(s, n + 2);
    assert GroupFrom(s, n + 3, c) == "";
    assert GroupFrom(s, n + 2, c) == [s[n + 2]];
    assert GroupFrom(s, n + 1, c) == [s[n + 1], s[n + 2]];
    assert s[n..] == [s[n], s[n + 1], s[n + 2]];
  }

  lemma {:induction false} ShortGroup(s: string, p: nat, c: string)
    requires AllDigits(s) && |s| <= 3 && p <= |s|
    ensures GroupFrom(s, p, c) == s[p..]
    decreases |s| - p
  {
    hide BreakBefore;
    if p < |s| {
      BreakIff(s, p);
      ShortGroup(s, p + 1, c);
    }
  }

  /** The regular expression groups digits by threes from the right. */
  lemma {:induction false} GroupsByThrees(digits: string, c: string)
    requires AllDigits(digits)
    ensures GroupFrom(digits, 0, c) == ByThrees(digits, c)
  {
    hide BreakBefore;
    if |digits| <= 3 {
      ShortGroup(digits, 0, c);
      assert digits[0..] == digits;
    } else {
      LastGroup(digits, 0, c);
      GroupsByThrees(digits[..|digits| - 3], c);
    }
  }

  /**
   * What the field shows of a canonical value: its whole part by threes, between Latin commas or,
   * with Persian digits, Persian separators, and the point and decimals as they are.
   */
  lemma FieldShows(raw: string, decimal: bool, maxDecimals: Option<nat>)
    requires raw != "" && Canonical(raw, decimal, maxDecimals)
    ensures var dot := Find(raw, '.');
      && FormatNumericInput(raw, false, true) == ByThrees(raw[..dot], ",") + raw[dot..]
      && FormatNumericInput(raw, true, true) == ToPersianDigits(ByThrees(raw[..dot], "٬") + raw[dot..])
      && FormatNumericInput(raw, false, false) == raw
      && FormatNumericInput(raw, true, false) == ToPersianDigits(raw)
  {
    hide Rendering, ByThrees, GroupFrom;
    var dot := Find(raw, '.');
    WholeOfShaped(raw, decimal, maxDecimals);
    GroupsByThrees(raw[..dot], ",");
    GroupsByThrees(raw[..dot], "٬");
    RenderingOfShaped(raw, decimal, maxDecimals, false, true);
    RenderingOfShaped(raw, decimal, maxDecimals, true, true);
    RenderingOfShaped(raw, decimal, maxDecimals, false, false);
    RenderingOfShaped(raw, decimal, maxDecimals, true, false);
    assert raw[..dot] + raw[dot..] == raw;
  }

  /** A value that begins with its point is shown with a zero in front. */
  lemma FieldShowsZero(fraction: string, persian: bool, grouping: bool)
    ensures FormatNumericInput("." + fraction, persian, grouping)
         == FormatNumericInput("0." + fraction, persian, grouping)
  {
    hide GroupedWhole, SecondPart;
    var a, b := "." + fraction, "0." + fraction;
    assert a[1..] == fraction && b[2..] == fraction && b[..1] == "0";
    FindUnique(b, '.', 1);
    SameSecondPart(a, b);
  }

  lemma SameSecondPart(a: string, b: string)
    requires var i, j := Find(a, '.'), Find(b, '.'); i < |a| && j < |b| && a[i + 1..] == b[j + 1..]
    ensures SecondPart(a) == SecondPart(b)
  {}

  // ------------------------------------------------------------------ the caret

  lemma {:induction false} SignificantsConcat(a: string, b: string)
    ensures Significants(a + b) == Significants(a) + Significants(b)
  {
    hide IsSignificant;
    if b == "" {
      assert a + b == a;
    } else {
      SignificantsConcat(a, b[..|b| - 1]);
      assert (a + b)[..|a + b| - 1] == a + b[..|b| - 1];
    }
  }

  lemma {:induction false} MarksAreSignificant(s: string)
    requires forall i :: 0 <= i < |s| ==> IsMark(s[i])
    ensures Significants(s) == s
  {
    if s != "" {
      MarksAreSignificant(s[..|s| - 1]);
      assert s == s[..|s| - 1] + [s[|s| - 1]];
    }
  }

  lemma SeparatorsAreNot(c: string)
    requires IsSeparator(c)
    ensures Significants(c) == ""
  {
    assert c[..0] == "";
  }

  lemma {:induction false} GroupingSignificants(s: string, p: nat, c: string)
    requires AllDigits(s) && p <= |s| && IsSeparator(c)
    ensures Significants(GroupFrom(s, p, c)) == s[p..]
    decreases |s| - p
  {
    hide BreakBefore, Significants, IsSeparator;
    if p == |s| {
      MarksAreSignificant("");
    } else {
      var mark := if BreakBefore(s, p) then c else "";
      GroupingSignificants(s, p + 1, c);
      SeparatorsAreNot(c);
      MarksAreSignificant("");
      MarksAreSignificant([s[p]]);
      SignificantsConcat(mark + [s[p]], GroupFrom(s, p + 1, c));
      SignificantsConcat(mark, [s[p]]);
      assert s[p..] == [s[p]] + s[p + 1..];
    }
  }

  lemma {:induction false} PersianSignificants(s: string)
    ensures Significants(ToPersianDigits(s)) == ToPersianDigits(Significants(s))
  {
    if s != "" {
      var init, last := s[..|s| - 1], s[|s| - 1];
      PersianSignificants(init);
      assert ToPersianDigits(s)[..|s| - 1] == ToPersianDigits(init);
      assert IsSignificant(PersianDigit(last)) <==> IsSignificant(last);
    }
  }

  /** The value-carrying characters of a rendering are the canonical value's, in its script. */
  lemma FormatSignificants(raw: string, decimal: bool, maxDecimals: Option<nat>, persian: bool, grouping: bool)
    requires Canonical(raw, decimal, maxDecimals)
    ensures Significants(FormatNumericInput(raw, persian, grouping)) == if persian then ToPersianDigits(raw) else raw
  {
    hide Significants, Rendering, Shaped, NoExtraZero, KeepMarks, KeepDigits, Rendered;
    if raw == "" {
      NothingTyped(decimal, maxDecimals, persian, grouping);
      MarksAreSignificant("");
    } else {
      RenderingKeeps(raw, decimal, maxDecimals, persian, grouping);
      PersianSignificants(Rendering(raw, persian, grouping));
    }
  }

  lemma MarksAreLatin(s: string)
    requires forall i :: 0 <= i < |s| ==> IsMark(s[i])
    ensures ToLatinDigits(s) == s && ToLatinDigits(ToPersianDigits(s)) == s
  {
    RenderedIsLatin(s);
    LatinOfPersian(s);
  }

  /** The caret placed after k significant characters stands behind exactly the first k of the value, or behind all. */
  lemma CaretFollowsValue(
      raw: string, decimal: bool, maxDecimals: Option<nat>, persian: bool, grouping: bool, k: nat, caret: nat)
    requires Canonical(raw, decimal, maxDecimals)
    requires CaretAt(FormatNumericInput(raw, persian, grouping), k, caret)
    ensures ToLatinDigits(Significants(FormatNumericInput(raw, persian, grouping)[..caret])) == raw[..Min(k, |raw|)]
  {
    hide Significants, FormatNumericInput, Canonical, CaretAt;
    var f, n := FormatNumericInput(raw, persian, grouping), Min(k, |raw|);
    FormatSignificants(raw, decimal, maxDecimals, persian, grouping);
    CaretCounts(f, k, caret);
    SignificantsGrow(f, caret);
    assert Significants(f[..caret]) == Significants(f)[..n];
    assert ToPersianDigits(raw)[..n] == ToPersianDigits(raw[..n]);
    CanonicalIsShaped(raw, decimal, maxDecimals);
    CanonicalIsMarks(raw, decimal, maxDecimals);
    MarksAreLatin(raw[..n]);
  }

  lemma CanonicalIsShaped(raw: string, decimal: bool, maxDecimals: Option<nat>)
    requires Canonical(raw, decimal, maxDecimals)
    ensures Shaped(raw, decimal, maxDecimals)
  {}

  lemma CaretCounts(f: string, k: nat, caret: nat)
    requires CaretAt(f, k, caret)
    ensures caret <= |f| && |Significants(f[..caret])| == Min(k, |Significants(f)|)
  {}

  /** The value-carrying characters of typed text, in canonical spelling. */
  function Carried(text: string): string {
    MarksToDots(ToLatinDigits(Significants(text)))
  }

  lemma SignificantIff(c: char)
    ensures IsSignificant(c) <==> IsMark(MarkToDot(LatinDigit(c)))
  {}

  /** The caret and the normaliser agree on which characters carry value, in every script. */
  lemma {:induction false} CarriedIsKept(text: string)
    ensures Carried(text) == KeepMarks(MarksToDots(ToLatinDigits(text)))
  {
    hide IsSignificant, IsMark, KeepMarks, MarkToDot, LatinDigit;
    if text == "" {
      KeepNoMarks();
      assert ToLatinDigits("") == "" && MarksToDots("") == "";
    } else {
      var init, c := text[..|text| - 1], text[|text| - 1];
      var m := MarkToDot(LatinDigit(c));
      CarriedIsKept(init);
      SignificantIff(c);
      assert MarksToDots(ToLatinDigits(text)) == MarksToDots(ToLatinDigits(init)) + [m];
      KeepMarksConcat(MarksToDots(ToLatinDigits(init)), [m]);
      KeepNoMarks();
      KeepMarksStep(m, "");
      assert [m] + "" == [m];
      assert Significants(text) == Significants(init) + (if IsSignificant(c) then [c] else "");
      assert Carried(text) == Carried(init) + (if IsSignificant(c) then [m] else "");
    }
  }

  lemma CarriedPrefix(text: string, caret: nat)
    requires caret <= |text|
    ensures Carried(text[..caret]) <= Carried(text) && |Carried(text[..caret])| == |Significants(text[..caret])|
  {
    hide Significants;
    SignificantsGrow(text, caret);
  }

  /**
   * One keystroke: behind the new caret stand as many characters of the value as were
   * typed behind the old one, and they are the same ones exactly when what was typed up
   * to the caret is how the value begins.
   */
  lemma KeystrokeKeepsCaretIff(
      typed: string, before: nat, decimal: bool, maxDecimals: Option<nat>, persian: bool, grouping: bool, after: nat)
    requires before <= |typed|
    requires CaretAt(FormatNumericInput(Normalize(typed, decimal, maxDecimals), persian, grouping),
                     |Significants(typed[..before])|, after)
    ensures var raw, kept := Normalize(typed, decimal, maxDecimals), Carried(typed[..before]);
      var formatted := FormatNumericInput(raw, persian, grouping);
      && after <= |formatted|
      && Carried(formatted[..after]) == raw[..Min(|kept|, |raw|)]
      && (Carried(formatted[..after]) == kept <==> kept <= raw)
  {
    hide Significants, FormatNumericInput, Canonical, CaretAt, Normalize;
    var raw := Normalize(typed, decimal, maxDecimals);
    var f := FormatNumericInput(raw, persian, grouping);
    var k := |Significants(typed[..before])|;
    CarriedPrefix(typed, before);
    NormalizeIsCanonical(typed, decimal, maxDecimals);
    CaretFollowsValue(raw, decimal, maxDecimals, persian, grouping, k, after);
    FormatSignificants(raw, decimal, maxDecimals, persian, grouping);
    CaretCounts(f, k, after);
    CanonicalIsShaped(raw, decimal, maxDecimals);
    CanonicalIsMarks(raw, decimal, maxDecimals);
    RenderedIsLatin(raw[..Min(k, |raw|)]);
  }
}
