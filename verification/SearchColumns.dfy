/**
 * How the two sides of a search fit (`src/lib/searchText.ts`): when a column is found
 * by its own text, although only the query's digits and white space are changed.
 */
module SearchColumns {
  import opened DecimalText
  import opened Digits
  import opened PersianDigits
  import opened SearchText

  // ------------------------------------------------------------------ white space around and inside

  function NonSpaces(s: string): string {
    if s == "" then "" else (if IsSpace(s[0]) then "" else [s[0]]) + NonSpaces(s[1..])
  }

  predicate AllSpaces(s: string) {
    forall i :: 0 <= i < |s| ==> IsSpace(s[i])
  }

  lemma NonSpacesStep(c: char, rest: string)
    ensures NonSpaces([c] + rest) == (if IsSpace(c) then "" else [c]) + NonSpaces(rest)
  {
    assert ([c] + rest)[1..] == rest;
  }

  lemma {:induction false} NonSpacesConcat(a: string, b: string)
    ensures NonSpaces(a + b) == NonSpaces(a) + NonSpaces(b)
  {
    hide IsSpace;
    if a == "" {
      assert a + b == b;
    } else {
      NonSpacesConcat(a[1..], b);
      NonSpacesStep(a[0], a[1..]);
      NonSpacesStep(a[0], a[1..] + b);
      hide NonSpaces;
      assert a == [a[0]] + a[1..] && a + b == [a[0]] + (a[1..] + b);
    }
  }

  lemma {:induction false} NoneButSpaces(s: string)
    ensures NonSpaces(s) == "" <==> AllSpaces(s)
  {
    hide IsSpace;
    if s == "" {
    } else {
      NoneButSpaces(s[1..]);
      if AllSpaces(s[1..]) && IsSpace(s[0]) {
        forall i | 0 <= i < |s| ensures IsSpace(s[i]) { if i > 0 { assert s[i] == s[1..][i - 1]; } }
      }
      if AllSpaces(s) {
        forall i | 0 <= i < |s[1..]| ensures IsSpace(s[1..][i]) { assert s[1..][i] == s[i + 1]; }
      }
    }
  }

  lemma {:induction false} CollapseKeepsNonSpaces(s: string)
    ensures NonSpaces(CollapseSpaces(s)) == NonSpaces(s)
  {
    SpaceIsFolded();
    hide IsSpace;
    if s == "" {
    } else {
      CollapseKeepsNonSpaces(s[1..]);
      NonSpacesStep(s[0], CollapseSpaces(s[1..]));
      NonSpacesStep(' ', CollapseSpaces(s[1..]));
    }
  }

  lemma {:induction false} TrimStartKeepsNonSpaces(s: string)
    ensures NonSpaces(TrimStart(s)) == NonSpaces(s)
  {
    hide IsSpace;
    if s != "" && IsSpace(s[0]) {
      TrimStartKeepsNonSpaces(s[1..]);
    }
  }

  lemma {:induction false} TrimEndKeepsNonSpaces(s: string)
    ensures NonSpaces(TrimEnd(s)) == NonSpaces(s)
  {
    hide IsSpace;
    if s != "" && IsSpace(s[|s| - 1]) {
      var front, c := s[..|s| - 1], s[|s| - 1];
      TrimEndKeepsNonSpaces(front);
      NonSpacesConcat(front, [c]);
      NonSpacesStep(c, "");
      assert s == front + [c] && [c] + "" == [c];
    }
  }

  lemma {:induction false} TrimStartDrops(spaces: string, s: string)
    requires AllSpaces(spaces)
    ensures TrimStart(spaces + s) == TrimStart(s)
  {
    hide IsSpace;
    if spaces == "" {
      assert spaces + s == s;
    } else {
      TrimStartDrops(spaces[1..], s);
      assert (spaces + s)[1..] == spaces[1..] + s;
    }
  }

  lemma {:induction false} TrimEndDrops(s: string, spaces: string)
    requires AllSpaces(spaces)
    ensures TrimEnd(s + spaces) == TrimEnd(s)
  {
    hide IsSpace;
    if spaces == "" {
      assert s + spaces == s;
    } else {
      TrimEndDrops(s, spaces[..|spaces| - 1]);
      assert (s + spaces)[..|s + spaces| - 1] == s + spaces[..|spaces| - 1];
    }
  }

  /** Starts and ends with something other than white space. */
  predicate Trimmed(s: string) {
    s != "" ==> !IsSpace(s[0]) && !IsSpace(s[|s| - 1])
  }

  lemma TrimAround(before: string, s: string, after: string)
    requires AllSpaces(before) && AllSpaces(after) && Trimmed(s)
    ensures Trim(before + s + after) == s
  {
    hide IsSpace;
    assert before + s + after == before + (s + after);
    TrimStartDrops(before, s + after);
    if s == "" {
      assert s + after == after + "";
      TrimStartDrops(after, "");
    } else {
      assert TrimStart(s + after) == s + after;
      TrimEndDrops(s, after);
    }
  }

  lemma {:induction false} TrimStartCollapses(s: string)
    ensures TrimStart(CollapseSpaces(s)) == CollapseSpaces(TrimStart(s))
  {
    SpaceIsFolded();
    hide IsSpace;
    if s != "" && IsSpace(s[0]) {
      TrimStartCollapses(s[1..]);
      if !(|s| >= 2 && IsSpace(s[1])) {
        assert (" " + CollapseSpaces(s[1..]))[1..] == CollapseSpaces(s[1..]);
      }
    }
  }

  lemma CollapseStep(c: char, rest: string)
    ensures CollapseSpaces([c] + rest)
         == if !IsSpace(c) then [c] + CollapseSpaces(rest)
            else if rest != "" && IsSpace(rest[0]) then CollapseSpaces(rest)
            else " " + CollapseSpaces(rest)
  {
    hide IsSpace;
    assert ([c] + rest)[1..] == rest;
  }

  lemma CollapseNothing()
    ensures CollapseSpaces("") == ""
  {}

  lemma {:induction false} CollapseLast(s: string, c: char)
    ensures CollapseSpaces(s + [c])
         == if !IsSpace(c) then CollapseSpaces(s) + [c]
            else if s != "" && IsSpace(s[|s| - 1]) then CollapseSpaces(s)
            else CollapseSpaces(s) + " "
  {
    hide IsSpace, CollapseSpaces;
    CollapseNothing();
    if s == "" {
      assert s + [c] == [c] + "";
      CollapseStep(c, "");
    } else {
      var head, rest := s[0], s[1..];
      CollapseLast(rest, c);
      assert s == [head] + rest && s + [c] == [head] + (rest + [c]);
      CollapseStep(head, rest);
      CollapseStep(head, rest + [c]);
      assert rest != "" ==> rest[|rest| - 1] == s[|s| - 1];
    }
  }

  lemma TrimEndStep(s: string, c: char)
    ensures TrimEnd(s + [c]) == if IsSpace(c) then TrimEnd(s) else s + [c]
  {
    assert (s + [c])[..|s|] == s;
  }

  lemma {:induction false} TrimEndCollapses(s: string)
    ensures TrimEnd(CollapseSpaces(s)) == CollapseSpaces(TrimEnd(s))
  {
    SpaceIsFolded();
    hide IsSpace;
    if s == "" {
    } else {
      var front, c := s[..|s| - 1], s[|s| - 1];
      TrimEndCollapses(front);
      assert s == front + [c];
      CollapseLast(front, c);
      TrimEndStep(front, c);
      TrimEndStep(CollapseSpaces(front), c);
      TrimEndStep(CollapseSpaces(front), ' ');
    }
  }

  lemma TrimCollapses(s: string)
    ensures Trim(CollapseSpaces(s)) == CollapseSpaces(Trim(s))
  {
    hide CollapseSpaces, TrimStart, TrimEnd;
    TrimStartCollapses(s);
    TrimEndCollapses(TrimStart(s));
  }

  lemma {:induction false} CollapseKeepsSingle(s: string)
    requires SingleSpaces(s)
    ensures CollapseSpaces(s) == s
  {
    hide IsSpace;
    if s == "" {
    } else {
      var rest := s[1..];
      assert s == [s[0]] + rest;
      forall i | 0 <= i < |rest| && IsSpace(rest[i]) ensures rest[i] == ' ' { assert rest[i] == s[i + 1]; }
      forall i | 0 < i < |rest| && IsSpace(rest[i]) ensures !IsSpace(rest[i - 1]) {
        assert rest[i] == s[i + 1] && rest[i - 1] == s[i];
      }
      CollapseKeepsSingle(rest);
    }
  }

  // ------------------------------------------------------------------ the column and its own text

  predicate IsForeignDigit(c: char) {
    '۰' <= c <= '۹' || '٠' <= c <= '٩'
  }

  /** The same text, but for digits of another script in `a` where `b` has Latin ones. */
  predicate Aligned(a: string, b: string) {
    && |a| == |b|
    && forall i :: 0 <= i < |a| ==> a[i] == b[i] || (IsForeignDigit(a[i]) && IsDigit(b[i]))
  }

  lemma FoldedDigit(c: char)
    requires IsForeignDigit(c) || IsDigit(c)
    ensures FoldLetter(c) == c && !IsJoiner(c) && !IsSpace(c)
  {}

  /** White space in the same places of both. */
  predicate SameSpaces(a: string, b: string) {
    |a| == |b| && forall i :: 0 <= i < |a| ==> (IsSpace(a[i]) <==> IsSpace(b[i]))
  }

  lemma AlignedFolds(a: string, b: string)
    requires Aligned(a, b)
    ensures SameSpaces(Fold(a), Fold(b))
  {
    hide IsSpace, FoldLetter, IsJoiner;
    forall i | 0 <= i < |a| ensures IsSpace(Fold(a)[i]) <==> IsSpace(Fold(b)[i]) {
      if a[i] != b[i] {
        FoldedDigit(a[i]);
        FoldedDigit(b[i]);
      }
    }
  }

  lemma {:induction false} SameNonSpaces(a: string, b: string)
    requires SameSpaces(a, b)
    ensures |NonSpaces(a)| == |NonSpaces(b)|
    ensures NonSpaces(a) == NonSpaces(b) ==> forall i :: 0 <= i < |a| && !IsSpace(a[i]) ==> a[i] == b[i]
  {
    hide IsSpace;
    if a == "" {
    } else {
      forall i | 0 <= i < |a[1..]| ensures IsSpace(a[1..][i]) <==> IsSpace(b[1..][i]) {
        assert a[1..][i] == a[i + 1] && b[1..][i] == b[i + 1];
      }
      SameNonSpaces(a[1..], b[1..]);
      if NonSpaces(a) == NonSpaces(b) {
        if !IsSpace(a[0]) {
          assert NonSpaces(a)[0] == a[0] && NonSpaces(b)[0] == b[0];
          assert NonSpaces(a)[1..] == NonSpaces(a[1..]) && NonSpaces(b)[1..] == NonSpaces(b[1..]);
        } else {
          assert NonSpaces(a) == NonSpaces(a[1..]) && NonSpaces(b) == NonSpaces(b[1..]);
        }
        forall i | 0 <= i < |a| && !IsSpace(a[i]) ensures a[i] == b[i] {
          if i > 0 { assert a[i] == a[1..][i - 1] && b[i] == b[1..][i - 1]; }
        }
      }
    }
  }

  lemma AlignedEqual(a: string, b: string)
    requires Aligned(a, b) && NonSpaces(Fold(a)) == NonSpaces(Fold(b))
    ensures a == b
  {
    hide IsSpace, NonSpaces, FoldLetter, IsJoiner;
    AlignedFolds(a, b);
    SameNonSpaces(Fold(a), Fold(b));
    forall i | 0 <= i < |a| ensures a[i] == b[i] {
      if a[i] != b[i] {
        FoldedDigit(a[i]);
        FoldedDigit(b[i]);
      }
    }
  }

  /** What occurs in a text and has all its letters is the text without the white space around it. */
  lemma OccurrenceOfAll(text: string, part: string, i: int)
    requires OccursAt(text, part, i) && Trimmed(part) && |NonSpaces(part)| == |NonSpaces(text)|
    ensures part == Trim(text) && NonSpaces(part) == NonSpaces(text)
  {
    hide IsSpace, NonSpaces, Trim;
    var before, after := text[..i], text[i + |part|..];
    assert text == before + part + after;
    NonSpacesConcat(before + part, after);
    NonSpacesConcat(before, part);
    assert |NonSpaces(before)| == 0 && |NonSpaces(after)| == 0;
    assert NonSpaces(before) == "" && NonSpaces(after) == "";
    assert "" + NonSpaces(part) + "" == NonSpaces(part);
    NoneButSpaces(before);
    NoneButSpaces(after);
    TrimAround(before, part, after);
  }

  lemma TrimOccurs(s: string)
    ensures Contains(s, Trim(s))
  {
    hide IsSpace, TrimStart, TrimEnd;
    TrimStartIsSuffix(s);
    TrimEndIsPrefix(TrimStart(s));
    var i := |s| - |TrimStart(s)|;
    assert s[i..i + |Trim(s)|] == TrimStart(s)[..|Trim(s)|];
    assert OccursAt(s, Trim(s), i);
  }

  function Squeezed(s: string): string {
    Trim(CollapseSpaces(Fold(s)))
  }

  lemma SqueezedIsClean(s: string)
    ensures SingleSpaces(Squeezed(s)) && Trimmed(Squeezed(s)) && NonSpaces(Squeezed(s)) == NonSpaces(Fold(s))
  {
    hide CollapseSpaces, Fold, IsSpace, FoldLetter, IsJoiner, TrimStart, TrimEnd, NonSpaces;
    FoldFolds(s);
    CollapseIsSingle(Fold(s));
    CollapseKeepsNonSpaces(Fold(s));
    var c := CollapseSpaces(Fold(s));
    TrimStartIsSuffix(c);
    TrimEndIsPrefix(TrimStart(c));
    TrimStartKeepsNonSpaces(c);
    TrimEndKeepsNonSpaces(TrimStart(c));
  }

  lemma FoundIff(a: string, b: string)
    requires Aligned(a, b)
    ensures Contains(Fold(a), Squeezed(b)) <==> a == b && SingleSpaces(Trim(Fold(a)))
  {
    hide IsSpace, NonSpaces, Fold, CollapseSpaces, Trim, SingleSpaces, Aligned, SameSpaces, OccursAt;
    SqueezedIsClean(b);
    if Contains(Fold(a), Squeezed(b)) {
      var i :| 0 <= i <= |Fold(a)| && OccursAt(Fold(a), Squeezed(b), i);
      AlignedFolds(a, b);
      SameNonSpaces(Fold(a), Fold(b));
      OccurrenceOfAll(Fold(a), Squeezed(b), i);
      AlignedEqual(a, b);
    }
    if a == b && SingleSpaces(Trim(Fold(a))) {
      TrimCollapses(Fold(a));
      CollapseKeepsSingle(Trim(Fold(a)));
      TrimOccurs(Fold(a));
    }
  }

  /**
   * A column is found by its own text exactly when that text has no digit of another
   * script and, without the white space around it, only single spaces.
   */
  lemma ColumnFindsItselfIff(column: string, lower: string -> string)
    requires Aligned(lower(column), lower(ToLatinDigits(column)))
    ensures WellFormed(ContainsPattern(column, lower))
    ensures Like(NormalizedColumn(column, lower), ContainsPattern(column, lower))
       <==> lower(ToLatinDigits(column)) == lower(column) && SingleSpaces(Trim(NormalizedColumn(column, lower)))
  {
    hide Like, WellFormed, Contains, Aligned, SingleSpaces, Escape;
    MatchesIffContains(NormalizedColumn(column, lower), column, lower);
    FoundIff(lower(column), lower(ToLatinDigits(column)));
  }

  /** Lower-casing one character at a time. */
  function EachChar(f: char -> char): string -> string {
    (s: string) => seq(|s|, i requires 0 <= i < |s| => f(s[i]))
  }

  /** The same for a lower-casing by characters that leaves every digit alone, on the column itself. */
  lemma ColumnFindsItselfByCharacterIff(column: string, f: char -> char)
    requires forall c :: IsDigit(c) || IsForeignDigit(c) ==> f(c) == c
    ensures var lower := EachChar(f);
      && WellFormed(ContainsPattern(column, lower))
      && (Like(NormalizedColumn(column, lower), ContainsPattern(column, lower))
          <==> ToLatinDigits(column) == column && SingleSpaces(Trim(NormalizedColumn(column, lower))))
  {
    hide Like, WellFormed, ContainsPattern, NormalizedColumn, SingleSpaces, Trim;
    var lower, latin := EachChar(f), ToLatinDigits(column);
    forall i | 0 <= i < |column|
      ensures lower(column)[i] == lower(latin)[i] <==> latin[i] == column[i]
      ensures lower(column)[i] == lower(latin)[i] || (IsForeignDigit(lower(column)[i]) && IsDigit(lower(latin)[i]))
    {
      assert latin[i] == LatinDigit(column[i]);
      if !IsForeignDigit(column[i]) { assert latin[i] == column[i]; }
    }
    ColumnFindsItselfIff(column, lower);
    if lower(latin) == lower(column) {
      forall i | 0 <= i < |column| ensures latin[i] == column[i] {
        assert lower(latin)[i] == lower(column)[i];
      }
    }
  }

  /** So a number in Persian digits is not found by itself, */
  lemma PersianNumberMissesItself(number: string, lower: string -> string)
    requires number != "" && forall i :: 0 <= i < |number| ==> '۰' <= number[i] <= '۹'
    requires lower(number) == number && lower(ToLatinDigits(number)) == ToLatinDigits(number)
    ensures WellFormed(ContainsPattern(number, lower))
    ensures !Like(NormalizedColumn(number, lower), ContainsPattern(number, lower))
  {
    hide Like, WellFormed, ContainsPattern, NormalizedColumn, SingleSpaces, Trim;
    assert ToLatinDigits(number)[0] != number[0];
    ColumnFindsItselfIff(number, lower);
  }

  /** and one in Latin digits is. */
  lemma LatinNumberFindsItself(number: string, lower: string -> string)
    requires AllDigits(number) && lower(number) == number
    ensures WellFormed(ContainsPattern(number, lower))
    ensures Like(NormalizedColumn(number, lower), ContainsPattern(number, lower))
  {
    hide Like, WellFormed, ContainsPattern, IsSpace, FoldLetter, IsJoiner, TrimStart, TrimEnd;
    assert ToLatinDigits(number) == number;
    forall i | 0 <= i < |number| ensures !IsSpace(Fold(number)[i]) { FoldedDigit(number[i]); }
    TrimStartIsSuffix(Fold(number));
    TrimEndIsPrefix(TrimStart(Fold(number)));
    ColumnFindsItselfIff(number, lower);
  }

  // ------------------------------------------------------------------ one word on two keyboards

  /** Two spellings of one letter, or the same character. */
  predicate SameLetter(c: char, d: char) {
    c == d || (c in "يی" && d in "يی") || (c in "كک" && d in "كک") || (c in "أإآا" && d in "أإآا")
    || (c in " \U{200C}\U{200E}\U{200F}" && d in " \U{200C}\U{200E}\U{200F}")
  }

  /** One digit, in Latin, Persian or Arabic-Indic script. */
  predicate SameDigit(c: char, d: char) {
    exists k :: 0 <= k < 10 && c in ["0123456789"[k], "۰۱۲۳۴۵۶۷۸۹"[k], "٠١٢٣٤٥٦٧٨٩"[k]]
                            && d in ["0123456789"[k], "۰۱۲۳۴۵۶۷۸۹"[k], "٠١٢٣٤٥٦٧٨٩"[k]]
  }

  /** A lower-casing by characters that leaves these letters and marks, and the Latin digits, alone. */
  ghost predicate LeavesAlone(f: char -> char) {
    forall c :: c in "يیكکأإآا0123456789 \U{200C}\U{200E}\U{200F}" ==> f(c) == c
  }

  function FoldChar(c: char): char {
    if IsJoiner(FoldLetter(c)) then ' ' else FoldLetter(c)
  }

  lemma LettersFoldAlike(c: char, d: char, f: char -> char)
    requires SameLetter(c, d) && LeavesAlone(f)
    ensures FoldChar(f(c)) == FoldChar(f(d)) && FoldChar(f(LatinDigit(c))) == FoldChar(f(LatinDigit(d)))
  {
    if c != d {
      assert LatinDigit(c) == c && LatinDigit(d) == d;
      assert f(c) == c && f(d) == d;
    }
  }

  lemma DigitsReadAlike(c: char, d: char)
    requires SameDigit(c, d)
    ensures LatinDigit(c) == LatinDigit(d)
  {
    var k :| 0 <= k < 10 && c in ["0123456789"[k], "۰۱۲۳۴۵۶۷۸۹"[k], "٠١٢٣٤٥٦٧٨٩"[k]]
             && d in ["0123456789"[k], "۰۱۲۳۴۵۶۷۸۹"[k], "٠١٢٣٤٥٦٧٨٩"[k]];
    DigitOfScript(c, k);
    DigitOfScript(d, k);
  }

  lemma DigitOfScript(c: char, k: int)
    requires 0 <= k < 10 && c in ["0123456789"[k], "۰۱۲۳۴۵۶۷۸۹"[k], "٠١٢٣٤٥٦٧٨٩"[k]]
    ensures LatinDigit(c) == "0123456789"[k]
  {}

  /** Queries that differ in the spelling of letters, in marks and in the script of digits are one query. */
  lemma QueriesAreAlike(a: string, b: string, f: char -> char)
    requires |a| == |b| && LeavesAlone(f)
    requires forall i :: 0 <= i < |a| ==> SameLetter(a[i], b[i]) || SameDigit(a[i], b[i])
    ensures NormalizeSearch(a, EachChar(f)) == NormalizeSearch(b, EachChar(f))
  {
    var x, y := Fold(EachChar(f)(ToLatinDigits(a))), Fold(EachChar(f)(ToLatinDigits(b)));
    forall i | 0 <= i < |a| ensures x[i] == y[i] {
      assert x[i] == FoldChar(f(LatinDigit(a[i]))) && y[i] == FoldChar(f(LatinDigit(b[i])));
      if SameLetter(a[i], b[i]) { LettersFoldAlike(a[i], b[i], f); } else { DigitsReadAlike(a[i], b[i]); }
    }
    assert x == y;
  }

  /** And so are columns, except for the script of digits. */
  lemma ColumnsAreAlike(a: string, b: string, f: char -> char)
    requires |a| == |b| && LeavesAlone(f)
    requires forall i :: 0 <= i < |a| ==> SameLetter(a[i], b[i])
    ensures NormalizedColumn(a, EachChar(f)) == NormalizedColumn(b, EachChar(f))
  {
    var x, y := NormalizedColumn(a, EachChar(f)), NormalizedColumn(b, EachChar(f));
    forall i | 0 <= i < |a| ensures x[i] == y[i] {
      assert x[i] == FoldChar(f(a[i])) && y[i] == FoldChar(f(b[i]));
      LettersFoldAlike(a[i], b[i], f);
    }
    assert x == y;
  }
}
