/**
 * Text search (`src/lib/searchText.ts`): the normalised query, its LIKE pattern, and
 * pattern matching as section 9.7.1 of the PostgreSQL manual defines it with a
 * backslash as the escape character. Lower-casing is a parameter.
 */
module SearchText {
  import opened DecimalText
  import opened Digits
  import opened PersianDigits

  // ------------------------------------------------------------------ normalising

  function FoldLetter(c: char): char {
    if c == 'ي' then 'ی'
    else if c == 'ك' then 'ک'
    else if c == 'أ' || c == 'إ' || c == 'آ' then 'ا'
    else c
  }

  /** The zero-width non-joiner and the two direction marks. */
  predicate IsJoiner(c: char) {
    c == '\U{200C}' || c == '\U{200E}' || c == '\U{200F}'
  }

  function Fold(s: string): (t: string)
    ensures |t| == |s|
    ensures forall i :: 0 <= i < |s| ==> t[i] == if IsJoiner(FoldLetter(s[i])) then ' ' else FoldLetter(s[i])
  {
    seq(|s|, i requires 0 <= i < |s| => if IsJoiner(FoldLetter(s[i])) then ' ' else FoldLetter(s[i]))
  }

  /** Each run of white space becomes one space. */
  function CollapseSpaces(s: string): string {
    if s == "" then ""
    else if !IsSpace(s[0]) then [s[0]] + CollapseSpaces(s[1..])
    else if |s| >= 2 && IsSpace(s[1]) then CollapseSpaces(s[1..])
    else " " + CollapseSpaces(s[1..])
  }

  function NormalizeSearch(input: string, lower: string -> string): string {
    Trim(CollapseSpaces(Fold(lower(ToLatinDigits(input)))))
  }

  /** The column's side of a search, with the database's own lower-casing. */
  function NormalizedColumn(column: string, lower: string -> string): string {
    Fold(lower(column))
  }

  // ------------------------------------------------------------------ patterns

  predicate IsPatternChar(c: char) {
    c == '\\' || c == '%' || c == '_'
  }

  function EscapedChar(c: char): string {
    if IsPatternChar(c) then ['\\', c] else [c]
  }

  function Escape(s: string): string {
    if s == "" then "" else EscapedChar(s[0]) + Escape(s[1..])
  }

  function ContainsPattern(query: string, lower: string -> string): string {
    "%" + Escape(NormalizeSearch(query, lower)) + "%"
  }

  /** A pattern ending in a lone escape character is an error. */
  predicate WellFormed(pattern: string) {
    pattern == ""
    || (if pattern[0] == '\\' then |pattern| >= 2 && WellFormed(pattern[2..]) else WellFormed(pattern[1..]))
  }

  predicate Like(text: string, pattern: string)
    requires WellFormed(pattern)
    decreases |pattern|, |text|
  {
    if pattern == "" then text == ""
    else if pattern[0] == '%' then Like(text, pattern[1..]) || (text != "" && Like(text[1..], pattern))
    else if pattern[0] == '_' then text != "" && Like(text[1..], pattern[1..])
    else if pattern[0] == '\\' then text != "" && text[0] == pattern[1] && Like(text[1..], pattern[2..])
    else text != "" && text[0] == pattern[0] && Like(text[1..], pattern[1..])
  }

  predicate OccursAt(text: string, part: string, i: int) {
    0 <= i && i + |part| <= |text| && text[i..i + |part|] == part
  }

  predicate Contains(text: string, part: string) {
    exists i :: 0 <= i <= |text| && OccursAt(text, part, i)
  }

  // ------------------------------------------------------------------ the pattern finds exactly the query

  lemma LikeStep(text: string, c: char, rest: string)
    requires WellFormed(rest)
    ensures WellFormed(EscapedChar(c) + rest)
    ensures Like(text, EscapedChar(c) + rest) <==> text != "" && text[0] == c && Like(text[1..], rest)
  {
    var p := EscapedChar(c) + rest;
    if IsPatternChar(c) {
      assert p[2..] == rest;
    } else {
      assert p[1..] == rest;
    }
  }

  lemma EscapeStep(s: string, rest: string)
    requires s != ""
    ensures Escape(s) + rest == EscapedChar(s[0]) + (Escape(s[1..]) + rest)
  {}

  lemma {:induction false} EscapeIsWellFormed(s: string, rest: string)
    requires WellFormed(rest)
    ensures WellFormed(Escape(s) + rest)
  {
    if s == "" {
      assert Escape(s) + rest == rest;
    } else {
      EscapeIsWellFormed(s[1..], rest);
      hide Escape, WellFormed, EscapedChar;
      EscapeStep(s, rest);
      LikeStep("", s[0], Escape(s[1..]) + rest);
    }
  }

  lemma {:induction false} AnyTextMatches(text: string)
    ensures WellFormed("%") && Like(text, "%")
  {
    assert "%"[1..] == "";
    if text != "" { AnyTextMatches(text[1..]); }
  }

  /** An escaped text followed by a percent sign matches what starts with the text. */
  lemma {:induction false} EscapedPrefix(text: string, part: string)
    ensures WellFormed("%") && WellFormed(Escape(part) + "%")
    ensures Like(text, Escape(part) + "%") <==> part <= text
  {
    AnyTextMatches(text);
    EscapeIsWellFormed(part, "%");
    if part == "" {
      assert Escape(part) + "%" == "%";
    } else {
      EscapeIsWellFormed(part[1..], "%");
      LikeStep(text, part[0], Escape(part[1..]) + "%");
      EscapeStep(part, "%");
      hide Escape, WellFormed, Like;
      if text != "" {
        EscapedPrefix(text[1..], part[1..]);
        assert part <= text <==> text[0] == part[0] && part[1..] <= text[1..];
      }
    }
  }

  lemma OccursLater(text: string, part: string, i: int)
    requires text != "" && i > 0
    ensures OccursAt(text, part, i) <==> OccursAt(text[1..], part, i - 1)
  {
    if 0 <= i && i + |part| <= |text| {
      assert text[1..][i - 1..i - 1 + |part|] == text[i..i + |part|];
    }
  }

  lemma ContainsStep(text: string, part: string)
    ensures Contains(text, part) <==> part <= text || (text != "" && Contains(text[1..], part))
  {
    assert OccursAt(text, part, 0) <==> part <= text;
    if Contains(text, part) && !(part <= text) {
      var i :| 0 <= i <= |text| && OccursAt(text, part, i);
      OccursLater(text, part, i);
    }
    if text != "" && Contains(text[1..], part) {
      var i :| 0 <= i <= |text[1..]| && OccursAt(text[1..], part, i);
      OccursLater(text, part, i + 1);
    }
  }

  lemma PatternSplit(part: string)
    ensures WellFormed("%" + Escape(part) + "%") && WellFormed(Escape(part) + "%")
    ensures ("%" + Escape(part) + "%")[1..] == Escape(part) + "%"
  {
    AnyTextMatches("");
    EscapeIsWellFormed(part, "%");
    assert "%" + Escape(part) + "%" == "%" + (Escape(part) + "%");
  }

  lemma PercentStep(text: string, part: string)
    ensures WellFormed("%" + Escape(part) + "%") && WellFormed(Escape(part) + "%")
    ensures Like(text, "%" + Escape(part) + "%")
       <==> Like(text, Escape(part) + "%") || (text != "" && Like(text[1..], "%" + Escape(part) + "%"))
  {
    PatternSplit(part);
  }

  lemma {:induction false} EscapedAnywhere(text: string, part: string)
    ensures WellFormed("%" + Escape(part) + "%")
    ensures Like(text, "%" + Escape(part) + "%") <==> Contains(text, part)
    decreases |text|
  {
    PercentStep(text, part);
    EscapedPrefix(text, part);
    ContainsStep(text, part);
    if text != "" { EscapedAnywhere(text[1..], part); }
  }

  /** A text matches the pattern of a query exactly when the normalised query occurs in it, whatever its characters. */
  lemma MatchesIffContains(text: string, query: string, lower: string -> string)
    ensures WellFormed(ContainsPattern(query, lower))
    ensures Like(text, ContainsPattern(query, lower)) <==> Contains(text, NormalizeSearch(query, lower))
  {
    EscapedAnywhere(text, NormalizeSearch(query, lower));
  }

  // ------------------------------------------------------------------ the two sides of a search

  /** No letter that has another spelling, and no white space but single spaces. */
  predicate Folded(s: string) {
    forall i :: 0 <= i < |s| ==> FoldLetter(s[i]) == s[i] && !IsJoiner(s[i])
  }

  predicate SingleSpaces(s: string) {
    && (forall i :: 0 <= i < |s| && IsSpace(s[i]) ==> s[i] == ' ')
    && (forall i :: 0 < i < |s| && IsSpace(s[i]) ==> !IsSpace(s[i - 1]))
  }

  lemma FoldFolds(s: string)
    ensures Folded(Fold(s))
  {}

  lemma PrependSingle(c: char, t: string)
    requires Folded(t) && SingleSpaces(t) && FoldLetter(c) == c && !IsJoiner(c)
    requires IsSpace(c) ==> c == ' ' && (t != "" ==> !IsSpace(t[0]))
    ensures Folded([c] + t) && SingleSpaces([c] + t)
  {
    hide IsSpace, FoldLetter, IsJoiner;
  }

  lemma {:induction false} CollapseIsSingle(s: string)
    requires Folded(s)
    ensures var t := CollapseSpaces(s);
      && Folded(t) && SingleSpaces(t) && (t == "" <==> s == "")
      && (s != "" ==> (IsSpace(t[0]) <==> IsSpace(s[0])))
  {
    hide IsSpace, FoldLetter, IsJoiner, SingleSpaces;
    SpaceIsFolded();
    if s == "" {
      EmptyIsSingle();
    } else {
      CollapseIsSingle(s[1..]);
      if !IsSpace(s[0]) {
        PrependSingle(s[0], CollapseSpaces(s[1..]));
      } else if !(|s| >= 2 && IsSpace(s[1])) {
        PrependSingle(' ', CollapseSpaces(s[1..]));
      }
    }
  }

  lemma EmptyIsSingle()
    ensures SingleSpaces("")
  {}

  lemma SpaceIsFolded()
    ensures IsSpace(' ') && FoldLetter(' ') == ' ' && !IsJoiner(' ')
  {}

  lemma {:induction false} TrimStartIsSuffix(s: string)
    ensures |TrimStart(s)| <= |s| && TrimStart(s) == s[|s| - |TrimStart(s)|..]
    ensures TrimStart(s) != "" ==> !IsSpace(TrimStart(s)[0])
  {
    hide IsSpace;
    if s != "" && IsSpace(s[0]) { TrimStartIsSuffix(s[1..]); }
  }

  lemma {:induction false} TrimEndIsPrefix(s: string)
    ensures |TrimEnd(s)| <= |s| && TrimEnd(s) == s[..|TrimEnd(s)|]
    ensures TrimEnd(s) != "" ==> !IsSpace(TrimEnd(s)[|TrimEnd(s)| - 1])
  {
    hide IsSpace;
    if s != "" && IsSpace(s[|s| - 1]) { TrimEndIsPrefix(s[..|s| - 1]); }
  }

  /** Whatever is searched for, the query has one spelling of each letter and single inner spaces. */
  lemma QueryIsClean(query: string, lower: string -> string)
    ensures var n := NormalizeSearch(query, lower);
      && Folded(n) && SingleSpaces(n)
      && (n != "" ==> !IsSpace(n[0]) && !IsSpace(n[|n| - 1]))
  {
    hide CollapseSpaces, Fold, IsSpace, FoldLetter, IsJoiner, TrimStart, TrimEnd;
    var s := Fold(lower(ToLatinDigits(query)));
    FoldFolds(lower(ToLatinDigits(query)));
    CollapseIsSingle(s);
    TrimStartIsSuffix(CollapseSpaces(s));
    TrimEndIsPrefix(TrimStart(CollapseSpaces(s)));
  }
}
