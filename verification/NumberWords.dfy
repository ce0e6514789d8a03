/** Numbers in Persian words (`src/lib/numberToWords.ts`). */
module NumberWords {
  import opened Arith
  import opened DecimalText
  import opened Digits
  import opened Options
  import opened PersianDigits
  import opened PersianWords
  import Sorting

  const AND_SEPARATOR := " و "

  function Join(parts: seq<string>, separator: string): string {
    if parts == [] then ""
    else if |parts| == 1 then parts[0]
    else parts[0] + separator + Join(parts[1..], separator)
  }

  function SpellAll(words: seq<Word>): seq<string> {
    Sorting.Map(Spell, words)
  }

  // ------------------------------------------------------------------ one group of three digits

  function TensAndOnes(rest: nat): seq<Word> {
    if rest == 0 then []
    else if rest < 20 then [One(rest)]
    else [Ten(rest / 10)] + (if rest % 10 > 0 then [One(rest % 10)] else [])
  }

  function Parts(n: nat): seq<Word> {
    (if n / 100 > 0 then [Hundred(n / 100)] else []) + TensAndOnes(n % 100)
  }

  method ThreeDigitsToWords(n: nat) returns (words: string)
    requires n < 1000
    ensures words == Join(SpellAll(Parts(n)), AND_SEPARATOR)
  {
    var parts: seq<string> := [];
    var hundreds, rest := n / 100, n % 100;
    if hundreds > 0 { parts := parts + [HUNDREDS[hundreds]]; }
    if rest > 0 {
      if rest < 20 {
        parts := parts + [ONES[rest]];
      } else {
        var tens, ones := rest / 10, rest % 10;
        parts := parts + [TENS[tens]];
        if ones > 0 { parts := parts + [ONES[ones]]; }
      }
    }
    assert parts == SpellAll(Parts(n));
    words := Join(parts, AND_SEPARATOR);
  }

  // ------------------------------------------------------------------ all the groups

  datatype Group = Group(value: nat, scale: string)

  function GroupText(g: Group): string {
    var text := Join(SpellAll(Parts(g.value)), AND_SEPARATOR);
    if g.scale != "" then text + " " + g.scale else text
  }

  /** The non-zero groups, highest first; `i` counts the groups below. */
  function Groups(n: nat, i: nat): seq<Group> {
    if n == 0 then []
    else Groups(n / 1000, i + 1) + (if n % 1000 > 0 then [Group(n % 1000, At(SCALES, i))] else [])
  }

  function InWords(n: nat): string {
    if n == 0 then "صفر" else Join(Sorting.Map(GroupText, Groups(n, 0)), AND_SEPARATOR)
  }

  function Reverse<T>(s: seq<T>): (r: seq<T>)
    ensures |r| == |s| && forall i :: 0 <= i < |s| ==> r[i] == s[|s| - 1 - i]
  {
    seq(|s|, i requires 0 <= i < |s| => s[|s| - 1 - i])
  }

  method CollectGroups(n: nat) returns (groups: seq<Group>)
    ensures groups == Groups(n, 0)
    ensures forall k :: 0 <= k < |groups| ==> groups[k].value < 1000
  {
    hide At;
    groups := [];
    var value, index := n, 0;
    while value > 0
      invariant Groups(n, 0) == Groups(value, index) + Reverse(groups)
      invariant forall k :: 0 <= k < |groups| ==> groups[k].value < 1000
    {
      var group := value % 1000;
      ghost var before := groups;
      if group > 0 {
        groups := groups + [Group(group, At(SCALES, index))];
        assert Reverse(groups) == [Group(group, At(SCALES, index))] + Reverse(before);
      }
      value := value / 1000;
      index := index + 1;
    }
    assert Groups(n, 0) == Reverse(groups);
    groups := Reverse(groups);
  }

  method IntegerToWords(n: nat) returns (words: string)
    ensures words == InWords(n)
  {
    hide Parts, Join, SpellAll, Groups;
    if n == 0 { return "صفر"; }
    var groups := CollectGroups(n);
    var texts: seq<string> := [];
    for k := 0 to |groups|
      invariant texts == Sorting.Map(GroupText, groups[..k])
    {
      var text := ThreeDigitsToWords(groups[k].value);
      assert groups[..k + 1] == groups[..k] + [groups[k]];
      texts := texts + [if groups[k].scale != "" then text + " " + groups[k].scale else text];
    }
    assert groups[..|groups|] == groups;
    words := Join(texts, AND_SEPARATOR);
  }

  // ------------------------------------------------------------------ from typed text

  /** The Persian and Latin separators and the Arabic comma; the Persian decimal separator is among them. */
  predicate IsSeparator(c: char) {
    c in "،,٬٫" || IsSpace(c)
  }

  function RemoveSeparators(s: string): string {
    if s == "" then "" else (if IsSeparator(s[0]) then "" else [s[0]]) + RemoveSeparators(s[1..])
  }

  function NumberToPersianWords(value: string): Option<string> {
    var raw := ToLatinDigits(Trim(value));
    if raw == "" then None
    else
      var negative := raw[0] in "-−";
      var cleaned := RemoveSeparators(if negative then raw[1..] else raw);
      var digits := KeepDigits(cleaned[..Find(cleaned, '.')]);
      if digits == "" then None
      else
        var n := Value(digits);
        if n == 0 then (if negative then None else Some("صفر"))
        else Some(if negative then "منفی " + InWords(n) else InWords(n))
  }
}
