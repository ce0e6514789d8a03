/**
 * The Persian number words of `src/lib/numberToWords.ts`, and how a word is recognised
 * again. No two of the words are spelled alike.
 */
module PersianWords {

  const ONES: seq<string> := [
    "", "یک", "دو", "سه", "چهار", "پنج", "شش", "هفت", "هشت", "نه", "ده", "یازده", "دوازده",
    "سیزده", "چهارده", "پانزده", "شانزده", "هفده", "هجده", "نوزده"
  ]

  const TENS: seq<string> := [
    "", "", "بیست", "سی", "چهل", "پنجاه", "شصت", "هفتاد", "هشتاد", "نود"
  ]

  const HUNDREDS: seq<string> := [
    "", "صد", "دویست", "سیصد", "چهارصد", "پانصد", "ششصد", "هفتصد", "هشتصد", "نهصد"
  ]

  const SCALES: seq<string> := [
    "", "هزار", "میلیون", "میلیارد", "بیلیون", "بیلیارد", "تریلیون", "تریلیارد", "کوادریلیون",
    "کوادریلیارد", "کوینتیلیون", "کوینتیلیارد", "سکستیلیون", "سکستیلیارد", "سپتیلیون", "سپتیلیارد",
    "اکتیلیون", "اکتیلیارد", "نونیلیون", "نونیلیارد", "دسیلیون"
  ]

  datatype Word = One(n: nat) | Ten(n: nat) | Hundred(n: nat) | Scale(n: nat) | And | Minus | Zero

  /** The words that have a spelling; a group past the last scale gets no scale word. */
  predicate IsWord(w: Word) {
    match w
    case One(n) => 1 <= n < 20
    case Ten(n) => 2 <= n < 10
    case Hundred(n) => 1 <= n < 10
    case Scale(n) => 1 <= n < |SCALES|
    case _ => true
  }

  function At(table: seq<string>, i: nat): string {
    if i < |table| then table[i] else ""
  }

  function Spell(w: Word): string {
    match w
    case One(n) => At(ONES, n)
    case Ten(n) => At(TENS, n)
    case Hundred(n) => At(HUNDREDS, n)
    case Scale(n) => At(SCALES, n)
    case And => "و"
    case Minus => "منفی"
    case Zero => "صفر"
  }

  /** The words of the language, as far as everyday amounts go. */
  lemma SmallVocabulary()
    ensures forall k :: 1 <= k <= 19 ==>
      Spell(One(k)) == ["یک", "دو", "سه", "چهار", "پنج", "شش", "هفت", "هشت", "نه", "ده", "یازده", "دوازده", "سیزده",
                        "چهارده", "پانزده", "شانزده", "هفده", "هجده", "نوزده"][k - 1]
  {}

  lemma LargeVocabulary()
    ensures forall k :: 2 <= k <= 9 ==>
      Spell(Ten(k)) == ["بیست", "سی", "چهل", "پنجاه", "شصت", "هفتاد", "هشتاد", "نود"][k - 2]
    ensures forall k :: 1 <= k <= 9 ==>
      Spell(Hundred(k)) == ["صد", "دویست", "سیصد", "چهارصد", "پانصد", "ششصد", "هفتصد", "هشتصد", "نهصد"][k - 1]
    ensures forall k :: 1 <= k <= 6 ==>
      Spell(Scale(k)) == ["هزار", "میلیون", "میلیارد", "بیلیون", "بیلیارد", "تریلیون"][k - 1]
  {}

  // ------------------------------------------------------------------ recognising a word

  /** The words that have a spelling, table by table. */
  function AllWords(): seq<Word> {
    seq(19, (i: nat) => One(i + 1)) + seq(8, (i: nat) => Ten(i + 2))
    + seq(9, (i: nat) => Hundred(i + 1)) + seq(20, (i: nat) => Scale(i + 1))
    + [And, Minus, Zero]
  }

  datatype Recognised = Known(word: Word) | Unknown

  function Search(token: string, words: seq<Word>): Recognised {
    if words == [] then Unknown
    else if Spell(words[0]) == token then Known(words[0])
    else Search(token, words[1..])
  }

  /** Looks a token up in the tables. */
  function Recognise(token: string): Recognised {
    Search(token, AllWords())
  }

  // ------------------------------------------------------------------ no two words are spelled alike

  function CharAt(s: string, i: nat): int {
    if i < |s| then s[i] as int else 0
  }

  /** A number that differs for any two of the words; only the proofs below look at it. */
  function Fingerprint(s: string): int {
    CharAt(s, 0) + CharAt(s, 1) + CharAt(s, 3) + CharAt(s, 4) + 2 * |s|
  }

  /** The left inverse that shows it: the word with this fingerprint. */
  function ByFingerprint(k: int): Word {
    if k == 1610 then And else if k == 3176 then Hundred(1) else if k == 3180 then One(6) else
    if k == 3183 then Ten(6) else if k == 3194 then One(10) else if k == 3195 then One(2) else
    if k == 3196 then Zero else if k == 3198 then One(3) else if k == 3201 then One(8) else
    if k == 3214 then One(7) else if k == 3217 then One(9) else if k == 3220 then Ten(9) else
    if k == 3274 then One(5) else if k == 3283 then Ten(4) else if k == 3331 then Ten(3) else
    if k == 3449 then One(1) else if k == 4767 then Hundred(6) else if k == 4786 then Scale(1) else
    if k == 4802 then One(18) else if k == 4804 then Hundred(9) else if k == 4823 then One(17) else
    if k == 4870 then One(4) else if k == 4902 then Ten(2) else if k == 4918 then Hundred(3) else
    if k == 4959 then Minus else if k == 6344 then One(16) else if k == 6363 then Ten(8) else
    if k == 6366 then Hundred(2) else if k == 6372 then One(12) else if k == 6376 then Ten(7) else
    if k == 6377 then Hundred(8) else if k == 6390 then Hundred(7) else if k == 6414 then One(19) else
    if k == 6418 then One(15) else if k == 6419 then Hundred(5) else if k == 6457 then One(14) else
    if k == 6460 then Ten(5) else if k == 6463 then Hundred(4) else if k == 6501 then Scale(8) else
    if k == 6503 then Scale(9) else if k == 6515 then One(11) else if k == 6517 then Scale(10) else
    if k == 6519 then Scale(11) else if k == 6521 then Scale(6) else if k == 6523 then Scale(7) else
    if k == 6527 then One(13) else if k == 6528 then Scale(20) else if k == 6574 then Scale(18) else
    if k == 6576 then Scale(19) else if k == 6609 then Scale(14) else if k == 6611 then Scale(15) else
    if k == 6628 then Scale(12) else if k == 6630 then Scale(13) else if k == 6640 then Scale(16) else
    if k == 6642 then Scale(17) else if k == 6645 then Scale(5) else if k == 6674 then Scale(3) else
    if k == 6676 then Scale(4) else
    Scale(2)
  }

  lemma LowOneHasFingerprint(n: nat)
    requires 1 <= n < 11
    ensures ByFingerprint(Fingerprint(Spell(One(n)))) == One(n) && Plain(Spell(One(n)))
  {
    if n == 1 {
      assert Spell(One(1)) == "یک";
    } else if n == 2 {
      assert Spell(One(2)) == "دو";
    } else if n == 3 {
      assert Spell(One(3)) == "سه";
    } else if n == 4 {
      assert Spell(One(4)) == "چهار";
    } else if n == 5 {
      assert Spell(One(5)) == "پنج";
    } else if n == 6 {
      assert Spell(One(6)) == "شش";
    } else if n == 7 {
      assert Spell(One(7)) == "هفت";
    } else if n == 8 {
      assert Spell(One(8)) == "هشت";
    } else if n == 9 {
      assert Spell(One(9)) == "نه";
    } else {
      assert Spell(One(10)) == "ده";
    }
  }

  lemma HighOneHasFingerprint(n: nat)
    requires 11 <= n < 20
    ensures ByFingerprint(Fingerprint(Spell(One(n)))) == One(n) && Plain(Spell(One(n)))
  {
    if n == 11 {
      assert Spell(One(11)) == "یازده";
    } else if n == 12 {
      assert Spell(One(12)) == "دوازده";
    } else if n == 13 {
      assert Spell(One(13)) == "سیزده";
    } else if n == 14 {
      assert Spell(One(14)) == "چهارده";
    } else if n == 15 {
      assert Spell(One(15)) == "پانزده";
    } else if n == 16 {
      assert Spell(One(16)) == "شانزده";
    } else if n == 17 {
      assert Spell(One(17)) == "هفده";
    } else if n == 18 {
      assert Spell(One(18)) == "هجده";
    } else {
      assert Spell(One(19)) == "نوزده";
    }
  }

  lemma TenHasFingerprint(n: nat)
    requires 2 <= n < 10
    ensures ByFingerprint(Fingerprint(Spell(Ten(n)))) == Ten(n) && Plain(Spell(Ten(n)))
  {
    if n == 2 {
      assert Spell(Ten(2)) == "بیست";
    } else if n == 3 {
      assert Spell(Ten(3)) == "سی";
    } else if n == 4 {
      assert Spell(Ten(4)) == "چهل";
    } else if n == 5 {
      assert Spell(Ten(5)) == "پنجاه";
    } else if n == 6 {
      assert Spell(Ten(6)) == "شصت";
    } else if n == 7 {
      assert Spell(Ten(7)) == "هفتاد";
    } else if n == 8 {
      assert Spell(Ten(8)) == "هشتاد";
    } else {
      assert Spell(Ten(9)) == "نود";
    }
  }

  lemma HundredHasFingerprint(n: nat)
    requires 1 <= n < 10
    ensures ByFingerprint(Fingerprint(Spell(Hundred(n)))) == Hundred(n) && Plain(Spell(Hundred(n)))
  {
    if n == 1 {
      assert Spell(Hundred(1)) == "صد";
    } else if n == 2 {
      assert Spell(Hundred(2)) == "دویست";
    } else if n == 3 {
      assert Spell(Hundred(3)) == "سیصد";
    } else if n == 4 {
      assert Spell(Hundred(4)) == "چهارصد";
    } else if n == 5 {
      assert Spell(Hundred(5)) == "پانصد";
    } else if n == 6 {
      assert Spell(Hundred(6)) == "ششصد";
    } else if n == 7 {
      assert Spell(Hundred(7)) == "هفتصد";
    } else if n == 8 {
      assert Spell(Hundred(8)) == "هشتصد";
    } else {
      assert Spell(Hundred(9)) == "نهصد";
    }
  }

  lemma FirstScaleHasFingerprint(n: nat)
    requires 1 <= n < 6
    ensures ByFingerprint(Fingerprint(Spell(Scale(n)))) == Scale(n) && Plain(Spell(Scale(n)))
  {
    if n == 1 {
      assert Spell(Scale(1)) == "هزار";
    } else if n == 2 {
      assert Spell(Scale(2)) == "میلیون";
    } else if n == 3 {
      assert Spell(Scale(3)) == "میلیارد";
    } else if n == 4 {
      assert Spell(Scale(4)) == "بیلیون";
    } else {
      assert Spell(Scale(5)) == "بیلیارد";
    }
  }

  lemma SecondScaleHasFingerprint(n: nat)
    requires 6 <= n < 11
    ensures ByFingerprint(Fingerprint(Spell(Scale(n)))) == Scale(n) && Plain(Spell(Scale(n)))
  {
    if n == 6 {
      assert Spell(Scale(6)) == "تریلیون";
    } else if n == 7 {
      assert Spell(Scale(7)) == "تریلیارد";
    } else if n == 8 {
      assert Spell(Scale(8)) == "کوادریلیون";
    } else if n == 9 {
      assert Spell(Scale(9)) == "کوادریلیارد";
    } else {
      assert Spell(Scale(10)) == "کوینتیلیون";
    }
  }

  lemma ThirdScaleHasFingerprint(n: nat)
    requires 11 <= n < 16
    ensures ByFingerprint(Fingerprint(Spell(Scale(n)))) == Scale(n) && Plain(Spell(Scale(n)))
  {
    if n == 11 {
      assert Spell(Scale(11)) == "کوینتیلیارد";
    } else if n == 12 {
      assert Spell(Scale(12)) == "سکستیلیون";
    } else if n == 13 {
      assert Spell(Scale(13)) == "سکستیلیارد";
    } else if n == 14 {
      assert Spell(Scale(14)) == "سپتیلیون";
    } else {
      assert Spell(Scale(15)) == "سپتیلیارد";
    }
  }

  lemma LastScaleHasFingerprint(n: nat)
    requires 16 <= n < 21
    ensures ByFingerprint(Fingerprint(Spell(Scale(n)))) == Scale(n) && Plain(Spell(Scale(n)))
  {
    if n == 16 {
      assert Spell(Scale(16)) == "اکتیلیون";
    } else if n == 17 {
      assert Spell(Scale(17)) == "اکتیلیارد";
    } else if n == 18 {
      assert Spell(Scale(18)) == "نونیلیون";
    } else if n == 19 {
      assert Spell(Scale(19)) == "نونیلیارد";
    } else {
      assert Spell(Scale(20)) == "دسیلیون";
    }
  }

  /** Words are never empty and never contain a space. */
  predicate Plain(s: string) {
    s != [] && forall i :: 0 <= i < |s| ==> s[i] != ' '
  }

  lemma HasFingerprint(w: Word)
    requires IsWord(w)
    ensures ByFingerprint(Fingerprint(Spell(w))) == w && Plain(Spell(w))
  {
    match w {
      case One(n) => if n < 11 { LowOneHasFingerprint(n); } else { HighOneHasFingerprint(n); }
      case Ten(n) => TenHasFingerprint(n);
      case Hundred(n) => HundredHasFingerprint(n);
      case Scale(n) =>
        if n < 6 { FirstScaleHasFingerprint(n); }
        else if n < 11 { SecondScaleHasFingerprint(n); }
        else if n < 16 { ThirdScaleHasFingerprint(n); }
        else { LastScaleHasFingerprint(n); }
      case _ =>
    }
  }

  lemma SpellIsInjective(v: Word, w: Word)
    requires IsWord(v) && IsWord(w) && Spell(v) == Spell(w)
    ensures v == w
  {
    hide ByFingerprint, Fingerprint, Spell, IsWord;
    HasFingerprint(v);
    HasFingerprint(w);
  }

  lemma {:induction false} SearchFinds(token: string, words: seq<Word>)
    ensures Search(token, words).Known? ==>
      Search(token, words).word in words && Spell(Search(token, words).word) == token
    ensures Search(token, words).Unknown? ==> forall w :: w in words ==> Spell(w) != token
  {
    hide Spell;
    if words == [] {
    } else {
      SearchFinds(token, words[1..]);
      assert words == [words[0]] + words[1..];
    }
  }

  /** The search runs over exactly the words that have a spelling. */
  lemma AllWordsListed(w: Word)
    ensures w in AllWords() <==> IsWord(w)
  {
    var ones, tens := seq(19, (i: nat) => One(i + 1)), seq(8, (i: nat) => Ten(i + 2));
    var hundreds, scales := seq(9, (i: nat) => Hundred(i + 1)), seq(20, (i: nat) => Scale(i + 1));
    if IsWord(w) {
      match w {
        case One(n) => assert ones[n - 1] == w;
        case Ten(n) => assert tens[n - 2] == w;
        case Hundred(n) => assert hundreds[n - 1] == w;
        case Scale(n) => assert scales[n - 1] == w;
        case _ => assert w in [And, Minus, Zero];
      }
      assert w in ones || w in tens || w in hundreds || w in scales || w in [And, Minus, Zero];
    }
  }

  /** A token is recognised as a word exactly when it is that word's spelling. */
  lemma RecogniseIff(token: string, w: Word)
    ensures Recognise(token) == Known(w) <==> IsWord(w) && token == Spell(w)
  {
    hide Spell, IsWord, Search, AllWords;
    SearchFinds(token, AllWords());
    AllWordsListed(w);
    if Recognise(token).Known? {
      AllWordsListed(Recognise(token).word);
      if IsWord(w) && token == Spell(w) { SpellIsInjective(w, Recognise(token).word); }
    }
  }
}
