/** Reading the words back: how far the printer of `numberToWords.ts` is faithful. */
module NumberWordsLaws {
  import opened Arith
  import opened DecimalText
  import opened Digits
  import opened NumberWords
  import opened Options
  import opened PersianDigits
  import opened PersianWords
  import Sorting

  // ------------------------------------------------------------------ the reader

  /** Text between single spaces. */
  function Split(s: string): seq<string>
    decreases |s|
  {
    var i := Find(s, ' ');
    if i == |s| then [s] else [s[..i]] + Split(s[i + 1..])
  }

  function RecogniseAll(tokens: seq<string>): Option<seq<Word>> {
    if tokens == [] then Some([])
    else
      var rest := RecogniseAll(tokens[1..]);
      if Recognise(tokens[0]).Known? && rest.Some? then Some([Recognise(tokens[0]).word] + rest.value) else None
  }

  function Thousand(i: nat): (p: nat)
    ensures p > 0
  {
    if i == 0 then 1 else 1000 * Thousand(i - 1)
  }

  /** What has been multiplied by its scale, and the group being read. */
  datatype Reading = Reading(total: nat, current: nat)

  function ReadWord(r: Reading, w: Word): Reading {
    match w
    case One(n) => r.(current := r.current + n)
    case Ten(n) => r.(current := r.current + n * 10)
    case Hundred(n) => r.(current := r.current + n * 100)
    case Scale(n) => Reading(r.total + r.current * Thousand(n), 0)
    case _ => r
  }

  function ReadWords(r: Reading, words: seq<Word>): Reading {
    if words == [] then r else ReadWord(ReadWords(r, words[..|words| - 1]), words[|words| - 1])
  }

  const NOTHING := Reading(0, 0)

  function Total(r: Reading): nat {
    r.total + r.current
  }

  function Read(text: string): Option<int> {
    match RecogniseAll(Split(text))
    case None => None
    case Some(words) =>
      var negative := words != [] && words[0] == Minus;
      var size: int := Total(ReadWords(NOTHING, if negative then words[1..] else words));
      Some(if negative then -size else size)
  }

  lemma {:induction false} ReadConcat(r: Reading, a: seq<Word>, b: seq<Word>)
    ensures ReadWords(r, a + b) == ReadWords(ReadWords(r, a), b)
  {
    hide ReadWord;
    if b == [] {
      assert a + b == a;
    } else {
      ReadConcat(r, a, b[..|b| - 1]);
      assert (a + b)[..|a + b| - 1] == a + b[..|b| - 1];
    }
  }

  lemma ReadStep(r: Reading, words: seq<Word>, w: Word)
    ensures ReadWords(r, words + [w]) == ReadWord(ReadWords(r, words), w)
  {
    assert (words + [w])[..|words|] == words;
  }

  lemma ReadOne(r: Reading, w: Word)
    ensures ReadWords(r, [w]) == ReadWord(r, w)
  {
    ReadStep(r, [], w);
  }

  // ------------------------------------------------------------------ splitting undoes joining

  predicate NoSpace(s: string) {
    forall i :: 0 <= i < |s| ==> s[i] != ' '
  }

  lemma {:induction false} SplitOfJoin(parts: seq<string>)
    requires parts != [] && forall i :: 0 <= i < |parts| ==> NoSpace(parts[i])
    ensures Split(Join(parts, " ")) == parts
  {
    var head := parts[0];
    if |parts| == 1 {
      FindUnique(head, ' ', |head|);
    } else {
      var rest := Join(parts[1..], " ");
      var text := head + " " + rest;
      assert Join(parts, " ") == text;
      FindUnique(text, ' ', |head|);
      assert text[..|head|] == head && text[|head| + 1..] == rest;
      SplitOfJoin(parts[1..]);
    }
  }

  lemma {:induction false} JoinConcat(a: seq<string>, b: seq<string>, separator: string)
    requires a != [] && b != []
    ensures Join(a + b, separator) == Join(a, separator) + separator + Join(b, separator)
  {
    if |a| == 1 {
      assert (a + b)[1..] == b;
    } else {
      JoinConcat(a[1..], b, separator);
      assert (a + b)[1..] == a[1..] + b;
    }
  }

  // ------------------------------------------------------------------ the words of a number

  function WithAnds(words: seq<Word>): seq<Word> {
    if |words| <= 1 then words else [words[0], And] + WithAnds(words[1..])
  }

  function GroupWords(value: nat, i: nat): seq<Word> {
    WithAnds(Parts(value)) + (if 1 <= i < |SCALES| then [Scale(i)] else [])
  }

  function Words(n: nat, i: nat): seq<Word> {
    if n == 0 then []
    else
      var high := Words(n / 1000, i + 1);
      if n % 1000 == 0 then high
      else if high == [] then GroupWords(n % 1000, i)
      else high + [And] + GroupWords(n % 1000, i)
  }

  function Spaced(words: seq<Word>): string {
    Join(SpellAll(words), " ")
  }

  lemma SpellConcat(a: seq<Word>, b: seq<Word>)
    ensures SpellAll(a + b) == SpellAll(a) + SpellAll(b)
  {}

  lemma SpacedConcat(a: seq<Word>, b: seq<Word>)
    requires a != [] && b != []
    ensures Spaced(a + b) == Spaced(a) + " " + Spaced(b)
  {
    SpellConcat(a, b);
    JoinConcat(SpellAll(a), SpellAll(b), " ");
  }

  lemma SpacedOne(w: Word)
    ensures Spaced([w]) == Spell(w)
  {}

  lemma SpacedAnd(a: seq<Word>, b: seq<Word>)
    requires a != [] && b != []
    ensures Spaced(a + [And] + b) == Spaced(a) + AND_SEPARATOR + Spaced(b)
  {
    hide Spaced;
    SpacedConcat(a + [And], b);
    SpacedConcat(a, [And]);
    SpacedOne(And);
    assert AND_SEPARATOR == " " + "و" + " ";
    calc {
      Spaced(a + [And] + b);
      Spaced(a) + " " + "و" + " " + Spaced(b);
      Spaced(a) + (" " + "و" + " ") + Spaced(b);
    }
  }

  lemma {:induction false} JoinIsSpaced(words: seq<Word>)
    requires words != []
    ensures WithAnds(words) != []
    ensures Join(SpellAll(words), AND_SEPARATOR) == Spaced(WithAnds(words))
  {
    if |words| > 1 {
      var rest := words[1..];
      JoinIsSpaced(rest);
      assert SpellAll(words)[1..] == SpellAll(rest);
      SpacedAnd([words[0]], WithAnds(rest));
      assert [words[0], And] + WithAnds(rest) == [words[0]] + [And] + WithAnds(rest);
      SpacedOne(words[0]);
    } else {
      SpacedOne(words[0]);
      assert WithAnds(words) == words == [words[0]];
    }
  }

  lemma GroupIsSpaced(value: nat, i: nat)
    requires 0 < value < 1000
    ensures GroupWords(value, i) != []
    ensures GroupText(Group(value, At(SCALES, i))) == Spaced(GroupWords(value, i))
  {
    hide Spaced, Join;
    assert Parts(value) != [];
    JoinIsSpaced(Parts(value));
    ScaleNames(i);
    if 1 <= i < |SCALES| {
      SpacedConcat(WithAnds(Parts(value)), [Scale(i)]);
      SpacedOne(Scale(i));
    } else {
      assert GroupWords(value, i) == WithAnds(Parts(value));
    }
  }

  /** Only the lowest group and those past the last scale have no scale word. */
  lemma ScaleNames(i: nat)
    ensures At(SCALES, i) != "" <==> 1 <= i < |SCALES|
    ensures 1 <= i < |SCALES| ==> At(SCALES, i) == Spell(Scale(i))
  {
    if 1 <= i < |SCALES| { HasFingerprint(Scale(i)); }
  }

  lemma {:induction false} GroupsAreSpaced(n: nat, i: nat)
    requires n > 0
    ensures Groups(n, i) != [] && Words(n, i) != []
    ensures Join(Sorting.Map(GroupText, Groups(n, i)), AND_SEPARATOR) == Spaced(Words(n, i))
    decreases n
  {
    hide Spaced, GroupText, GroupWords, At;
    var high, group := Groups(n / 1000, i + 1), Group(n % 1000, At(SCALES, i));
    if n / 1000 > 0 { GroupsAreSpaced(n / 1000, i + 1); }
    if n % 1000 > 0 {
      GroupIsSpaced(n % 1000, i);
      if n / 1000 > 0 {
        assert Sorting.Map(GroupText, high + [group]) == Sorting.Map(GroupText, high) + [GroupText(group)];
        JoinConcat(Sorting.Map(GroupText, high), [GroupText(group)], AND_SEPARATOR);
        SpacedAnd(Words(n / 1000, i + 1), GroupWords(n % 1000, i));
      } else {
        assert Groups(n, i) == [group];
        assert Sorting.Map(GroupText, [group]) == [GroupText(group)];
      }
    } else {
      assert Groups(n, i) == high;
    }
  }

  // ------------------------------------------------------------------ reading a number's words

  lemma {:induction false} AndsAreSilent(r: Reading, words: seq<Word>)
    ensures ReadWords(r, WithAnds(words)) == ReadWords(r, words)
    decreases |words|
  {
    if |words| > 1 {
      var w, rest := words[0], words[1..];
      assert words == [w] + rest && [w, And] == [w] + [And];
      AndsAreSilent(ReadWord(r, w), rest);
      ReadConcat(r, [w], rest);
      ReadConcat(r, [w, And], WithAnds(rest));
      ReadStep(r, [w], And);
      ReadOne(r, w);
    }
  }

  lemma ReadParts(r: Reading, value: nat)
    requires value < 1000
    ensures ReadWords(r, Parts(value)) == r.(current := r.current + value)
  {
    var hundreds, rest := value / 100, value % 100;
    var s := r.(current := r.current + hundreds * 100);
    ReadOne(r, Hundred(hundreds));
    ReadConcat(r, [Hundred(hundreds)], TensAndOnes(rest));
    assert [] + TensAndOnes(rest) == TensAndOnes(rest);
    assert ReadWords(r, Parts(value)) == ReadWords(s, TensAndOnes(rest));
    ReadRest(s, rest);
  }

  lemma ReadRest(r: Reading, rest: nat)
    requires rest < 100
    ensures ReadWords(r, TensAndOnes(rest)) == r.(current := r.current + rest)
  {
    if 0 < rest < 20 {
      ReadOne(r, One(rest));
    } else if rest >= 20 {
      ReadOne(r, Ten(rest / 10));
      ReadStep(r, [Ten(rest / 10)], One(rest % 10));
      assert [Ten(rest / 10)] + [] == [Ten(rest / 10)];
    }
  }

  function ReadGroup(r: Reading, value: nat, i: nat): Reading {
    if value == 0 then r
    else if 1 <= i < |SCALES| then Reading(r.total + (r.current + value) * Thousand(i), 0)
    else r.(current := r.current + value)
  }

  lemma GroupReads(r: Reading, value: nat, i: nat)
    requires 0 < value < 1000
    ensures ReadWords(r, GroupWords(value, i)) == ReadGroup(r, value, i)
  {
    hide Parts, WithAnds, ReadWords, Thousand;
    AndsAreSilent(r, Parts(value));
    ReadParts(r, value);
    if 1 <= i < |SCALES| {
      ReadStep(r, WithAnds(Parts(value)), Scale(i));
    } else {
      assert WithAnds(Parts(value)) + [] == WithAnds(Parts(value));
    }
  }

  function ReadNumber(n: nat, i: nat): Reading {
    ReadWords(NOTHING, Words(n, i))
  }

  lemma NumberReads(n: nat, i: nat)
    ensures n == 0 ==> ReadNumber(n, i) == NOTHING
    ensures n > 0 ==> ReadNumber(n, i) == ReadGroup(ReadNumber(n / 1000, i + 1), n % 1000, i)
  {
    hide GroupWords, ReadGroup, ReadWords;
    if n == 0 {
      assert Words(n, i) == [];
      ReadNothing();
    } else if n % 1000 == 0 {
      NoGroup(ReadNumber(n / 1000, i + 1), i);
    } else {
      var high := Words(n / 1000, i + 1);
      GroupReads(ReadNumber(n / 1000, i + 1), n % 1000, i);
      ReadConcat(NOTHING, high + [And], GroupWords(n % 1000, i));
      ReadStep(NOTHING, high, And);
      if high == [] { ReadNothing(); }
    }
  }

  lemma ReadNothing()
    ensures ReadWords(NOTHING, []) == NOTHING
  {}

  lemma NoGroup(r: Reading, i: nat)
    ensures ReadGroup(r, 0, i) == r
  {}

  lemma ThousandStep(i: nat)
    ensures Thousand(i + 1) == 1000 * Thousand(i)
  {}

  /** The scales of a number within reach add up to it. */
  lemma {:induction false} ScaledReads(n: nat, i: nat)
    requires 1 <= i <= 21 && n < Thousand(21 - i)
    ensures ReadNumber(n, i) == Reading(n * Thousand(i), 0)
    decreases n
  {
    hide ReadNumber, Thousand;
    NumberReads(n, i);
    if n > 0 {
      var q, r := n / 1000, n % 1000;
      if i == 21 { ThousandZero(); }
      ThousandStep(20 - i);
      ThousandStep(i);
      ScaledReads(q, i + 1);
      SplitByThousand(n, Thousand(i));
    }
  }

  lemma ThousandZero()
    ensures Thousand(0) == 1
  {}

  lemma SplitByThousand(n: nat, p: nat)
    ensures n / 1000 * (1000 * p) + n % 1000 * p == n * p
  {
    var q, r := n / 1000, n % 1000;
    assert n == 1000 * q + r;
    calc {
      n * p;
      (1000 * q + r) * p;
      { Distribute(1000 * q, r, p); }
      (1000 * q) * p + r * p;
      q * (1000 * p) + r * p;
    }
  }

  /** Past the last scale the groups are only added up. */
  lemma {:induction false} UnscaledReads(n: nat, i: nat)
    requires i >= 21
    ensures ReadNumber(n, i).total == 0 && ReadNumber(n, i).current <= n
    decreases n
  {
    hide ReadNumber;
    NumberReads(n, i);
    if n > 0 { UnscaledReads(n / 1000, i + 1); }
  }

  /** Words never read as more than the number, and as less once its top groups have no scale. */
  lemma {:induction false} LargeReads(n: nat, i: nat)
    requires 1 <= i <= 21
    ensures var r := ReadNumber(n, i);
      && r.total + r.current * Thousand(i - 1) <= n * Thousand(i)
      && (n >= Thousand(21 - i) ==> r.total + r.current * Thousand(i - 1) < n * Thousand(i))
    decreases n
  {
    hide ReadNumber, Thousand;
    ThousandStep(i - 1);
    if n == 0 {
      NumberReads(n, i);
    } else if i == 21 {
      ThousandZero();
      UnscaledReads(n, i);
      MulMono(ReadNumber(n, i).current, n, Thousand(20));
      MulSign(n, Thousand(20));
    } else {
      var q, low := n / 1000, n % 1000;
      var h, p := ReadNumber(q, i + 1), Thousand(i);
      NumberReads(n, i);
      LargeReads(q, i + 1);
      ThousandStep(i);
      ThousandStep(20 - i);
      SplitByThousand(n, p);
      if low == 0 {
        NoGroup(h, i);
        MulMono(Thousand(i - 1), p, h.current);
      } else {
        Distribute(h.current, low, p);
      }
    }
  }

  predicate Sayable(w: Word) {
    IsWord(w) && w != Minus
  }

  predicate AllSayable(words: seq<Word>) {
    forall k :: 0 <= k < |words| ==> Sayable(words[k])
  }

  lemma SayableConcat(a: seq<Word>, b: seq<Word>)
    requires AllSayable(a) && AllSayable(b)
    ensures AllSayable(a + b)
  {}

  lemma {:induction false} AllWords(n: nat, i: nat)
    ensures AllSayable(Words(n, i))
    decreases n
  {
    hide GroupWords, Sayable;
    if n > 0 {
      AllWords(n / 1000, i + 1);
      if n % 1000 > 0 { AllGroupWords(n % 1000, i); }
      AndIsSayable();
      SayableConcat(Words(n / 1000, i + 1), [And]);
    }
  }

  lemma AndIsSayable()
    ensures Sayable(And)
  {}

  lemma AllGroupWords(value: nat, i: nat)
    requires value < 1000
    ensures AllSayable(GroupWords(value, i))
  {
    AllWithAnds(Parts(value));
  }

  lemma {:induction false} AllWithAnds(words: seq<Word>)
    requires AllSayable(words)
    ensures AllSayable(WithAnds(words))
  {
    hide Sayable;
    if |words| > 1 {
      AllWithAnds(words[1..]);
      AndIsSayable();
      SayableConcat([words[0], And], WithAnds(words[1..]));
    }
  }

  lemma {:induction false} RecogniseSpelled(words: seq<Word>)
    requires forall k :: 0 <= k < |words| ==> IsWord(words[k])
    ensures RecogniseAll(SpellAll(words)) == Some(words)
  {
    hide Recognise;
    if words != [] {
      RecogniseSpelled(words[1..]);
      assert SpellAll(words)[1..] == SpellAll(words[1..]);
      RecogniseIff(Spell(words[0]), words[0]);
      assert words == [words[0]] + words[1..];
    }
  }

  lemma SpacedReads(words: seq<Word>)
    requires words != [] && forall k :: 0 <= k < |words| ==> IsWord(words[k])
    ensures RecogniseAll(Split(Spaced(words))) == Some(words)
  {
    hide Split, Join, RecogniseAll, Spell;
    forall k | 0 <= k < |words| ensures NoSpace(Spell(words[k])) { HasFingerprint(words[k]); }
    SplitOfJoin(SpellAll(words));
    RecogniseSpelled(words);
  }

  /** Ten to the sixty-third: the first number past the last scale. */
  const LIMIT: nat := Thousand(21)

  lemma {:induction false} ThousandIsPow10(i: nat)
    ensures Thousand(i) == Pow10(3 * i)
  {
    if i > 0 {
      ThousandIsPow10(i - 1);
      assert Pow10(3 * i) == 10 * Pow10(3 * i - 1) && Pow10(3 * i - 1) == 10 * Pow10(3 * i - 2);
      assert Pow10(3 * i - 2) == 10 * Pow10(3 * i - 3);
    }
  }

  lemma NumberReadsIff(n: nat)
    ensures Total(ReadNumber(n, 0)) <= n
    ensures Total(ReadNumber(n, 0)) == n <==> n < LIMIT
  {
    hide ReadNumber, Thousand;
    NumberReads(n, 0);
    ThousandZero();
    ThousandStep(0);
    ThousandStep(20);
    if n > 0 {
      LargeReads(n / 1000, 1);
      if n < LIMIT { ScaledReads(n / 1000, 1); }
    }
  }

  lemma TextOfNumber(n: nat)
    requires n > 0
    ensures Words(n, 0) != [] && InWords(n) == Spaced(Words(n, 0))
  {
    hide Join, GroupText;
    GroupsAreSpaced(n, 0);
  }

  /** A number's words read back to it exactly below ten to the sixty-third, and to less from there on. */
  lemma WordsReadBackIff(n: nat)
    requires n > 0
    ensures Read(InWords(n)).Some? && Read(InWords(n)).value <= n
    ensures Read(InWords(n)) == Some(n) <==> n < LIMIT
  {
    hide Words, ReadWords, InWords, Spaced, RecogniseAll, Split, IsWord;
    TextOfNumber(n);
    AllWords(n, 0);
    SpacedReads(Words(n, 0));
    NumberReadsIff(n);
  }

  lemma NegativeReads(n: nat)
    requires n > 0
    ensures Read(InWords(n)).Some?
    ensures Read("منفی " + InWords(n)) == Some(-Read(InWords(n)).value)
  {
    hide Words, ReadWords, InWords, Spaced, RecogniseAll, Split, Spell;
    TextOfNumber(n);
    AllWords(n, 0);
    SpacedReads(Words(n, 0));
    SpacedReads([Minus] + Words(n, 0));
    SpacedConcat([Minus], Words(n, 0));
    MinusText(Words(n, 0));
    assert ([Minus] + Words(n, 0))[1..] == Words(n, 0);
  }

  lemma MinusText(words: seq<Word>)
    requires words != []
    ensures Spaced([Minus] + words) == "منفی " + Spaced(words)
  {
    hide Spaced;
    SpacedConcat([Minus], words);
    SpacedOne(Minus);
    assert "منفی" + " " == "منفی ";
  }

  // ------------------------------------------------------------------ typed numbers

  /**
   * After digits are made Latin and separators dropped, the text shows this sign and
   * number, leading zeros allowed; a fraction may follow.
   */
  predicate Shows(text: string, negative: bool, n: nat) {
    var raw := ToLatinDigits(Trim(text));
    && raw != ""
    && (negative <==> raw[0] in "-−")
    && var cleaned := RemoveSeparators(if negative then raw[1..] else raw);
       var part := cleaned[..Find(cleaned, '.')];
       part != "" && AllDigits(part) && Value(part) == n
  }

  function Integer(negative: bool, n: nat): int {
    if negative then 0 - n else n
  }

  lemma WordsOfShown(text: string, negative: bool, n: nat)
    requires Shows(text, negative, n)
    ensures NumberToPersianWords(text)
         == if n == 0 && negative then None else Some(if negative then "منفی " + InWords(n) else InWords(n))
  {
    hide Groups, Join, Trim, RemoveSeparators, Value, KeepDigits;
    var raw := ToLatinDigits(Trim(text));
    var cleaned := RemoveSeparators(if negative then raw[1..] else raw);
    KeepDigitsOfDigits(cleaned[..Find(cleaned, '.')]);
  }

  lemma ZeroReads()
    ensures Read(InWords(0)) == Some(0) && 0 < LIMIT
  {
    hide RecogniseAll, Split;
    SpacedOne(Zero);
    SpacedReads([Zero]);
    ReadOne(NOTHING, Zero);
  }

  /**
   * However a number is typed, it has words unless it is minus zero, and they read back
   * to it exactly when it is below the limit.
   */
  lemma TypedReadsBackIff(text: string, negative: bool, n: nat)
    requires Shows(text, negative, n)
    ensures var words := NumberToPersianWords(text);
      && (words.None? <==> negative && n == 0)
      && (words.Some? ==> (Read(words.value) == Some(Integer(negative, n)) <==> n < LIMIT))
  {
    hide Shows, Read, InWords, NumberToPersianWords, Thousand;
    WordsOfShown(text, negative, n);
    if n == 0 {
      ZeroReads();
    } else {
      WordsReadBackIff(n);
      NegativeReads(n);
    }
  }

  /** So below the limit two typed numbers get the same words exactly if they are the same. */
  lemma WordsAreInjective(a: string, negA: bool, n: nat, b: string, negB: bool, m: nat)
    requires Shows(a, negA, n) && Shows(b, negB, m) && n < LIMIT && m < LIMIT
    ensures NumberToPersianWords(a) == NumberToPersianWords(b) <==> negA == negB && n == m
  {
    hide Shows, Read, InWords, NumberToPersianWords, Thousand;
    TypedReadsBackIff(a, negA, n);
    TypedReadsBackIff(b, negB, m);
    WordsOfShown(a, negA, n);
    WordsOfShown(b, negB, m);
  }

  /** A typed zero, with whatever zeros and separators, is zero; behind a minus sign it has no words. */
  lemma ZeroWords(text: string, negative: bool)
    requires Shows(text, negative, 0)
    ensures NumberToPersianWords(text).None? <==> negative
    ensures !negative ==> Read(NumberToPersianWords(text).value) == Some(0)
  {
    hide Shows, Read, InWords, NumberToPersianWords;
    TypedReadsBackIff(text, negative, 0);
    ZeroReads();
  }

  // ------------------------------------------------------------------ what the words do not tell

  lemma {:induction false} WordsShift(n: nat, k: nat, i: nat)
    ensures Words(n * Thousand(k), i) == Words(n, i + k)
    decreases k
  {
    hide GroupWords;
    if k == 0 {
      assert n * Thousand(0) == n;
    } else {
      var m := n * Thousand(k - 1);
      assert n * Thousand(k) == 1000 * m;
      WordsShift(n, k - 1, i + 1);
      assert (1000 * m) / 1000 == m && (1000 * m) % 1000 == 0;
    }
  }

  /** From the limit on, a number can have the words of a much smaller one. */
  lemma LimitCollides(n: nat)
    requires 0 < n < 1000
    ensures n * LIMIT != n && InWords(n * LIMIT) == InWords(n)
  {
    hide InWords, GroupWords, Thousand;
    ThousandStep(20);
    assert n * LIMIT > n by { MulMono(2, LIMIT, n); }
    TextOfNumber(n * LIMIT);
    TextOfNumber(n);
    WordsShift(n, 21, 0);
    OneGroup(n, 21);
    OneGroup(n, 0);
    NoScale(n);
  }

  lemma OneGroup(n: nat, i: nat)
    requires 0 < n < 1000
    ensures Words(n, i) == GroupWords(n, i)
  {
    hide GroupWords;
    assert n / 1000 == 0 && n % 1000 == n;
    assert Words(n / 1000, i + 1) == [];
  }

  lemma NoScale(n: nat)
    ensures GroupWords(n, 21) == GroupWords(n, 0)
  {}

  lemma RemoveStep(c: char, rest: string)
    ensures RemoveSeparators([c] + rest) == (if IsSeparator(c) then "" else [c]) + RemoveSeparators(rest)
  {
    assert ([c] + rest)[1..] == rest;
  }

  lemma {:induction false} RemoveConcat(a: string, b: string)
    ensures RemoveSeparators(a + b) == RemoveSeparators(a) + RemoveSeparators(b)
  {
    hide IsSeparator;
    if a == "" {
      assert a + b == b;
    } else {
      RemoveConcat(a[1..], b);
      RemoveStep(a[0], a[1..]);
      RemoveStep(a[0], a[1..] + b);
      hide RemoveSeparators;
      assert a == [a[0]] + a[1..] && a + b == [a[0]] + (a[1..] + b);
    }
  }

  lemma {:induction false} RemoveFromDigits(s: string)
    requires AllDigits(s)
    ensures RemoveSeparators(s) == s
  {
    if s != "" {
      RemoveFromDigits(s[1..]);
      assert !IsSeparator(s[0]);
      assert s == [s[0]] + s[1..];
    }
  }

  // ------------------------------------------------------------------ what may be typed

  /** Digits, and among them the Latin comma, the Arabic comma, the two Persian separators and spaces. */
  predicate DigitsWithSeparators(s: string) {
    forall i :: 0 <= i < |s| ==> IsDigit(s[i]) || s[i] in [',', '،', '٬', '٫', ' ']
  }

  lemma DigitOrSeparator(c: char)
    requires IsDigit(c) || c in [',', '،', '٬', '٫', ' ']
    ensures (IsSeparator(c) <==> !IsDigit(c)) && LatinDigit(c) == c
  {}

  lemma {:induction false} OnlyDigitsStay(s: string)
    requires DigitsWithSeparators(s)
    ensures RemoveSeparators(s) == KeepDigits(s) && ToLatinDigits(s) == s
  {
    hide IsSeparator, IsDigit, LatinDigit;
    if s != "" {
      DigitOrSeparator(s[0]);
      OnlyDigitsStay(s[1..]);
      assert s == [s[0]] + s[1..];
      assert forall i :: 0 < i < |s| ==> ToLatinDigits(s)[i] == ToLatinDigits(s[1..])[i - 1];
    }
  }

  lemma TailStaysBehind(digits: string, tail: string)
    requires AllDigits(digits) && (tail != "" ==> tail[0] == '.')
    ensures var cleaned := digits + RemoveSeparators(ToLatinDigits(tail));
            cleaned[..Find(cleaned, '.')] == digits
  {
    var latin := ToLatinDigits(tail);
    var cleaned := digits + RemoveSeparators(latin);
    if tail != "" {
      assert latin[0] == '.' && !IsSeparator('.');
      assert RemoveSeparators(latin)[0] == '.';
    }
    FindUnique(cleaned, '.', |digits|);
  }

  /** No sign, or one of the two minus signs. */
  predicate IsSign(sign: string) {
    sign == "" || sign == "-" || sign == "−"
  }

  lemma TypedEnds(sign: string, body: string, tail: string)
    requires IsSign(sign) && body != "" && IsDigit(body[0]) && IsDigit(body[|body| - 1])
    requires tail != "" ==> !IsSpace(tail[|tail| - 1])
    ensures Trim(sign + body + tail) == sign + body + tail
  {
    var text := sign + body + tail;
    assert text[0] == if sign == "" then body[0] else sign[0];
    assert text[|text| - 1] == if tail == "" then body[|body| - 1] else tail[|tail| - 1];
    TrimKeeps(text);
  }

  lemma TypedInLatin(sign: string, body: string, tail: string)
    requires IsSign(sign) && DigitsWithSeparators(body)
    ensures ToLatinDigits(sign + body + tail) == sign + body + ToLatinDigits(tail)
  {
    OnlyDigitsStay(body);
    SignIsLatin(sign);
    LatinConcat(sign + body, tail);
    LatinConcat(sign, body);
  }

  lemma SignIsLatin(sign: string)
    requires IsSign(sign)
    ensures ToLatinDigits(sign) == sign
  {}

  lemma LatinConcat(a: string, b: string)
    ensures ToLatinDigits(a + b) == ToLatinDigits(a) + ToLatinDigits(b)
  {
    hide LatinDigit;
  }

  /** A sign or none, digits with separators between them, and a point with anything behind it or none. */
  predicate IsTyped(sign: string, body: string, tail: string) {
    && IsSign(sign) && DigitsWithSeparators(body)
    && body != "" && IsDigit(body[0]) && IsDigit(body[|body| - 1])
    && (tail != "" ==> tail[0] == '.' && !IsSpace(tail[|tail| - 1]))
  }

  lemma TypedParts(sign: string, body: string, tail: string)
    requires IsTyped(sign, body, tail)
    ensures IsSign(sign) && DigitsWithSeparators(body) && body != "" && IsDigit(body[0]) && IsDigit(body[|body| - 1])
    ensures tail != "" ==> tail[0] == '.' && !IsSpace(tail[|tail| - 1])
  {}

  lemma ShowsFrom(text: string, sign: string, rest: string, digits: string)
    requires IsSign(sign) && rest != "" && IsDigit(rest[0]) && ToLatinDigits(Trim(text)) == sign + rest
    requires var cleaned := RemoveSeparators(rest); cleaned[..Find(cleaned, '.')] == digits
    requires digits != "" && AllDigits(digits)
    ensures Shows(text, sign != "", Value(digits))
  {
    hide Trim, ToLatinDigits, RemoveSeparators, Find, Value;
    SignInFront(sign, rest);
  }

  /**
   * A typed number shows what its digits say: separators between them do not matter, what follows
   * a point is dropped, and either minus sign in front makes it negative.
   */
  lemma TypedShows(sign: string, body: string, tail: string)
    requires IsTyped(sign, body, tail)
    ensures Shows(sign + body + tail, sign != "", Value(KeepDigits(body)))
  {
    hide *;
    TypedParts(sign, body, tail);
    FirstDigitKept(body);
    TypedEnds(sign, body, tail);
    TypedInLatin(sign, body, tail);
    CleanedPart(body, tail);
    var rest := body + ToLatinDigits(tail);
    assert rest[0] == body[0];
    assert sign + body + ToLatinDigits(tail) == sign + rest;
    ShowsFrom(sign + body + tail, sign, rest, KeepDigits(body));
  }

  lemma SignInFront(sign: string, rest: string)
    requires IsSign(sign) && rest != "" && IsDigit(rest[0])
    ensures var raw := sign + rest;
      && raw != "" && (sign != "" <==> raw[0] in "-−") && (if sign != "" then raw[1..] else raw) == rest
  {
    var raw := sign + rest;
    assert raw[0] == if sign == "" then rest[0] else sign[0];
    if sign == "" { assert raw == rest; }
  }

  lemma FirstDigitKept(body: string)
    requires body != "" && IsDigit(body[0])
    ensures KeepDigits(body) != ""
  {}

  lemma CleanedPart(body: string, tail: string)
    requires DigitsWithSeparators(body) && (tail != "" ==> tail[0] == '.')
    ensures var cleaned := RemoveSeparators(body + ToLatinDigits(tail));
            cleaned[..Find(cleaned, '.')] == KeepDigits(body)
  {
    hide ToLatinDigits, RemoveSeparators, Find, KeepDigits, DigitsWithSeparators;
    RemoveConcat(body, ToLatinDigits(tail));
    OnlyDigitsStay(body);
    TailStaysBehind(KeepDigits(body), tail);
  }

  /** So 12.5 reads as twelve, 1,250,000 as one and a quarter million, and minus nothing not at all. */
  lemma TypedWords(sign: string, body: string, tail: string)
    requires IsTyped(sign, body, tail)
    ensures var n := Value(KeepDigits(body));
      NumberToPersianWords(sign + body + tail)
      == if sign == "" then Some(InWords(n)) else if n == 0 then None else Some("منفی " + InWords(n))
  {
    hide *;
    TypedShows(sign, body, tail);
    WordsOfShown(sign + body + tail, sign != "", Value(KeepDigits(body)));
  }

  lemma DigitsAround(a: string, c: string, b: string)
    requires a != "" && b != "" && AllDigits(a) && AllDigits(b) && (c == "٫" || c == "")
    ensures IsTyped("", a + c + b, "") && KeepDigits(a + c + b) == a + b
  {
    TypedAround(a, c, b);
    KeepMarkDigits(c, b);
    hide *;
    KeepAround(a, c + b);
    assert a + c + b == a + (c + b);
  }

  lemma TypedAround(a: string, c: string, b: string)
    requires a != "" && b != "" && AllDigits(a) && AllDigits(b) && (c == "٫" || c == "")
    ensures IsTyped("", a + c + b, "")
  {
    hide IsDigit;
    var x := a + c + b;
    assert x[0] == a[0] && x[|x| - 1] == b[|b| - 1];
    forall i | 0 <= i < |x| ensures IsDigit(x[i]) || x[i] in [',', '،', '٬', '٫', ' '] {
      if |a| + |c| <= i { assert x[i] == b[i - |a| - |c|]; }
    }
  }

  lemma KeepMarkDigits(c: string, b: string)
    requires AllDigits(b) && (c == "٫" || c == "")
    ensures KeepDigits(c + b) == b
  {
    KeepDigitsOfDigits(b);
    if c == "٫" {
      assert (c + b)[0] == '٫' && (c + b)[1..] == b;
    } else {
      assert c + b == b;
    }
  }

  lemma {:induction false} KeepAround(a: string, rest: string)
    requires AllDigits(a)
    ensures KeepDigits(a + rest) == a + KeepDigits(rest)
  {
    if a == "" {
      assert a + rest == rest;
    } else {
      KeepAround(a[1..], rest);
      assert (a + rest)[1..] == a[1..] + rest && a == [a[0]] + a[1..];
    }
  }

  /** The Persian decimal separator is dropped with the others: one and a half reads as fifteen. */
  lemma DecimalSeparatorIsDropped(a: string, b: string)
    requires a != "" && b != "" && AllDigits(a) && AllDigits(b)
    ensures NumberToPersianWords(a + "٫" + b) == NumberToPersianWords(a + b)
  {
    hide *;
    DigitsAround(a, "٫", b);
    DigitsAround(a, "", b);
    TypedWords("", a + "٫" + b, "");
    TypedWords("", a + "" + b, "");
    assert a + "" + b == a + b && "" + (a + b) + "" == a + b;
    assert "" + (a + "٫" + b) + "" == a + "٫" + b;
  }

  /** No digit in any of the three scripts. */
  predicate NoDigits(s: string) {
    forall i :: 0 <= i < |s| ==> !('0' <= s[i] <= '9' || '۰' <= s[i] <= '۹' || '٠' <= s[i] <= '٩')
  }

  lemma {:induction false} NothingKept(s: string)
    requires NoDigits(s)
    ensures KeepDigits(s) == "" && NoDigits(RemoveSeparators(s)) && ToLatinDigits(s) == s
  {
    hide IsSeparator;
    if s != "" {
      NothingKept(s[1..]);
      assert s == [s[0]] + s[1..];
    }
  }

  lemma {:induction false} TrimKeepsNoDigits(s: string)
    requires NoDigits(s)
    ensures NoDigits(TrimStart(s)) && NoDigits(TrimEnd(s))
    decreases |s|
  {
    hide IsSpace;
    if s != "" {
      TrimKeepsNoDigits(s[1..]);
      TrimKeepsNoDigits(s[..|s| - 1]);
    }
  }

  /** A text without a digit, the empty one included, has no words. */
  lemma NoDigitsNoWords(text: string)
    requires NoDigits(text)
    ensures NumberToPersianWords(text).None?
  {
    hide InWords, Value, Find, RemoveSeparators, KeepDigits, TrimStart, TrimEnd, NoDigits, ToLatinDigits;
    TrimKeepsNoDigits(text);
    TrimKeepsNoDigits(TrimStart(text));
    var raw := Trim(text);
    NothingKept(raw);
    if raw != "" {
      TailHasNoDigits(raw, 1, |raw|);
      var unsigned := if raw[0] in "-−" then raw[1..] else raw;
      NothingKept(unsigned);
      var cleaned := RemoveSeparators(unsigned);
      TailHasNoDigits(cleaned, 0, Find(cleaned, '.'));
      NothingKept(cleaned[..Find(cleaned, '.')]);
    }
  }

  lemma TailHasNoDigits(s: string, i: nat, j: nat)
    requires NoDigits(s) && i <= j <= |s|
    ensures NoDigits(s[i..]) && NoDigits(s[..j])
  {}

  // ------------------------------------------------------------------ how numbers are spoken

  lemma SayOne(v: Word)
    ensures Join(SpellAll([v]), AND_SEPARATOR) == Spell(v)
  {
    hide Spell;
    assert SpellAll([v]) == [Spell(v)];
  }

  lemma SayTwo(v: Word, w: Word)
    ensures Join(SpellAll([v, w]), AND_SEPARATOR) == Spell(v) + " و " + Spell(w)
  {
    hide Spell;
    assert SpellAll([v, w]) == [Spell(v), Spell(w)];
    assert [Spell(v), Spell(w)][1..] == [Spell(w)];
  }

  lemma JoinGroups(a: Group, b: Group)
    ensures Join(Sorting.Map(GroupText, [a]), AND_SEPARATOR) == GroupText(a)
    ensures Join(Sorting.Map(GroupText, [a, b]), AND_SEPARATOR) == GroupText(a) + " و " + GroupText(b)
  {
    hide GroupText;
    assert Sorting.Map(GroupText, [a]) == [GroupText(a)];
    assert Sorting.Map(GroupText, [a, b]) == [GroupText(a), GroupText(b)];
    assert [GroupText(a), GroupText(b)][1..] == [GroupText(b)];
  }

  lemma GroupsOfMillions(m: nat, t: nat)
    requires 0 < m < 1000 && t < 1000
    ensures Groups(m * 1_000_000 + t * 1000, 0)
         == [Group(m, At(SCALES, 2))] + if t > 0 then [Group(t, At(SCALES, 1))] else []
  {
    hide At;
    var n := m * 1_000_000 + t * 1000;
    assert n / 1000 == m * 1000 + t && n % 1000 == 0;
    assert (m * 1000 + t) / 1000 == m && (m * 1000 + t) % 1000 == t;
    assert m / 1000 == 0 && m % 1000 == m;
    assert Groups(0, 3) == [];
    assert Groups(m, 2) == [Group(m, At(SCALES, 2))];
    assert Groups(m * 1000 + t, 1) == Groups(m, 2) + if t > 0 then [Group(t, At(SCALES, 1))] else [];
    assert Groups(n, 0) == Groups(m * 1000 + t, 1) + [];
  }

  lemma SomeSpellings()
    ensures Spell(One(1)) == "یک" && Spell(One(3)) == "سه" && Spell(Hundred(2)) == "دویست" && Spell(Ten(5)) == "پنجاه"
    ensures At(SCALES, 1) == "هزار" && At(SCALES, 2) == "میلیون"
  {}

  lemma SpokenGroups()
    ensures GroupText(Group(1, "میلیون")) == "یک" + " " + "میلیون"
    ensures GroupText(Group(3, "میلیون")) == "سه" + " " + "میلیون"
    ensures GroupText(Group(250, "هزار")) == "دویست" + " و " + "پنجاه" + " " + "هزار"
  {
    assert Parts(1) == [One(1)] && Parts(3) == [One(3)] && Parts(250) == [Hundred(2), Ten(5)];
    SomeSpellings();
    hide Parts, Spell, Join, SpellAll;
    SayOne(One(1));
    SayOne(One(3));
    SayTwo(Hundred(2), Ten(5));
  }

  /** One and a quarter million, and three million, in the words of the language. */
  lemma SpokenMillions()
    ensures InWords(1_250_000)
         == "یک" + " " + "میلیون" + " و " + ("دویست" + " و " + "پنجاه" + " " + "هزار")
    ensures InWords(3_000_000) == "سه" + " " + "میلیون"
  {
    hide Groups, Parts, Spell, At, Join, SpellAll, GroupText;
    SomeSpellings();
    SpokenGroups();
    var one, rest, three := Group(1, "میلیون"), Group(250, "هزار"), Group(3, "میلیون");
    GroupsOfMillions(1, 250);
    GroupsOfMillions(3, 0);
    JoinGroups(one, rest);
    JoinGroups(three, three);
    assert [three] + [] == [three] && [one] + [rest] == [one, rest];
  }
}
