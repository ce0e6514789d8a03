/** Decimal digit strings: printing, reading, padding and searching. */
module Digits {
  import opened Arith

  predicate IsDigit(c: char) {
    '0' <= c <= '9'
  }

  predicate AllDigits(s: string) {
    forall i :: 0 <= i < |s| ==> IsDigit(s[i])
  }

  function DigitChar(d: nat): (c: char)
    requires d < 10
    ensures IsDigit(c) && DigitValue(c) == d
  {
    '0' + d as char
  }

  function DigitValue(c: char): int {
    c as int - '0' as int
  }

  /** The number a digit string denotes, as `BigInt` reads it. */
  function Value(s: string): (n: nat)
    requires AllDigits(s)
  {
    if s == [] then 0 else 10 * Value(s[..|s| - 1]) + DigitValue(s[|s| - 1])
  }

  /** Shortest digit string of a natural number, as `BigInt.toString` prints it. */
  function Print(n: nat): (s: string)
    ensures |s| > 0 && AllDigits(s) && Value(s) == n
    ensures |s| > 1 ==> s[0] != '0'
  {
    if n < 10 then
      var s := [DigitChar(n)];
      assert s[..0] == [];
      s
    else
      var front := Print(n / 10);
      var s := front + [DigitChar(n % 10)];
      assert s[..|s| - 1] == front;
      s
  }

  function Zeros(n: nat): (s: string)
    ensures |s| == n && AllDigits(s) && forall i :: 0 <= i < n ==> s[i] == '0'
  {
    seq(n, i => '0')
  }

  function PadStart(s: string, width: nat): string {
    if |s| < width then Zeros(width - |s|) + s else s
  }

  /** `replace(/0+$/, "")`. */
  function StripTrailingZeros(s: string): (t: string)
    ensures |t| <= |s| && t == s[..|t|]
    ensures forall i :: |t| <= i < |s| ==> s[i] == '0'
    ensures t != [] ==> t[|t| - 1] != '0'
  {
    if s != [] && s[|s| - 1] == '0' then
      StripTrailingZeros(s[..|s| - 1])
    else s
  }

  /** `replace(/[^0-9]/g, "")`. */
  function KeepDigits(s: string): (t: string)
    ensures AllDigits(t)
  {
    if s == [] then [] else (if IsDigit(s[0]) then [s[0]] else []) + KeepDigits(s[1..])
  }

  /** Position of the first `c`, or the length when there is none. */
  function Find(s: string, c: char): (i: nat)
    ensures i <= |s|
    ensures i < |s| ==> s[i] == c
    ensures forall j :: 0 <= j < i ==> s[j] != c
  {
    if s == [] || s[0] == c then 0 else 1 + Find(s[1..], c)
  }

  lemma FindUnique(s: string, c: char, i: nat)
    requires i <= |s| && (i < |s| ==> s[i] == c)
    requires forall j :: 0 <= j < i ==> s[j] != c
    ensures Find(s, c) == i
  {}

  lemma {:induction false} KeepDigitsOfDigits(s: string)
    requires AllDigits(s)
    ensures KeepDigits(s) == s
  {
    if s != [] {
      KeepDigitsOfDigits(s[1..]);
      assert s == [s[0]] + s[1..];
    }
  }

  lemma {:induction false} ValueConcat(s: string, t: string)
    requires AllDigits(s) && AllDigits(t)
    ensures AllDigits(s + t)
    ensures Value(s + t) == Value(s) * Pow10(|t|) + Value(t)
  {
    if t == [] {
      assert s + t == s;
    } else {
      var u, n := t[..|t| - 1], |t| - 1;
      ValueConcat(s, u);
      assert (s + t)[..|s + t| - 1] == s + u;
      TimesTen(Value(s), Pow10(n));
    }
  }

  lemma TimesTen(v: int, p: int)
    ensures v * (10 * p) == 10 * (v * p)
  {}

  lemma AppendZeros(s: string, n: nat)
    requires AllDigits(s)
    ensures AllDigits(s + Zeros(n)) && Value(s + Zeros(n)) == Value(s) * Pow10(n)
  {
    ValueConcat(s, Zeros(n));
    ValueOfZeros(n);
  }

  lemma {:induction false} ValueOfZeros(n: nat)
    ensures Value(Zeros(n)) == 0
  {
    if n > 0 {
      assert Zeros(n)[..n - 1] == Zeros(n - 1);
      ValueOfZeros(n - 1);
    }
  }

  lemma {:induction false} ValueBelowPow(s: string)
    requires AllDigits(s)
    ensures Value(s) < Pow10(|s|)
  {
    if s != [] {
      ValueBelowPow(s[..|s| - 1]);
    }
  }

  lemma {:induction false} PrintWidth(n: nat, width: nat)
    requires width > 0 && n < Pow10(width)
    ensures |Print(n)| <= width
  {
    assert Pow10(1) == 10;
    if n >= 10 {
      assert Pow10(width) == 10 * Pow10(width - 1);
      PrintWidth(n / 10, width - 1);
    }
  }

  lemma PadKeepsValue(n: nat, width: nat)
    ensures var p := PadStart(Print(n), width);
            AllDigits(p) && Value(p) == n && |p| == Max(|Print(n)|, width)
  {
    hide Value, Print, Pow10;
    var s := Print(n);
    if |s| < width {
      ValueConcat(Zeros(width - |s|), s);
      ValueOfZeros(width - |s|);
    }
  }

  lemma {:induction false} LeadingZeroTooSmall(s: string)
    requires s != [] && AllDigits(s) && s[0] == '0'
    ensures Value(s) < Pow10(|s| - 1)
  {
    if |s| == 1 {
      assert s[..0] == [];
    } else {
      LeadingZeroTooSmall(s[..|s| - 1]);
    }
  }

  lemma {:induction false} LeadingDigitLarge(s: string)
    requires s != [] && AllDigits(s) && s[0] != '0'
    ensures Value(s) >= Pow10(|s| - 1)
  {
    if |s| == 1 {
      assert s[..0] == [];
    } else {
      LeadingDigitLarge(s[..|s| - 1]);
    }
  }

  /** Equal-width digit strings with the same value are the same string. */
  lemma {:induction false} ValueInjective(s: string, t: string)
    requires |s| == |t| && AllDigits(s) && AllDigits(t) && Value(s) == Value(t)
    ensures s == t
  {
    if s != [] {
      var n := |s| - 1;
      assert s == s[..n] + [s[n]] && t == t[..n] + [t[n]];
      ValueInjective(s[..n], t[..n]);
    }
  }

  lemma PrintStep(v: nat, d: nat)
    requires v > 0 && d < 10
    ensures Print(10 * v + d) == Print(v) + [DigitChar(d)]
  {
    assert (10 * v + d) / 10 == v && (10 * v + d) % 10 == d;
  }

  /** A digit string with no superfluous leading zero is the printed form of its value. */
  lemma {:induction false} PrintOfValue(s: string)
    requires s != [] && AllDigits(s) && (|s| > 1 ==> s[0] != '0')
    ensures Print(Value(s)) == s
  {
    if |s| == 1 {
      assert s[..0] == [];
    } else {
      var front, d := s[..|s| - 1], DigitValue(s[|s| - 1]);
      var v := Value(front);
      assert Value(s) == 10 * v + d;
      hide Value, Print, Pow10;
      LeadingDigitLarge(front);
      PrintOfValue(front);
      PrintStep(v, d);
      assert s == front + [s[|s| - 1]];
    }
  }
}
