/** Persian and Arabic-Indic digits, and their Latin forms. */
module PersianDigits {
  import opened Digits

  function LatinDigit(c: char): char {
    if '۰' <= c <= '۹' then DigitChar(c as int - '۰' as int)
    else if '٠' <= c <= '٩' then DigitChar(c as int - '٠' as int)
    else c
  }

  function ToLatinDigits(s: string): (t: string)
    ensures |t| == |s| && forall i :: 0 <= i < |s| ==> t[i] == LatinDigit(s[i])
  {
    seq(|s|, i requires 0 <= i < |s| => LatinDigit(s[i]))
  }

  function PersianDigit(c: char): char {
    if IsDigit(c) then '۰' + DigitValue(c) as char else c
  }

  function ToPersianDigits(s: string): (t: string)
    ensures |t| == |s| && forall i :: 0 <= i < |s| ==> t[i] == PersianDigit(s[i])
  {
    seq(|s|, i requires 0 <= i < |s| => PersianDigit(s[i]))
  }

  /** Text without digits of another script survives a change to Persian digits and back. */
  lemma LatinOfPersian(s: string)
    requires ToLatinDigits(s) == s
    ensures ToLatinDigits(ToPersianDigits(s)) == s
  {
    forall i | 0 <= i < |s| ensures ToLatinDigits(ToPersianDigits(s))[i] == s[i] {
      assert ToLatinDigits(s)[i] == LatinDigit(s[i]);
    }
  }

  /** The k-th digit of either script is the k-th Latin digit, and other characters stay as they are. */
  lemma ScriptsAgree(k: nat, c: char)
    requires k < 10
    ensures LatinDigit('۰' + k as char) == LatinDigit('٠' + k as char) == DigitChar(k)
    ensures PersianDigit(DigitChar(k)) == '۰' + k as char
    ensures LatinDigit(c) == c || '۰' <= c <= '۹' || '٠' <= c <= '٩'
    ensures PersianDigit(c) == c || '0' <= c <= '9'
  {}
}
