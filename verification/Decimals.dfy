/** Decimal numerals. */
module Decimals {

  predicate Digit(c: char) {
    '0' <= c <= '9'
  }

  function DigitValue(c: char): (d: nat)
    ensures Digit(c) ==> d < 10
  {
    if Digit(c) then c as int - '0' as int else 0
  }

  function DigitChar(d: nat): (c: char)
    requires d < 10
    ensures Digit(c) && DigitValue(c) == d
  {
    d as char + '0'
  }

  predicate Digits(text: string) {
    forall i :: 0 <= i < |text| ==> Digit(text[i])
  }

  /** The number a run of digits spells. */
  function Value(text: string): nat {
    if text == "" then 0 else Value(text[..|text| - 1]) * 10 + DigitValue(text[|text| - 1])
  }

  /** The shortest numeral of a number. */
  function Decimal(n: nat): (text: string)
    ensures text != "" && Digits(text)
  {
    if n < 10 then [DigitChar(n)] else Decimal(n / 10) + [DigitChar(n % 10)]
  }

  predicate Canonical(text: string) {
    text != "" && Digits(text) && (|text| > 1 ==> text[0] != '0')
  }

  lemma {:induction false} ValueOfDecimal(n: nat)
    ensures Value(Decimal(n)) == n && Canonical(Decimal(n))
    ensures n > 0 ==> Decimal(n)[0] != '0'
    decreases n
  {
    if n < 10 {
      assert [DigitChar(n)][..0] == "";
    } else {
      ValueOfDecimal(n / 10);
      assert (Decimal(n / 10) + [DigitChar(n % 10)])[..|Decimal(n / 10)|] == Decimal(n / 10);
    }
  }

  lemma {:induction false} DecimalOfValue(text: string)
    requires Canonical(text)
    ensures Decimal(Value(text)) == text
    ensures text[0] != '0' ==> Value(text) > 0
    decreases |text|
  {
    var front, last := text[..|text| - 1], text[|text| - 1];
    assert text == front + [last];
    if front == "" {
      assert Value(text) == DigitValue(last) && DigitChar(DigitValue(last)) == last;
    } else {
      DecimalOfValue(front);
      assert Value(text) / 10 == Value(front) && Value(text) % 10 == DigitValue(last);
    }
  }

  lemma {:induction false} ValueGrows(text: string, k: nat)
    requires k <= |text|
    ensures Value(text[..k]) <= Value(text)
    decreases |text|
  {
    if k < |text| {
      assert text[..|text| - 1][..k] == text[..k];
      ValueGrows(text[..|text| - 1], k);
    } else {
      assert text[..k] == text;
    }
  }

  lemma ValueStep(text: string, k: nat)
    requires k < |text|
    ensures Value(text[..k + 1]) == Value(text[..k]) * 10 + DigitValue(text[k])
  {
    assert text[..k + 1][..k] == text[..k];
  }
}
